/**
  The gap-filling identifier choice of `findAndInsert` (site_teco_backend/server.js).

  A table's primary keys are a finite set of integers. The two SQL queries the
  function issues (the gap query and `SELECT MAX(id)`) and the JavaScript
  truthiness tests applied to their results are modelled as functions over that
  set, so that the id the server picks is `Allocate(ids)`.
 */
module IdAllocation {
  import opened Wrappers

  /** Every nonempty finite set of integers has a least element. */
  lemma {:induction false} HasMinimum(s: set<int>)
    requires s != {}
    ensures exists m :: m in s && forall y :: y in s ==> m <= y
  {
    // Rules out an empty s, which gives `:|` below the witness it needs.
    if forall y :: y !in s {
      assert false;
    }
    var x :| x in s;
    if s == {x} {
      assert forall y :: y in s ==> x <= y;
    } else {
      var rest := s - {x};
      HasMinimum(rest);
      var m :| m in rest && forall y :: y in rest ==> m <= y;
      var least := if x < m then x else m;
      forall y | y in s
        ensures least <= y
      {
        if y != x {
          assert y in rest;
        }
      }
      assert least in s;
    }
  }

  /** Every nonempty finite set of integers has a greatest element. */
  lemma {:induction false} HasMaximum(s: set<int>)
    requires s != {}
    ensures exists m :: m in s && forall y :: y in s ==> y <= m
  {
    // Rules out an empty s, which gives `:|` below the witness it needs.
    if forall y :: y !in s {
      assert false;
    }
    var x :| x in s;
    if s == {x} {
      assert forall y :: y in s ==> y <= x;
    } else {
      var rest := s - {x};
      HasMaximum(rest);
      var m :| m in rest && forall y :: y in rest ==> y <= m;
      var greatest := if m < x then x else m;
      forall y | y in s
        ensures y <= greatest
      {
        if y != x {
          assert y in rest;
        }
      }
      assert greatest in s;
    }
  }

  /** The least element of a nonempty set (`ORDER BY id ASC LIMIT 1`). */
  function MinOf(s: set<int>): (m: int)
    requires s != {}
    ensures m in s && forall y :: y in s ==> m <= y
  {
    HasMinimum(s);
    var m :| m in s && forall y :: y in s ==> m <= y; m
  }

  /** The greatest element of a nonempty set (`MAX(id)`). */
  function MaxOf(s: set<int>): (m: int)
    requires s != {}
    ensures m in s && forall y :: y in s ==> y <= m
  {
    HasMaximum(s);
    var m :| m in s && forall y :: y in s ==> y <= m; m
  }

  /** The rows `t1` the gap query keeps: ids whose successor is not an id. */
  function GapStarts(ids: set<int>): set<int>
  {
    set k {:trigger k in ids} | k in ids && k + 1 !in ids
  }

  /**
    The gap query: no row when no id qualifies, otherwise `next_id = k + 1` for
    the smallest id `k` whose successor `k + 1` is absent. A row exists exactly
    when the table is nonempty (its largest id always qualifies).
   */
  function GapQuery(ids: set<int>): (next: Option<int>)
    ensures next.None? <==> ids == {}
    ensures next.Some? ==> next.value - 1 in ids && next.value !in ids
    ensures next.Some? ==> forall k :: k in ids && k < next.value - 1 ==> k + 1 in ids
  {
    var starts := GapStarts(ids);
    assert ids != {} ==> MaxOf(ids) in starts;
    assert forall k :: k in ids && k + 1 !in ids ==> k in starts;
    if starts == {} then None else Some(MinOf(starts) + 1)
  }

  /** `SELECT MAX(id)`: the single row's `max_id` is NULL on an empty table. */
  function MaxQuery(ids: set<int>): (maxId: Option<int>)
    ensures maxId.None? <==> ids == {}
    ensures maxId.Some? ==> maxId.value in ids && forall k :: k in ids ==> k <= maxId.value
  {
    if ids == {} then None else Some(MaxOf(ids))
  }

  /** JavaScript truthiness of a nullable integer column: NULL and 0 are falsy. */
  predicate Truthy(v: Option<int>)
  {
    v.Some? && v.value != 0
  }

  /** `novoId` as first set: the gap query's `next_id`, or null when that is falsy. */
  function GapCandidate(ids: set<int>): (novoId: Option<int>)
    ensures novoId.Some? ==> novoId == GapQuery(ids)
    ensures novoId.Some? ==> novoId.value != 0 && novoId.value !in ids
    ensures novoId.None? <==> ids == {} || GapQuery(ids) == Some(0)
  {
    var row := GapQuery(ids);
    if Truthy(row) then row else None
  }

  /** The test `novoId === null || novoId === 1` that sends the server to `MAX(id)`. */
  predicate TakesMaxBranch(ids: set<int>)
  {
    GapCandidate(ids) == None || GapCandidate(ids) == Some(1)
  }

  /** The fallback `max_id + 1`, or 1 when `max_id` is NULL or 0. */
  function MaxFallback(ids: set<int>): (id: int)
    ensures id !in ids
    ensures ids == {} ==> id == 1
    ensures ids != {} && MaxOf(ids) != 0 ==> id == MaxOf(ids) + 1
    ensures ids != {} && MaxOf(ids) == 0 ==> id == 1
    ensures forall k :: k in ids && k != 0 ==> k < id
  {
    var row := MaxQuery(ids);
    if Truthy(row) then row.value + 1 else 1
  }

  /** The id `findAndInsert` hands to the insert function. It is never in use. */
  function Allocate(ids: set<int>): (id: int)
    ensures id !in ids
    ensures ids == {} ==> id == 1
  {
    if TakesMaxBranch(ids) then MaxFallback(ids) else GapCandidate(ids).value
  }

  /** The consecutive ids `lo`, ..., `hi`. */
  function Range(lo: int, hi: int): (r: set<int>)
    ensures forall k :: k in r <==> lo <= k <= hi
    decreases hi - lo
  {
    if hi < lo then {} else Range(lo, hi - 1) + {hi}
  }

  /** With positive ids the gap query never yields 0 or 1: its candidate is at least 2. */
  lemma PositiveGapCandidate(ids: set<int>)
    requires ids != {}
    requires forall k :: k in ids ==> k > 0
    ensures GapCandidate(ids).Some? && GapCandidate(ids).value >= 2
  {
  }

  /** With positive ids the `MAX(id)` branch is taken exactly when the table is empty. */
  lemma MaxBranchOnlyWhenEmpty(ids: set<int>)
    requires forall k :: k in ids ==> k > 0
    ensures TakesMaxBranch(ids) <==> ids == {}
  {
    if ids != {} {
      PositiveGapCandidate(ids);
    }
  }

  /** In general the `MAX(id)` branch needs an empty table, or an id 0 or -1. */
  lemma MaxBranchWitness(ids: set<int>)
    ensures TakesMaxBranch(ids) ==> ids == {} || 0 in ids || -1 in ids
  {
  }

  /**
    With positive ids, the allocated id is `k + 1` for the smallest id `k` whose
    successor is free, and it never exceeds `MAX(id) + 1`.
   */
  lemma PositiveAllocation(ids: set<int>)
    requires ids != {}
    requires forall k :: k in ids ==> k > 0
    ensures Allocate(ids) - 1 in ids && Allocate(ids) !in ids
    ensures forall k :: k in ids && k < Allocate(ids) - 1 ==> k + 1 in ids
    ensures Allocate(ids) <= MaxOf(ids) + 1
  {
    MaxBranchOnlyWhenEmpty(ids);
  }

  /** From an empty or all-positive table the allocated id is positive: ids stay positive. */
  lemma AllocatePositive(ids: set<int>)
    requires forall k :: k in ids ==> k > 0
    ensures Allocate(ids) > 0
  {
    if ids != {} {
      PositiveAllocation(ids);
    }
  }

  /**
    With positive ids, the allocated id lies above the smallest id in use: an id
    below the smallest remaining one is never reused while any row remains.
   */
  lemma NoReuseBelowMinimum(ids: set<int>)
    requires ids != {}
    requires forall k :: k in ids ==> k > 0
    ensures Allocate(ids) > MinOf(ids)
  {
    PositiveAllocation(ids);
  }

  /** The three conditions of `PositiveAllocation` determine the allocated id. */
  lemma {:induction false} AllocationDetermined(ids: set<int>, r: int)
    requires forall k :: k in ids ==> k > 0
    requires r - 1 in ids && r !in ids
    requires forall k :: k in ids && k < r - 1 ==> k + 1 in ids
    ensures Allocate(ids) == r
  {
    PositiveAllocation(ids);
    var a := Allocate(ids);
    if a < r {
      assert a - 1 < r - 1;
    } else if a > r {
      assert r - 1 < a - 1;
    }
  }

  /** After inserting ids 1..n in turn, the next id is n + 1. */
  lemma DenseTable(n: nat)
    ensures Allocate(Range(1, n)) == n + 1
  {
    if n > 0 {
      AllocationDetermined(Range(1, n), n + 1);
    }
  }

  /** Deleting an interior or last id d >= 2 from 1..n makes d the next id: the gap is reused. */
  lemma InteriorGapReused(n: nat, d: int)
    requires 2 <= d <= n
    ensures Allocate(Range(1, n) - {d}) == d
  {
    AllocationDetermined(Range(1, n) - {d}, d);
  }

  /**
    Deleting id 1 from 1..n (n >= 2) does not make 1 the next id: the gap query
    finds the end of the run 2..n, so the server allocates n + 1 and id 1 stays
    unused. The allocator is therefore not "smallest unused positive id".
   */
  lemma FrontGapNotReused(n: nat)
    requires n >= 2
    ensures 1 !in Range(1, n) - {1}
    ensures Allocate(Range(1, n) - {1}) == n + 1
  {
    AllocationDetermined(Range(1, n) - {1}, n + 1);
  }

  /** Allocations for small tables, and the path each takes. */
  lemma AllocationExamples()
    ensures Allocate({}) == 1
    ensures Allocate({1, 2, 4}) == 3
    ensures Allocate({1, 2, 3}) == 4
    ensures Allocate({2, 3}) == 4 && GapCandidate({2, 3}) == Some(4)
    ensures Allocate({2}) == 3 && !TakesMaxBranch({2})
    ensures Allocate({3, 4}) == 5
  {
    AllocationDetermined({3, 4}, 5);
    AllocationDetermined({1, 2, 4}, 3);
    AllocationDetermined({1, 2, 3}, 4);
    AllocationDetermined({2, 3}, 4);
    MaxBranchOnlyWhenEmpty({2, 3});
    AllocationDetermined({2}, 3);
    MaxBranchOnlyWhenEmpty({2});
  }
}
