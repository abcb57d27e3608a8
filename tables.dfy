/**
  The `clientes` and `produtos` tables of the SQLite store (site_teco_backend/server.js),
  each an `INTEGER PRIMARY KEY` table of rows whose other columns this model
  does not look into, and the decimal reading of a route's `:id` parameter.
 */
module Tables {
  import opened Wrappers

  /** The non-key columns of a row, passed through to the store unchanged. */
  type Record(==)

  /** One table keyed by its `INTEGER PRIMARY KEY` column `id`. */
  class Table {
    var rows: map<int, Record>

    /** `CREATE TABLE IF NOT EXISTS` on a new database: no rows. */
    constructor ()
      ensures rows == map[]
    {
      rows := map[];
    }

    /** The ids in use: what the allocation queries read. */
    function Ids(): set<int>
      reads this
    {
      rows.Keys
    }

    /**
      `INSERT` of one row under a chosen id. The primary key makes a duplicate
      id fail, and then the table is unchanged.
     */
    method Insert(id: int, rec: Record) returns (ok: bool)
      modifies this
      ensures ok <==> id !in old(rows)
      ensures ok ==> rows == old(rows)[id := rec]
      ensures !ok ==> rows == old(rows)
    {
      ok := id !in rows;
      if ok {
        rows := rows[id := rec];
      }
    }

    /**
      `DELETE ... WHERE id = ?`: removes the row with that id, if any, and
      reports the number of rows removed (`this.changes`).
     */
    method Delete(id: int) returns (changes: nat)
      modifies this
      ensures changes == (if id in old(rows) then 1 else 0)
      ensures rows == old(rows) - {id}
    {
      changes := if id in rows then 1 else 0;
      rows := rows - {id};
    }
  }

  predicate IsDigit(c: char)
  {
    '0' <= c <= '9'
  }

  predicate AllDigits(s: string)
  {
    forall i :: 0 <= i < |s| ==> IsDigit(s[i])
  }

  /** The value of a string of decimal digits, most significant first. */
  function DigitsValue(s: string): nat
    requires AllDigits(s)
  {
    if s == [] then 0 else DigitsValue(s[..|s| - 1]) * 10 + (s[|s| - 1] as int - '0' as int)
  }

  /** The decimal digits of a natural number, without leading zeros. */
  function Decimal(n: nat): (s: string)
    ensures |s| > 0 && AllDigits(s)
    ensures |s| > 1 ==> s[0] != '0'
    ensures DigitsValue(s) == n
  {
    var last := ('0' as int + n % 10) as char;
    if n < 10 then [last] else Decimal(n / 10) + [last]
  }

  /** The decimal text of an integer key, with a leading '-' when negative. */
  function KeyText(k: int): string
  {
    if k < 0 then "-" + Decimal(-k) else Decimal(k)
  }

  /**
    The integer an `:id` route parameter stands for when SQLite compares it with
    an `INTEGER` column: decimal digits, optionally after a '-'. Any other text
    is no integer and matches no row.
   */
  function ParseKey(param: string): (key: Option<int>)
    ensures param == [] ==> key.None?
    ensures param == "-" ==> key.None?
    ensures |param| > 0 && !IsDigit(param[0]) && param[0] != '-' ==> key.None?
    ensures (exists i :: 0 < i < |param| && !IsDigit(param[i])) ==> key.None?
  {
    if |param| > 0 && AllDigits(param) then Some(DigitsValue(param))
    else if |param| > 1 && param[0] == '-' && AllDigits(param[1..]) then Some(0 - DigitsValue(param[1..]))
    else None
  }

  /** Every key is named by its decimal text. */
  lemma ParseKeyText(k: int)
    ensures ParseKey(KeyText(k)) == Some(k)
  {
    if k < 0 {
      var t := KeyText(k);
      assert t[0] == '-' && !IsDigit(t[0]);
      assert t[1..] == Decimal(-k);
    }
  }

  /** Decimal text without a leading zero, optionally after a '-' (but not "-0"). */
  predicate CanonicalKey(s: string)
  {
    || (|s| > 0 && AllDigits(s) && (|s| > 1 ==> s[0] != '0'))
    || (|s| > 1 && s[0] == '-' && AllDigits(s[1..]) && s[1] != '0')
  }

  /** Digits that do not start with '0' have a positive value. */
  lemma {:induction false} LeadingDigitPositive(s: string)
    requires |s| > 0 && AllDigits(s) && s[0] != '0'
    ensures DigitsValue(s) >= 1
  {
    if |s| > 1 {
      var p := s[..|s| - 1];
      assert p[0] == s[0];
      LeadingDigitPositive(p);
    }
  }

  /** Digits without a leading zero are the decimal text of their value. */
  lemma {:induction false} DecimalOfDigits(s: string)
    requires |s| > 0 && AllDigits(s) && (|s| > 1 ==> s[0] != '0')
    ensures Decimal(DigitsValue(s)) == s
  {
    var p := s[..|s| - 1];
    var d := s[|s| - 1] as int - '0' as int;
    assert 0 <= d < 10;
    if |s| == 1 {
      assert s == [s[0]];
      assert ('0' as int + d) as char == s[0];
    } else {
      assert p[0] == s[0];
      LeadingDigitPositive(p);
      DecimalOfDigits(p);
      var n := DigitsValue(s);
      assert n == DigitsValue(p) * 10 + d;
      assert n / 10 == DigitsValue(p) && n % 10 == d;
      assert ('0' as int + d) as char == s[|s| - 1];
      assert s == p + [s[|s| - 1]];
    }
  }

  /** A canonical key text is exactly the text of the key it names. */
  lemma CanonicalKeyRoundTrip(s: string, k: int)
    requires CanonicalKey(s) && ParseKey(s) == Some(k)
    ensures KeyText(k) == s
  {
    if |s| > 0 && AllDigits(s) {
      DecimalOfDigits(s);
    } else {
      var t := s[1..];
      LeadingDigitPositive(t);
      DecimalOfDigits(t);
      assert s == "-" + t;
    }
  }
}
