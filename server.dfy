/**
  The database handle `db` of site_teco_backend/server.js and the routes that
  change it: the two insert functions, `findAndInsert` behind `POST /clientes`
  and `POST /produtos`, and the two `DELETE` routes.
 */
module Server {
  import opened Wrappers
  import opened IdAllocation
  import opened Tables
  import opened Auth

  /** The two record collections: `clientes` and `produtos`. */
  datatype Collection = Clientes | Produtos

  /** The JSON answer of an insert: `{ id, message }`, or status 500 with `{ error }`. */
  datatype InsertResponse = Created(id: int, message: string) | InsertFailed(error: string)

  /** The JSON answer of a delete: `{ message, changes }`, or status 404 with `{ message }`. */
  datatype DeleteResponse = Removed(message: string, changes: nat) | NotFound(message: string)

  function InsertStatus(r: InsertResponse): int
  {
    if r.Created? then 200 else 500
  }

  function DeleteStatus(r: DeleteResponse): int
  {
    if r.Removed? then 200 else 404
  }

  function Other(c: Collection): Collection
  {
    if c == Clientes then Produtos else Clientes
  }

  function CreatedMessage(c: Collection): string
  {
    match c
    case Clientes => "Cliente cadastrado com sucesso!"
    case Produtos => "Produto cadastrado com sucesso!"
  }

  function InsertFailure(c: Collection): string
  {
    match c
    case Clientes => "Falha ao cadastrar o cliente."
    case Produtos => "Falha ao cadastrar o produto."
  }

  function NotFoundMessage(c: Collection): string
  {
    match c
    case Clientes => "Cliente não encontrado."
    case Produtos => "Produto não encontrado."
  }

  /** The success message echoes the route parameter for clients only. */
  function RemovedMessage(c: Collection, param: string): string
  {
    match c
    case Clientes => "Cliente (ID: " + param + ") deletado com sucesso!"
    case Produtos => "Produto deletado com sucesso!"
  }

  /** The shared SQLite handle: the three tables it holds. */
  class Database {
    const clientes: Table
    const produtos: Table
    const usuarios: Accounts

    ghost predicate Valid()
      reads this
    {
      clientes != produtos
    }

    /** Opening `./database.db` for the first time and creating its tables. */
    constructor ()
      ensures Valid() && fresh(clientes) && fresh(produtos) && fresh(usuarios)
      ensures clientes.rows == map[] && produtos.rows == map[] && usuarios.byName == map[]
    {
      clientes := new Table();
      produtos := new Table();
      usuarios := new Accounts();
    }

    function TableOf(c: Collection): Table
      reads this
    {
      if c == Clientes then clientes else produtos
    }

    /**
      `performClientInsert`: one row under the given id, answered with that id;
      a taken id fails with the clients' message and changes nothing.
     */
    method PerformClientInsert(id: int, c: Record) returns (resp: InsertResponse)
      requires Valid()
      modifies clientes
      ensures resp == (if id in old(clientes.rows) then InsertFailed(InsertFailure(Clientes))
                       else Created(id, CreatedMessage(Clientes)))
      ensures clientes.rows == (if id in old(clientes.rows) then old(clientes.rows) else old(clientes.rows)[id := c])
    {
      var ok := clientes.Insert(id, c);
      if !ok {
        return InsertFailed(InsertFailure(Clientes));
      }
      resp := Created(id, CreatedMessage(Clientes));
    }

    /** `performProductInsert`: as for clients, on `produtos` with the products' messages. */
    method PerformProductInsert(id: int, p: Record) returns (resp: InsertResponse)
      requires Valid()
      modifies produtos
      ensures resp == (if id in old(produtos.rows) then InsertFailed(InsertFailure(Produtos))
                       else Created(id, CreatedMessage(Produtos)))
      ensures produtos.rows == (if id in old(produtos.rows) then old(produtos.rows) else old(produtos.rows)[id := p])
    {
      var ok := produtos.Insert(id, p);
      if !ok {
        return InsertFailed(InsertFailure(Produtos));
      }
      resp := Created(id, CreatedMessage(Produtos));
    }

    /**
      `findAndInsert` run to completion without interleaving: the allocated id is
      fresh, so the insert always succeeds, adds exactly that row and leaves the
      other table alone.
     */
    method FindAndInsert(collection: Collection, data: Record) returns (resp: InsertResponse)
      requires Valid()
      modifies clientes, produtos
      ensures var id := Allocate(old(TableOf(collection).rows).Keys);
        && resp == Created(id, CreatedMessage(collection))
        && TableOf(collection).rows == old(TableOf(collection).rows)[id := data]
      ensures TableOf(Other(collection)).rows == old(TableOf(Other(collection)).rows)
      ensures (forall k :: k in old(TableOf(collection).rows) ==> k > 0) ==>
                forall k :: k in TableOf(collection).rows ==> k > 0
    {
      var novoId := Allocate(TableOf(collection).Ids());
      if forall k :: k in TableOf(collection).rows ==> k > 0 {
        AllocatePositive(TableOf(collection).Ids());
      }
      if collection == Clientes {
        resp := PerformClientInsert(novoId, data);
      } else {
        resp := PerformProductInsert(novoId, data);
      }
    }

    /** The `DELETE /clientes/:id` and `DELETE /produtos/:id` routes. */
    method DeleteRoute(collection: Collection, param: string) returns (resp: DeleteResponse)
      requires Valid()
      modifies clientes, produtos
      ensures var key := ParseKey(param);
        var found := key.Some? && key.value in old(TableOf(collection).rows);
        && resp == (if found then Removed(RemovedMessage(collection, param), 1)
                    else NotFound(NotFoundMessage(collection)))
        && TableOf(collection).rows == (if found then old(TableOf(collection).rows) - {key.value}
                                        else old(TableOf(collection).rows))
      ensures TableOf(Other(collection)).rows == old(TableOf(Other(collection)).rows)
    {
      var key := ParseKey(param);
      var changes := 0;
      if key.Some? {
        changes := TableOf(collection).Delete(key.value);
      }
      if changes == 0 {
        return NotFound(NotFoundMessage(collection));
      }
      resp := Removed(RemovedMessage(collection, param), changes);
    }
  }

  /**
    Clients A and B get ids 1 and 2 even when their records are equal; after
    `DELETE /clientes/1`, client C gets id 3, not the freed id 1, with status 200.
   */
  method FrontDeleteScenario(a: Record, b: Record, c: Record) returns (idA: int, idB: int, idC: int, status: int)
    ensures idA == 1 && idB == 2 && idC == 3 && status == 200
  {
    var db := new Database();
    var r := db.FindAndInsert(Clientes, a);
    idA := r.id;
    AllocationDetermined({1}, 2);
    r := db.FindAndInsert(Clientes, b);
    idB := r.id;
    assert ParseKey("1") == Some(1);
    var d := db.DeleteRoute(Clientes, "1");
    assert db.clientes.rows.Keys == {2};
    AllocationExamples();
    r := db.FindAndInsert(Clientes, c);
    idC := r.id;
    status := InsertStatus(r);
  }

  /**
    Products at ids 1, 2 and 3; after `DELETE /produtos/2` the next product
    reuses id 2, and a delete of a non-numeric id is a 404 that changes nothing.
   */
  method InteriorDeleteScenario(p: Record) returns (reused: int, status: int)
    ensures reused == 2 && status == 404
  {
    var db := new Database();
    var r := db.FindAndInsert(Produtos, p);
    AllocationDetermined({1}, 2);
    r := db.FindAndInsert(Produtos, p);
    assert db.produtos.rows.Keys == {1, 2};
    AllocationDetermined({1, 2}, 3);
    r := db.FindAndInsert(Produtos, p);
    assert ParseKey("2") == Some(2);
    var d := db.DeleteRoute(Produtos, "2");
    assert db.produtos.rows.Keys == {1, 3};
    AllocationDetermined({1, 3}, 2);
    r := db.FindAndInsert(Produtos, p);
    reused := r.id;
    assert ParseKey("abc") == None;
    d := db.DeleteRoute(Produtos, "abc");
    status := DeleteStatus(d);
  }
}
