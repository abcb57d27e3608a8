/**
  The `usuarios` table, the bootstrap of the default account (`createDefaultUser`)
  and the decision of the `POST /login` route (site_teco_backend/server.js).
  Password hashes are opaque strings produced outside the model; bcrypt's
  verification routine is a parameter of the login decision.
 */
module Auth {
  import opened Wrappers

  const DefaultUsername: string := "admin"
  const DefaultPassword: string := "1234"

  const MissingFields: string := "Usuário e senha são obrigatórios."
  const InvalidCredentials: string := "Usuário ou senha inválidos."
  const InternalError: string := "Erro interno do servidor."
  const LoginSucceeded: string := "Login realizado com sucesso!"

  /** What `bcrypt.compare(secret, hash, cb)` hands its callback: an error, or whether they match. */
  datatype CompareResult = CompareError | Compared(matches: bool)

  /** `bcrypt.compare`, supplied by the caller: the model never looks inside it. */
  type Comparer = (string, string) -> CompareResult

  /** The secret matches the stored hash according to the comparer. */
  predicate Matches(compare: Comparer, secret: string, hash: string)
  {
    compare(secret, hash) == Compared(true)
  }

  /**
    The accounts after one run of `createDefaultUser`, given what `bcrypt.hash`
    produced (`None` for a hashing error): an `admin` row is added only when
    hashing succeeded and no `admin` row exists.
   */
  function Bootstrapped(accounts: map<string, string>, hash: Option<string>): (r: map<string, string>)
    ensures hash.Some? ==> DefaultUsername in r
    ensures hash.None? || DefaultUsername in accounts ==> r == accounts
    ensures r - {DefaultUsername} == accounts - {DefaultUsername}
  {
    if hash.None? then accounts
    else if DefaultUsername in accounts then accounts
    else accounts[DefaultUsername := hash.value]
  }

  /** The accounts after one process start per entry of `hashes`, in order. */
  function Restarts(accounts: map<string, string>, hashes: seq<Option<string>>): map<string, string>
    decreases |hashes|
  {
    if hashes == [] then accounts else Restarts(Bootstrapped(accounts, hashes[0]), hashes[1..])
  }

  /** Once an `admin` row exists, a further bootstrap changes nothing. */
  lemma BootstrapIdempotent(accounts: map<string, string>, first: Option<string>, second: Option<string>)
    requires first.Some? || DefaultUsername in accounts
    ensures Bootstrapped(Bootstrapped(accounts, first), second) == Bootstrapped(accounts, first)
  {
  }

  /**
    Any number of starts: an existing `admin` hash is never overwritten, no
    other account is touched, and after any start whose hashing succeeded
    exactly one `admin` row exists, holding the first successful hash unless
    one existed before.
   */
  lemma {:induction false} RestartsKeepOneAdmin(accounts: map<string, string>, hashes: seq<Option<string>>)
    ensures DefaultUsername in accounts ==> Restarts(accounts, hashes) == accounts
    ensures Restarts(accounts, hashes) - {DefaultUsername} == accounts - {DefaultUsername}
    ensures forall i :: 0 <= i < |hashes| && hashes[i].Some? ==> DefaultUsername in Restarts(accounts, hashes)
    ensures forall i :: 0 <= i < |hashes| && hashes[i].Some? && DefaultUsername !in accounts
                        && (forall j :: 0 <= j < i ==> hashes[j].None?)
                        ==> Restarts(accounts, hashes)[DefaultUsername] == hashes[i].value
    decreases |hashes|
  {
    if hashes != [] {
      var next := Bootstrapped(accounts, hashes[0]);
      RestartsKeepOneAdmin(next, hashes[1..]);
      forall i | 0 <= i < |hashes| && hashes[i].Some?
        ensures DefaultUsername in Restarts(accounts, hashes)
      {
        if i > 0 {
          assert hashes[1..][i - 1] == hashes[i];
        }
      }
      forall i | 0 <= i < |hashes| && hashes[i].Some? && DefaultUsername !in accounts
                 && (forall j :: 0 <= j < i ==> hashes[j].None?)
        ensures Restarts(accounts, hashes)[DefaultUsername] == hashes[i].value
      {
        if i > 0 {
          assert hashes[1..][i - 1] == hashes[i];
          assert forall j :: 0 <= j < i - 1 ==> hashes[1..][j] == hashes[j + 1];
        }
      }
    }
  }

  /** The `usuarios` table: `username` is `UNIQUE`, so one hash per username. */
  class Accounts {
    var byName: map<string, string>

    /** `CREATE TABLE IF NOT EXISTS usuarios` on a new database. */
    constructor ()
      ensures byName == map[]
    {
      byName := map[];
    }

    /** `INSERT INTO usuarios (username, password_hash)`: fails on a taken username. */
    method Insert(username: string, hash: string) returns (ok: bool)
      modifies this
      ensures ok <==> username !in old(byName)
      ensures byName == if ok then old(byName)[username := hash] else old(byName)
    {
      ok := username !in byName;
      if ok {
        byName := byName[username := hash];
      }
    }

    /**
      `createDefaultUser`, run when the database opens: give up on a hashing
      error, else look `admin` up and insert it only when absent.
     */
    method CreateDefaultUser(hash: Option<string>)
      modifies this
      ensures byName == Bootstrapped(old(byName), hash)
    {
      if hash.None? {
        return;
      }
      if DefaultUsername !in byName {
        var _ := Insert(DefaultUsername, hash.value);
      }
    }
  }

  /** The responses of `POST /login`. */
  datatype LoginResponse =
    | BadRequest(error: string)
    | Unauthorized(message: string)
    | ServerError(error: string)
    | LoggedIn(success: bool, message: string)

  function Status(r: LoginResponse): int
  {
    match r
    case BadRequest(_) => 400
    case Unauthorized(_) => 401
    case ServerError(_) => 500
    case LoggedIn(_, _) => 200
  }

  /** JavaScript truthiness of a string body field: absent and "" are falsy. */
  predicate Present(field: Option<string>)
  {
    field.Some? && field.value != ""
  }

  /**
    The `POST /login` decision over the `usuarios` rows for the body fields
    `user` and `senha`.
   */
  function Login(accounts: map<string, string>, user: Option<string>, senha: Option<string>, compare: Comparer)
    : (r: LoginResponse)
    ensures Status(r) == 400 <==> !Present(user) || !Present(senha)
    ensures Status(r) == 200 <==> Present(user) && Present(senha) && user.value in accounts
                                  && Matches(compare, senha.value, accounts[user.value])
    ensures Status(r) == 500 <==> Present(user) && Present(senha) && user.value in accounts
                                  && compare(senha.value, accounts[user.value]) == CompareError
    ensures Status(r) == 401 ==> r == Unauthorized(InvalidCredentials)
    ensures Status(r) == 200 ==> r == LoggedIn(true, LoginSucceeded)
    ensures Status(r) == 500 ==> r == ServerError(InternalError)
    ensures Present(user) && Present(senha) && user.value !in accounts ==> Status(r) == 401
  {
    if !Present(user) || !Present(senha) then BadRequest(MissingFields)
    else if user.value !in accounts then Unauthorized(InvalidCredentials)
    else match compare(senha.value, accounts[user.value])
      case CompareError => ServerError(InternalError)
      case Compared(ok) => if ok then LoggedIn(true, LoginSucceeded) else Unauthorized(InvalidCredentials)
  }

  /** A missing or empty field is refused without consulting the accounts or the comparer. */
  lemma BadRequestBeforeLookup(a1: map<string, string>, a2: map<string, string>, user: Option<string>,
                               senha: Option<string>, c1: Comparer, c2: Comparer)
    requires !Present(user) || !Present(senha)
    ensures Login(a1, user, senha, c1) == Login(a2, user, senha, c2) == BadRequest(MissingFields)
  {
  }

  /** An unknown user and a wrong password get the very same response. */
  lemma UnknownUserLikeWrongPassword(accounts: map<string, string>, compare: Comparer,
                                     unknown: string, anySecret: string, known: string, wrong: string)
    requires unknown != "" && anySecret != "" && known != "" && wrong != ""
    requires unknown !in accounts && known in accounts
    requires compare(wrong, accounts[known]) == Compared(false)
    ensures Login(accounts, Some(unknown), Some(anySecret), compare)
         == Login(accounts, Some(known), Some(wrong), compare)
         == Unauthorized(InvalidCredentials)
  {
  }

  /** The decision reads only the row of the user logging in. */
  lemma LoginReadsOwnRow(a1: map<string, string>, a2: map<string, string>, user: string,
                         senha: Option<string>, compare: Comparer)
    requires (user in a1 <==> user in a2) && (user in a1 ==> a1[user] == a2[user])
    ensures Login(a1, Some(user), senha, compare) == Login(a2, Some(user), senha, compare)
  {
  }

  /**
    After the first start on an empty table, with a hash of the default password
    that bcrypt accepts, `admin`/`1234` logs in, and a wrong password and an
    unknown user are both refused with the same response.
   */
  lemma LoginAfterBootstrap(hash: string, compare: Comparer)
    requires Matches(compare, DefaultPassword, hash)
    requires compare("wrong", hash) == Compared(false)
    ensures var accounts := Bootstrapped(map[], Some(hash));
      && Login(accounts, Some(DefaultUsername), Some(DefaultPassword), compare) == LoggedIn(true, LoginSucceeded)
      && Login(accounts, Some(DefaultUsername), Some("wrong"), compare) == Unauthorized(InvalidCredentials)
      && Login(accounts, Some("nouser"), Some("anything"), compare) == Unauthorized(InvalidCredentials)
  {
    var accounts := Bootstrapped(map[], Some(hash));
    assert "nouser" !in accounts;
  }
}
