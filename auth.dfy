/**
 * The credential store: a table of users whose usernames are unique, the
 * sign-up and login handlers over it, and the per-client login session.
 * Password hashing is outside the model: sign-up receives the hash the
 * hashing library produced, and login receives the library's check as a
 * function from (stored hash, offered password) to a verdict.
 */
module Auth {
  import opened Wrappers

  /** One row of the `User` table. */
  datatype User = User(id: nat, username: string, password: string)

  predicate UniqueUsernames(rows: seq<User>)
  {
    forall i, j :: 0 <= i < j < |rows| ==> rows[i].username != rows[j].username
  }

  /** Rows are numbered 1, 2, 3, ... in insertion order, as the integer primary key assigns them. */
  predicate SequentialIds(rows: seq<User>)
  {
    forall i :: 0 <= i < |rows| ==> rows[i].id == i + 1
  }

  /** `User.query.filter_by(username=name).first()`: the position of the first row with that username. */
  function FindUser(rows: seq<User>, name: string): (r: Option<nat>)
    ensures r.None? <==> forall i :: 0 <= i < |rows| ==> rows[i].username != name
    ensures r.Some? ==> r.value < |rows| && rows[r.value].username == name
    ensures r.Some? ==> forall j :: 0 <= j < r.value ==> rows[j].username != name
    decreases |rows|
  {
    if rows == [] then None
    else if rows[0].username == name then Some(0)
    else
      match FindUser(rows[1..], name)
      case Some(i) => Some(i + 1)
      case None => None
  }

  /** `User.query.get(id)`: the row with that primary key. */
  function LoadUser(rows: seq<User>, id: nat): (u: Option<User>)
    requires SequentialIds(rows)
    ensures u.Some? <==> exists i :: 0 <= i < |rows| && rows[i].id == id
    ensures u.Some? ==> u.value.id == id && u.value in rows
  {
    if 1 <= id <= |rows| then Some(rows[id - 1]) else None
  }

  /**
   * The login check: the id of the user who logs in, if the username is in
   * the table and the password checks against the stored hash.
   */
  function Authenticate(rows: seq<User>, username: string, password: string, check: (string, string) -> bool): (r: Option<nat>)
    ensures r.Some? ==>
      exists i :: 0 <= i < |rows| && rows[i].username == username &&
        check(rows[i].password, password) && rows[i].id == r.value
    ensures (forall i :: 0 <= i < |rows| ==> rows[i].username != username) ==> r.None?
  {
    match FindUser(rows, username)
    case None => None
    case Some(i) => if check(rows[i].password, password) then Some(rows[i].id) else None
  }

  /** With unique usernames, login succeeds exactly for a row with that username whose hash checks, and yields its id. */
  lemma AuthenticateMeans(rows: seq<User>, username: string, password: string, check: (string, string) -> bool)
    requires UniqueUsernames(rows)
    ensures Authenticate(rows, username, password, check).Some? <==>
      exists i :: 0 <= i < |rows| && rows[i].username == username && check(rows[i].password, password)
    ensures forall i :: 0 <= i < |rows| && rows[i].username == username && check(rows[i].password, password) ==>
      Authenticate(rows, username, password, check) == Some(rows[i].id)
  {
    var r := FindUser(rows, username);
    if r.Some? {
      forall i | 0 <= i < |rows| && rows[i].username == username
        ensures i == r.value
      {
      }
    }
  }

  /** The row sign-up adds for a new username. */
  function NewUser(rows: seq<User>, username: string, hashed: string): (u: User)
    ensures u.username == username && u.password == hashed
    ensures SequentialIds(rows) ==> SequentialIds(rows + [u])
    ensures SequentialIds(rows) ==> forall i :: 0 <= i < |rows| ==> rows[i].id < u.id
  {
    User(|rows| + 1, username, hashed)
  }

  /** Adding a row for a username not yet in the table keeps usernames unique and ids sequential. */
  lemma AddUserKeepsInvariant(rows: seq<User>, username: string, hashed: string)
    requires UniqueUsernames(rows) && SequentialIds(rows)
    requires FindUser(rows, username).None?
    ensures UniqueUsernames(rows + [NewUser(rows, username, hashed)])
    ensures SequentialIds(rows + [NewUser(rows, username, hashed)])
  {
  }

  /** Looking up a name in a table grown by one row finds the old row if there was one, else the new row. */
  lemma {:induction false} FindUserAppend(rows: seq<User>, u: User, name: string)
    ensures FindUser(rows + [u], name) ==
      if FindUser(rows, name).Some? then FindUser(rows, name)
      else if u.username == name then Some(|rows|)
      else None
    decreases |rows|
  {
    if rows != [] {
      assert (rows + [u])[1..] == rows[1..] + [u];
      FindUserAppend(rows[1..], u, name);
    }
  }

  /** After signing up, the new user can log in with any password the hash checks against. */
  lemma LoginAfterSignUp(rows: seq<User>, username: string, hashed: string, password: string, check: (string, string) -> bool)
    requires FindUser(rows, username).None?
    requires check(hashed, password)
    ensures Authenticate(rows + [NewUser(rows, username, hashed)], username, password, check) == Some(|rows| + 1)
  {
    FindUserAppend(rows, NewUser(rows, username, hashed), username);
  }

  /** Signing someone up does not change whether anyone else can log in. */
  lemma SignUpKeepsOtherLogins(rows: seq<User>, username: string, hashed: string, other: string, password: string, check: (string, string) -> bool)
    requires FindUser(rows, username).None?
    requires other != username
    ensures Authenticate(rows + [NewUser(rows, username, hashed)], other, password, check) == Authenticate(rows, other, password, check)
  {
    var grown := rows + [NewUser(rows, username, hashed)];
    FindUserAppend(rows, NewUser(rows, username, hashed), other);
    if FindUser(rows, other).Some? {
      assert grown[FindUser(rows, other).value] == rows[FindUser(rows, other).value];
    }
  }

  /** The `User` table. */
  class UserTable {
    var rows: seq<User>

    ghost predicate Valid()
      reads this
    {
      UniqueUsernames(rows) && SequentialIds(rows)
    }

    constructor ()
      ensures Valid() && rows == []
    {
      rows := [];
    }

    /**
     * The sign-up handler: a username that already exists is refused and
     * the table is left as it was; otherwise exactly one row is added, with
     * the next id and the hashed password.
     */
    method SignUp(username: string, hashed: string) returns (created: bool)
      requires Valid()
      modifies this
      ensures Valid()
      ensures created <==> FindUser(old(rows), username).None?
      ensures created ==> rows == old(rows) + [NewUser(old(rows), username, hashed)]
      ensures !created ==> rows == old(rows)
    {
      if FindUser(rows, username).Some? {
        return false;
      }
      AddUserKeepsInvariant(rows, username, hashed);
      rows := rows + [NewUser(rows, username, hashed)];
      created := true;
    }
  }

  /** One client's login session: the id of the logged-in user, if any. */
  class Session {
    var userId: Option<nat>

    constructor ()
      ensures userId == None
    {
      userId := None;
    }

    /** Whether the session belongs to a user still in the table (what `login_required` tests). */
    predicate Authenticated(users: UserTable)
      reads this, users
      requires users.Valid()
      ensures Authenticated(users) ==>
        userId.Some? && exists i :: 0 <= i < |users.rows| && users.rows[i].id == userId.value
    {
      userId.Some? && LoadUser(users.rows, userId.value).Some?
    }

    /**
     * The login handler: on success the session records the user's id; on
     * failure the session is not changed.
     */
    method Login(users: UserTable, username: string, password: string, check: (string, string) -> bool) returns (ok: bool)
      modifies this
      ensures ok <==> Authenticate(users.rows, username, password, check).Some?
      ensures ok ==> userId == Authenticate(users.rows, username, password, check)
      ensures !ok ==> userId == old(userId)
    {
      var found := FindUser(users.rows, username);
      if found.Some? && check(users.rows[found.value].password, password) {
        userId := Some(users.rows[found.value].id);
        return true;
      }
      return false;
    }

    method Logout()
      modifies this
      ensures userId == None
    {
      userId := None;
    }
  }
}
