/** The SQLite `users` table (src/models/user_model.py): one Medium token per user name.
    `username` is UNIQUE NOT NULL; `add_user` is INSERT OR REPLACE, which deletes the row
    that holds the same name and inserts a new one with a fresh AUTOINCREMENT id. */
module UserModel {
  import opened Base

  datatype UserRow = UserRow(id: nat, username: string, mediumToken: Option<string>)

  datatype UserTable = UserTable(rows: seq<UserRow>, nextId: nat)

  predicate Valid(t: UserTable) {
    IdsIncreasing(t.rows) && NamesDistinct(t.rows) && Bounded(t.rows, -1, t.nextId, None)
  }

  /** The rows whose name differs from `username`, in order. */
  function Without(rows: seq<UserRow>, username: string): (r: seq<UserRow>)
    ensures forall k :: 0 <= k < |r| ==> r[k].username != username
    ensures |r| <= |rows|
    decreases |rows|
  {
    if rows == [] then []
    else (if rows[0].username == username then [] else [rows[0]]) + Without(rows[1..], username)
  }

  /** `add_user`: `INSERT OR REPLACE INTO users (username, medium_token)`. */
  function AddUser(t: UserTable, username: string, token: Option<string>): UserTable {
    UserTable(Without(t.rows, username) + [UserRow(t.nextId, username, token)], t.nextId + 1)
  }

  /** `get_user_token`: the stored token, or None when there is no such user; a stored
      NULL is None as well. */
  function GetUserToken(t: UserTable, username: string): Option<string>
    decreases |t.rows|
  {
    if t.rows == [] then None
    else if t.rows[0].username == username then t.rows[0].mediumToken
    else GetUserToken(UserTable(t.rows[1..], t.nextId), username)
  }

  /** In a valid table the lookup finds the one row holding the name. */
  lemma {:induction false} GetUserTokenFinds(t: UserTable, username: string, k: nat)
    requires NamesDistinct(t.rows)
    requires k < |t.rows| && t.rows[k].username == username
    ensures GetUserToken(t, username) == t.rows[k].mediumToken
    decreases |t.rows|
  {
    if k > 0 {
      GetUserTokenFinds(UserTable(t.rows[1..], t.nextId), username, k - 1);
    }
  }

  lemma {:induction false} GetUserTokenMissing(t: UserTable, username: string)
    requires forall i :: 0 <= i < |t.rows| ==> t.rows[i].username != username
    ensures GetUserToken(t, username) == None
    decreases |t.rows|
  {
    if t.rows != [] {
      GetUserTokenMissing(UserTable(t.rows[1..], t.nextId), username);
    }
  }

  predicate IdsIncreasing(rows: seq<UserRow>) {
    forall i, j :: 0 <= i < j < |rows| ==> rows[i].id < rows[j].id
  }

  predicate NamesDistinct(rows: seq<UserRow>) {
    forall i, j :: 0 <= i < j < |rows| ==> rows[i].username != rows[j].username
  }

  /** Every id lies strictly between `lo` and `hi`, and no row is named `name`. */
  predicate Bounded(rows: seq<UserRow>, lo: int, hi: int, name: Option<string>) {
    forall i :: 0 <= i < |rows| ==> lo < rows[i].id < hi && Some(rows[i].username) != name
  }

  /** Removing rows keeps ids increasing, names distinct and bounds intact. */
  lemma {:induction false} WithoutValid(rows: seq<UserRow>, username: string, lo: int, hi: int, name: Option<string>)
    requires IdsIncreasing(rows) && NamesDistinct(rows) && Bounded(rows, lo, hi, name)
    ensures var r := Without(rows, username);
            IdsIncreasing(r) && NamesDistinct(r) && Bounded(r, lo, hi, name)
    decreases |rows|
  {
    if rows != [] {
      var rest := Without(rows[1..], username);
      var r := Without(rows, username);
      var tail := rows[1..];
      assert IdsIncreasing(tail) && NamesDistinct(tail) by {
        forall i, j | 0 <= i < j < |tail| ensures tail[i].id < tail[j].id && tail[i].username != tail[j].username {
          assert tail[i] == rows[i + 1] && tail[j] == rows[j + 1];
        }
      }
      if rows[0].username != username {
        assert Bounded(tail, rows[0].id, hi, Some(rows[0].username)) by {
          forall i | 0 <= i < |tail| ensures rows[0].id < tail[i].id < hi && Some(tail[i].username) != Some(rows[0].username) {
            assert tail[i] == rows[i + 1];
          }
        }
        assert Bounded(tail, lo, hi, name) by {
          forall i | 0 <= i < |tail| ensures lo < tail[i].id < hi && Some(tail[i].username) != name {
            assert tail[i] == rows[i + 1];
          }
        }
        WithoutValid(tail, username, rows[0].id, hi, Some(rows[0].username));
        WithoutValid(tail, username, lo, hi, name);
        assert r == [rows[0]] + rest;
        forall i, j | 0 <= i < j < |r| ensures r[i].id < r[j].id && r[i].username != r[j].username {
          assert r[j] == rest[j - 1];
          if i > 0 { assert r[i] == rest[i - 1]; }
        }
        forall i | 0 <= i < |r| ensures lo < r[i].id < hi && Some(r[i].username) != name {
          if i > 0 { assert r[i] == rest[i - 1]; }
        }
      } else {
        assert Bounded(tail, lo, hi, name) by {
          forall i | 0 <= i < |tail| ensures lo < tail[i].id < hi && Some(tail[i].username) != name {
            assert tail[i] == rows[i + 1];
          }
        }
        WithoutValid(tail, username, lo, hi, name);
        assert r == rest;
      }
    }
  }

  /** A row whose name differs from `username` survives the removal. */
  lemma {:induction false} WithoutKeeps(rows: seq<UserRow>, username: string, j: nat) returns (k: nat)
    requires j < |rows| && rows[j].username != username
    ensures k < |Without(rows, username)| && Without(rows, username)[k] == rows[j]
    decreases |rows|
  {
    var rest := Without(rows[1..], username);
    if j == 0 {
      k := 0;
    } else {
      var k' := WithoutKeeps(rows[1..], username, j - 1);
      k := if rows[0].username == username then k' else k' + 1;
    }
  }

  /** After `add_user(name, token)` the table is valid, the name maps to `token` (also
      when it held another token before), and every other name keeps its token. */
  lemma AddUserProperties(t: UserTable, username: string, token: Option<string>, other: string)
    requires Valid(t)
    ensures Valid(AddUser(t, username, token))
    ensures GetUserToken(AddUser(t, username, token), username) == token
    ensures other != username ==> GetUserToken(AddUser(t, username, token), other) == GetUserToken(t, other)
  {
    var w := Without(t.rows, username);
    WithoutValid(t.rows, username, -1, t.nextId, None);
    var t' := AddUser(t, username, token);
    assert t'.rows == w + [UserRow(t.nextId, username, token)];
    assert Valid(t');
    GetUserTokenFinds(t', username, |w|);
    if other != username {
      if j :| 0 <= j < |t.rows| && t.rows[j].username == other {
        GetUserTokenFinds(t, other, j);
        var k := WithoutKeeps(t.rows, username, j);
        GetUserTokenFinds(t', other, k);
      } else {
        GetUserTokenMissing(t, other);
        WithoutValid(t.rows, username, -1, t.nextId, Some(other));
        GetUserTokenMissing(t', other);
      }
    }
  }

  class Users {
    var rows: seq<UserRow>
    var nextId: nat

    function Table(): UserTable
      reads this
    {
      UserTable(rows, nextId)
    }

    constructor ()
      ensures Table() == UserTable([], 1) && Valid(Table())
    {
      rows, nextId := [], 1;
    }

    method Add(username: string, token: Option<string>)
      requires Valid(Table())
      modifies this
      ensures Table() == AddUser(old(Table()), username, token) && Valid(Table())
    {
      AddUserProperties(Table(), username, token, username);
      rows := Without(rows, username) + [UserRow(nextId, username, token)];
      nextId := nextId + 1;
    }

    method Token(username: string) returns (token: Option<string>)
      requires Valid(Table())
      ensures token == GetUserToken(Table(), username)
      ensures forall k :: 0 <= k < |rows| && rows[k].username == username ==> token == rows[k].mediumToken
      ensures (forall k :: 0 <= k < |rows| ==> rows[k].username != username) ==> token == None
    {
      token := None;
      var i := 0;
      while i < |rows|
        invariant 0 <= i <= |rows|
        invariant forall k :: 0 <= k < i ==> rows[k].username != username
      {
        if rows[i].username == username {
          GetUserTokenFinds(Table(), username, i);
          token := rows[i].mediumToken;
          forall k | 0 <= k < |rows| && rows[k].username == username ensures k == i { }
          return;
        }
        i := i + 1;
      }
      GetUserTokenMissing(Table(), username);
    }
  }
}
