/**
  The two tables the handlers query, held in memory in place of the SQLite database.
  Each statement the handlers issue is one method; whether the statement fails is an
  argument, since the database itself is outside the model.
 */
module Store {
  import opened Wrappers
  import opened Models

  /** The row `id` patched with `req`, or the table unchanged when no row has that id. */
  function PatchRow(rows: map<int, Service>, id: int, req: UpdateServiceRequest, now: int): (rows': map<int, Service>)
    ensures rows'.Keys == rows.Keys
    ensures forall k :: k in rows && k != id ==> rows'[k] == rows[k]
    ensures id in rows ==> rows'[id] == Patched(rows[id], req, now)
  {
    if id in rows then rows[id := Patched(rows[id], req, now)] else rows
  }

  /** The fields of `later` where it supplies them, those of `earlier` elsewhere. */
  function Combined(earlier: UpdateServiceRequest, later: UpdateServiceRequest): UpdateServiceRequest {
    UpdateServiceRequest(
      if later.serviceName.Some? then later.serviceName else earlier.serviceName,
      if later.healthcheckUrl.Some? then later.healthcheckUrl else earlier.healthcheckUrl,
      if later.durationSeconds.Some? then later.durationSeconds else earlier.durationSeconds)
  }

  /** Two updates at the same instant, one after the other, are the update of their combined fields. */
  lemma PatchedTwice(s: Service, earlier: UpdateServiceRequest, later: UpdateServiceRequest, now: int)
    ensures Patched(Patched(s, earlier, now), later, now) == Patched(s, Combined(earlier, later), now)
  {
    var t := Patched(Patched(s, earlier, now), later, now);
    var u := Patched(s, Combined(earlier, later), now);
    assert SuppliesAny(Combined(earlier, later)) <==> SuppliesAny(earlier) || SuppliesAny(later);
    assert t.updatedAt == u.updatedAt;
  }

  /** The same for whole tables. */
  lemma PatchRowTwice(rows: map<int, Service>, id: int, earlier: UpdateServiceRequest, later: UpdateServiceRequest, now: int)
    ensures PatchRow(PatchRow(rows, id, earlier, now), id, later, now) == PatchRow(rows, id, Combined(earlier, later), now)
  {
    if id in rows {
      PatchedTwice(rows[id], earlier, later, now);
    }
  }

  /** The services table, keyed by its primary key. */
  class ServiceTable {
    var rows: map<int, Service>

    /** Every row is filed under its own id. */
    ghost predicate Valid()
      reads this
    {
      forall id :: id in rows ==> rows[id].id == id
    }

    constructor ()
      ensures rows == map[] && Valid()
    {
      rows := map[];
    }

    /** `SELECT * FROM services WHERE id = ?`: the row with that id, if any. */
    function Find(id: int): (row: Option<Service>)
      reads this
      requires Valid()
      ensures row.Some? <==> id in rows
      ensures row.Some? ==> row.value.id == id && row.value in rows.Values
    {
      if id in rows then Some(rows[id]) else None
    }

    /**
      One `UPDATE services SET <fields>, updated_at = ? WHERE id = ?`. A statement that fails
      changes nothing; one that succeeds on a missing id matches no row and changes nothing.
     */
    method Update(id: int, change: UpdateServiceRequest, now: int, fails: bool) returns (ok: bool)
      requires Valid()
      modifies this
      ensures Valid()
      ensures ok == !fails
      ensures rows == if fails then old(rows) else PatchRow(old(rows), id, change, now)
    {
      if fails {
        return false;
      }
      rows := PatchRow(rows, id, change, now);
      return true;
    }
  }

  /** The first user, in table order, with this username and password. */
  function FindLogin(rows: seq<User>, username: string, password: string): (u: Option<User>)
    ensures u.None? <==> forall i :: 0 <= i < |rows| ==> !(rows[i].username == username && rows[i].password == password)
    ensures u.Some? ==> u.value in rows && u.value.username == username && u.value.password == password
  {
    if rows == [] then None
    else if rows[0].username == username && rows[0].password == password then Some(rows[0])
    else
      var rest := FindLogin(rows[1..], username, password);
      assert forall i :: 1 <= i < |rows| ==> rows[i] == rows[1..][i - 1];
      rest
  }

  /**
    Whether the user with this id has this password: `SELECT password FROM users WHERE id = ? AND password = ?`
    returns a row. With unique ids this compares with that one user's stored password, and
    no user with the id means no match.
   */
  predicate PasswordMatches(rows: seq<User>, id: int, password: string)
    ensures UniqueUsers(rows) ==> forall i :: 0 <= i < |rows| && rows[i].id == id ==>
      (PasswordMatches(rows, id, password) <==> rows[i].password == password)
    ensures (forall i :: 0 <= i < |rows| ==> rows[i].id != id) ==> !PasswordMatches(rows, id, password)
  {
    exists i :: 0 <= i < |rows| && rows[i].id == id && rows[i].password == password
  }

  /** The table after `UPDATE users SET password = ? WHERE id = ?`. */
  function WithPassword(rows: seq<User>, id: int, password: string): (rows': seq<User>)
    ensures |rows'| == |rows|
    ensures forall i :: 0 <= i < |rows| ==>
      rows'[i] == (if rows[i].id == id then rows[i].(password := password) else rows[i])
  {
    seq(|rows|, i requires 0 <= i < |rows| => if rows[i].id == id then rows[i].(password := password) else rows[i])
  }

  /** Ids and usernames are unique, as the primary key and the UNIQUE constraint demand. */
  predicate UniqueUsers(rows: seq<User>) {
    forall i, j :: 0 <= i < j < |rows| ==> rows[i].id != rows[j].id && rows[i].username != rows[j].username
  }

  /**
    After the password update the user's new password matches and the old one no longer
    does (unless they are equal); every other user keeps theirs, and the constraints still hold.
   */
  lemma WithPasswordEffect(rows: seq<User>, id: int, password: string, other: int, otherPassword: string)
    requires UniqueUsers(rows)
    ensures UniqueUsers(WithPassword(rows, id, password))
    ensures (exists i :: 0 <= i < |rows| && rows[i].id == id) ==> PasswordMatches(WithPassword(rows, id, password), id, password)
    ensures PasswordMatches(WithPassword(rows, id, password), id, otherPassword) ==> otherPassword == password
    ensures other != id ==>
      (PasswordMatches(WithPassword(rows, id, password), other, otherPassword) <==> PasswordMatches(rows, other, otherPassword))
  {
    var rows' := WithPassword(rows, id, password);
    if exists i :: 0 <= i < |rows| && rows[i].id == id {
      var i :| 0 <= i < |rows| && rows[i].id == id;
      assert rows'[i].id == id && rows'[i].password == password;
    }
    if other != id {
      if PasswordMatches(rows, other, otherPassword) {
        var i :| 0 <= i < |rows| && rows[i].id == other && rows[i].password == otherPassword;
        assert rows'[i] == rows[i];
      }
    }
  }

  /** With unique usernames, the login lookup finds the one user with that name, if the password is theirs. */
  lemma FindLoginUnique(rows: seq<User>, i: nat)
    requires UniqueUsers(rows)
    requires i < |rows|
    ensures FindLogin(rows, rows[i].username, rows[i].password) == Some(rows[i])
    ensures forall p :: p != rows[i].password ==> FindLogin(rows, rows[i].username, p).None?
  {
    var u := FindLogin(rows, rows[i].username, rows[i].password);
    var j :| 0 <= j < |rows| && rows[j] == u.value;
    assert j == i;
  }

  /** The users table. */
  class UserTable {
    var rows: seq<User>

    ghost predicate Valid()
      reads this
    {
      UniqueUsers(rows)
    }

    constructor ()
      ensures rows == [] && Valid()
    {
      rows := [];
    }

    /** The password update; a failed statement changes nothing. */
    method SetPassword(id: int, password: string, fails: bool) returns (ok: bool)
      requires Valid()
      modifies this
      ensures Valid()
      ensures ok == !fails
      ensures rows == if fails then old(rows) else WithPassword(old(rows), id, password)
    {
      if fails {
        return false;
      }
      WithPasswordEffect(rows, id, password, id, password);
      rows := WithPassword(rows, id, password);
      return true;
    }
  }
}
