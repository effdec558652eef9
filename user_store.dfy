/**
 * The `holding_users` table and the four queries the server sends it. The
 * table is a sequence of rows in storage order; `LIMIT 1` answers the first
 * matching row. SQL values are spliced in through `escapeLiteral`, and each
 * query states, through the literal's round trip, that the database sees
 * exactly the value the service meant. The statement travels as an argument
 * of the sqlite3 command, so a value holding U+0000 never reaches the
 * database: the call fails, and the service reports DB_QUERY_FAILED.
 */
module UserStore {
  import opened Wrappers
  import opened JsText
  import opened JsValues
  import SqlLiteral

  /** One row: id, full_name, login, password_hash, last_login_at. */
  datatype UserRow = UserRow(
    id: int,
    fullName: Option<string>,
    login: string,
    passwordHash: Option<string>,
    lastLoginAt: Option<string>)

  ghost predicate UniqueIds(rows: seq<UserRow>)
  {
    forall i, j :: 0 <= i < j < |rows| ==> rows[i].id != rows[j].id
  }

  /** Logins are unique up to SQLite's `lower()`. */
  ghost predicate UniqueLogins(rows: seq<UserRow>)
  {
    forall i, j :: 0 <= i < j < |rows| ==> !SameLogin(rows[i].login, rows[j].login)
  }

  /** Position of the first row whose `lower(login)` equals `lower(login)`; `|rows|` if none. */
  function FirstLoginMatch(rows: seq<UserRow>, login: string): (i: nat)
    ensures i <= |rows|
    ensures i < |rows| ==> SameLogin(rows[i].login, login)
    ensures forall j :: 0 <= j < i ==> !SameLogin(rows[j].login, login)
  {
    if rows == [] then 0
    else if SameLogin(rows[0].login, login) then 0
    else 1 + FirstLoginMatch(rows[1..], login)
  }

  /** Position of the first row whose id equals the number `id`; `|rows|` if none. */
  function FirstIdMatch(rows: seq<UserRow>, id: JsNumber): (i: nat)
    ensures i <= |rows|
    ensures i < |rows| ==> id == Finite(rows[i].id as real)
    ensures forall j :: 0 <= j < i ==> id != Finite(rows[j].id as real)
  {
    if rows == [] then 0
    else if id == Finite(rows[0].id as real) then 0
    else 1 + FirstIdMatch(rows[1..], id)
  }

  /** `SELECT … WHERE lower(login) = lower(?) LIMIT 1`. */
  function FindByLogin(rows: seq<UserRow>, login: string): (r: Option<UserRow>)
    ensures r.None? <==> forall j :: 0 <= j < |rows| ==> !SameLogin(rows[j].login, login)
    ensures r.Some? ==> r.value == rows[FirstLoginMatch(rows, login)]
  {
    var i := FirstLoginMatch(rows, login);
    if i < |rows| then Some(rows[i]) else None
  }

  /** `SELECT … WHERE id = ? LIMIT 1`. */
  function FindById(rows: seq<UserRow>, id: JsNumber): (r: Option<UserRow>)
    ensures r.None? <==> forall j :: 0 <= j < |rows| ==> id != Finite(rows[j].id as real)
    ensures r.Some? ==> r.value == rows[FirstIdMatch(rows, id)]
  {
    var i := FirstIdMatch(rows, id);
    if i < |rows| then Some(rows[i]) else None
  }

  /** With unique logins, any row whose login matches is the one the lookup answers. */
  lemma FindByLoginUnique(rows: seq<UserRow>, k: nat, login: string)
    requires UniqueLogins(rows)
    requires k < |rows| && SameLogin(rows[k].login, login)
    ensures FindByLogin(rows, login) == Some(rows[k])
  {
  }

  /** The lookup ignores case: asking with the folded login finds the same row. */
  lemma {:induction false} FindByLoginFolded(rows: seq<UserRow>, login: string)
    ensures FirstLoginMatch(rows, AsciiLower(login)) == FirstLoginMatch(rows, login)
    ensures FindByLogin(rows, AsciiLower(login)) == FindByLogin(rows, login)
  {
    SameLoginFolded(login);
    if rows != [] {
      FindByLoginFolded(rows[1..], login);
    }
  }

  /** With unique ids, the row that has the id is the one the lookup answers. */
  lemma FindByIdUnique(rows: seq<UserRow>, k: nat)
    requires UniqueIds(rows)
    requires k < |rows|
    ensures FindById(rows, Finite(rows[k].id as real)) == Some(rows[k])
  {
  }

  /** `UPDATE … SET last_login_at = ? WHERE id = ?`: the matching rows take the timestamp, nothing else moves. */
  function SetLastLogin(rows: seq<UserRow>, id: int, timestamp: string): (r: seq<UserRow>)
    ensures |r| == |rows|
    ensures forall i :: 0 <= i < |rows| ==>
      r[i].(lastLoginAt := rows[i].lastLoginAt) == rows[i]
      && r[i].lastLoginAt == (if rows[i].id == id then Some(timestamp) else rows[i].lastLoginAt)
  {
    seq(|rows|, i requires 0 <= i < |rows| =>
      if rows[i].id == id then rows[i].(lastLoginAt := Some(timestamp)) else rows[i])
  }

  /** `UPDATE … SET password_hash = ? WHERE id = ?`: the matching rows take the hash, nothing else moves. */
  function SetPasswordHash(rows: seq<UserRow>, id: int, hash: string): (r: seq<UserRow>)
    ensures |r| == |rows|
    ensures forall i :: 0 <= i < |rows| ==>
      r[i].(passwordHash := rows[i].passwordHash) == rows[i]
      && r[i].passwordHash == (if rows[i].id == id then Some(hash) else rows[i].passwordHash)
  {
    seq(|rows|, i requires 0 <= i < |rows| =>
      if rows[i].id == id then rows[i].(passwordHash := Some(hash)) else rows[i])
  }

  /** With unique ids, stamping the id of row `k` changes row `k` only. */
  lemma SetLastLoginOnly(rows: seq<UserRow>, k: nat, timestamp: string)
    requires UniqueIds(rows) && k < |rows|
    ensures forall i :: 0 <= i < |rows| ==>
      SetLastLogin(rows, rows[k].id, timestamp)[i] == if i == k then rows[k].(lastLoginAt := Some(timestamp)) else rows[i]
  {
    forall i | 0 <= i < |rows| && i != k
      ensures rows[i].id != rows[k].id
    {
      if i < k { assert rows[i].id != rows[k].id; } else { assert rows[k].id != rows[i].id; }
    }
  }

  /** With unique ids, rehashing the id of row `k` changes row `k` only. */
  lemma SetPasswordHashOnly(rows: seq<UserRow>, k: nat, hash: string)
    requires UniqueIds(rows) && k < |rows|
    ensures forall i :: 0 <= i < |rows| ==>
      SetPasswordHash(rows, rows[k].id, hash)[i] == if i == k then rows[k].(passwordHash := Some(hash)) else rows[i]
  {
    forall i | 0 <= i < |rows| && i != k
      ensures rows[i].id != rows[k].id
    {
      if i < k { assert rows[i].id != rows[k].id; } else { assert rows[k].id != rows[i].id; }
    }
  }

  /**
   * The table behind the sqlite3 command line. `online` is false when the
   * database cannot be queried; every query then throws DB_QUERY_FAILED.
   */
  class UserTable {
    var rows: seq<UserRow>
    const online: bool

    ghost predicate Valid()
      reads this
    {
      UniqueIds(rows) && UniqueLogins(rows)
    }

    constructor (rows: seq<UserRow>, online: bool)
      requires UniqueIds(rows) && UniqueLogins(rows)
      ensures Valid() && this.rows == rows && this.online == online
    {
      this.rows := rows;
      this.online := online;
    }

    /** `readUserByLogin(login)`. */
    method ReadUserByLogin(login: string) returns (r: Result<Option<UserRow>, Fault>)
      ensures r == if online && SqlLiteral.Nul !in login then Ok(FindByLogin(rows, login)) else Err(DbQueryFailed)
    {
      if !online {
        return Err(DbQueryFailed);
      }
      if SqlLiteral.Nul in login {
        // the statement then holds U+0000, which no argument can carry
        SqlLiteral.EscapedNul(login, ")");
        return Err(DbQueryFailed);
      }
      // the statement text continues `lower(<literal>)`: the literal is followed by ')'
      var literal := SqlLiteral.EscapeLiteral(Some(login));
      SqlLiteral.EscapeReadsBack(login, ")");
      var read := SqlLiteral.ReadLiteral(literal + ")");
      r := Ok(FindByLogin(rows, read.value.0));
    }

    /**
     * `readUserById(id)`: the id is spliced in as the text of `Number(id)`;
     * for NaN that is the word `NaN`, which SQLite rejects as an unknown
     * column, so the query fails.
     */
    method ReadUserById(id: JsNumber) returns (r: Result<Option<UserRow>, Fault>)
      ensures r == if online && id.Finite? then Ok(FindById(rows, id)) else Err(DbQueryFailed)
    {
      if !online || id.NaN? {
        return Err(DbQueryFailed);
      }
      r := Ok(FindById(rows, id));
    }

    /** `updateLastLogin(userId, timestamp)`; `ok` is false when it throws DB_QUERY_FAILED. */
    method UpdateLastLogin(id: int, timestamp: string) returns (ok: bool)
      requires Valid()
      modifies this
      ensures Valid() && ok == (online && SqlLiteral.Nul !in timestamp)
      ensures rows == if online && SqlLiteral.Nul !in timestamp then SetLastLogin(old(rows), id, timestamp) else old(rows)
    {
      if !online || SqlLiteral.Nul in timestamp {
        return false;
      }
      // the statement text continues `<literal>\n    WHERE id = …`
      var literal := SqlLiteral.EscapeLiteral(Some(timestamp));
      SqlLiteral.EscapeReadsBack(timestamp, "\n");
      var read := SqlLiteral.ReadLiteral(literal + "\n");
      rows := SetLastLogin(rows, id, read.value.0);
      ok := true;
    }

    /** `updatePasswordHash(userId, hash)`; `ok` is false when it throws DB_QUERY_FAILED. */
    method UpdatePasswordHash(id: int, hash: string) returns (ok: bool)
      requires Valid()
      modifies this
      ensures Valid() && ok == (online && SqlLiteral.Nul !in hash)
      ensures rows == if online && SqlLiteral.Nul !in hash then SetPasswordHash(old(rows), id, hash) else old(rows)
    {
      if !online || SqlLiteral.Nul in hash {
        return false;
      }
      var literal := SqlLiteral.EscapeLiteral(Some(hash));
      SqlLiteral.EscapeReadsBack(hash, "\n");
      var read := SqlLiteral.ReadLiteral(literal + "\n");
      rows := SetPasswordHash(rows, id, read.value.0);
      ok := true;
    }
  }
}
