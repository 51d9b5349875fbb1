/**
 * The one-way reconciler of internal/database/database.go: the store rows,
 * the linear search userExistInTursoDB, the two store mutations and SyncUsers.
 *
 * The `employees` table is an abstract sequence of rows. Whether the store
 * reports an error for a statement is not decided here: it is an input (a
 * fault flag), and a statement that fails leaves the table as it was.
 */
module Database {
  import opened Wrappers
  import opened Google

  /** A row of the `employees` table: email and telegramID. */
  datatype TursoUser = TursoUser(primaryEmail: string, tgID: int64)

  /** Go's zero value TursoUser{}. */
  const ZeroUser := TursoUser("", 0)

  /** A store statement sent by the reconciler. */
  datatype StoreCall =
    | AddUserCall(user: GoogleUser)
    | UpdateUserTgIDCall(email: string, tgID: int64)

  /** The counters SyncUsers returns. */
  datatype Counts = Counts(updated: nat, created: nat, upToDate: nat)

  /** `i` is the lowest index of a row whose email is exactly `email`. */
  ghost predicate FirstMatch(email: string, tursoUsers: seq<TursoUser>, i: int) {
    0 <= i < |tursoUsers| && tursoUsers[i].primaryEmail == email &&
    forall j :: 0 <= j < i ==> tursoUsers[j].primaryEmail != email
  }

  /** Some row of `tursoUsers` has exactly the email `email`. */
  ghost predicate HasEmail(email: string, tursoUsers: seq<TursoUser>) {
    exists i :: 0 <= i < |tursoUsers| && tursoUsers[i].primaryEmail == email
  }

  /** A first match past the head of the table is a first match of its tail, one index lower. */
  lemma FirstMatchTail(email: string, tursoUsers: seq<TursoUser>, i: int)
    requires FirstMatch(email, tursoUsers, i) && i > 0
    ensures FirstMatch(email, tursoUsers[1..], i - 1)
  {
  }

  /**
   * userExistInTursoDB: the first row whose email equals the user's email,
   * byte for byte; the zero row and false when there is none.
   */
  function UserExistInTursoDB(user: GoogleUser, tursoUsers: seq<TursoUser>): (TursoUser, bool) {
    if |tursoUsers| == 0 then (ZeroUser, false)
    else if user.primaryEmail == tursoUsers[0].primaryEmail then (tursoUsers[0], true)
    else UserExistInTursoDB(user, tursoUsers[1..])
  }

  /**
   * The search finds a row exactly when some row has the user's email; what
   * it finds is the row at the lowest such index, and otherwise the zero row.
   */
  lemma {:induction false} UserExistInTursoDBFindsFirst(user: GoogleUser, tursoUsers: seq<TursoUser>)
    ensures UserExistInTursoDB(user, tursoUsers).1 <==> HasEmail(user.primaryEmail, tursoUsers)
    ensures UserExistInTursoDB(user, tursoUsers).1 ==> UserExistInTursoDB(user, tursoUsers).0.primaryEmail == user.primaryEmail
    ensures !UserExistInTursoDB(user, tursoUsers).1 ==> UserExistInTursoDB(user, tursoUsers).0 == ZeroUser
    ensures forall i :: FirstMatch(user.primaryEmail, tursoUsers, i) ==>
      UserExistInTursoDB(user, tursoUsers) == (tursoUsers[i], true)
  {
    if |tursoUsers| > 0 && user.primaryEmail != tursoUsers[0].primaryEmail {
      UserExistInTursoDBFindsFirst(user, tursoUsers[1..]);
      if HasEmail(user.primaryEmail, tursoUsers) {
        var i :| 0 <= i < |tursoUsers| && tursoUsers[i].primaryEmail == user.primaryEmail;
        assert tursoUsers[1..][i - 1] == tursoUsers[i];
      }
      if HasEmail(user.primaryEmail, tursoUsers[1..]) {
        var i :| 0 <= i < |tursoUsers[1..]| && tursoUsers[1..][i].primaryEmail == user.primaryEmail;
        assert tursoUsers[i + 1] == tursoUsers[1..][i];
      }
      forall i | FirstMatch(user.primaryEmail, tursoUsers, i)
        ensures UserExistInTursoDB(user, tursoUsers) == (tursoUsers[i], true)
      {
        FirstMatchTail(user.primaryEmail, tursoUsers, i);
      }
    }
  }

  /**
   * The table after `UPDATE employees SET telegramID = tgID WHERE email = email`:
   * every row with that email gets the new identifier, all other rows are kept.
   */
  function SetTgID(rows: seq<TursoUser>, email: string, tgID: int64): (r: seq<TursoUser>)
    ensures |r| == |rows|
    ensures forall i :: 0 <= i < |rows| ==>
      r[i] == if rows[i].primaryEmail == email then TursoUser(email, tgID) else rows[i]
  {
    if |rows| == 0 then []
    else [if rows[0].primaryEmail == email then rows[0].(tgID := tgID) else rows[0]]
         + SetTgID(rows[1..], email, tgID)
  }

  /** The table after a store statement that succeeded. */
  function Perform(rows: seq<TursoUser>, call: StoreCall): seq<TursoUser> {
    match call
    case AddUserCall(u) => rows + [TursoUser(u.primaryEmail, u.tgID)]
    case UpdateUserTgIDCall(email, tgID) => SetTgID(rows, email, tgID)
  }

  /**
   * The statement SyncUsers sends for one Google user, decided from the
   * snapshot alone: an insert when no row matches, an update when the first
   * matching row has another identifier, nothing when it has the same one.
   */
  function Request(gUser: GoogleUser, tursoUsers: seq<TursoUser>): Option<StoreCall> {
    var (tUser, exist) := UserExistInTursoDB(gUser, tursoUsers);
    if exist then
      if gUser.tgID != tUser.tgID then Some(UpdateUserTgIDCall(gUser.primaryEmail, gUser.tgID))
      else None
    else Some(AddUserCall(gUser))
  }

  /** The counters after one more Google user whose statement failed when `fault` holds. */
  function Count(c: Counts, request: Option<StoreCall>, fault: bool): Counts {
    match request
    case None => c.(upToDate := c.upToDate + 1)
    case Some(AddUserCall(_)) => c.(created := c.created + 1)
    case Some(UpdateUserTgIDCall(_, _)) => if fault then c else c.(updated := c.updated + 1)
  }

  /** The counters SyncUsers returns for these Google users, snapshot and store faults. */
  function Tally(googleUsers: seq<GoogleUser>, tursoUsers: seq<TursoUser>, faults: seq<bool>): Counts
    requires |faults| == |googleUsers|
  {
    if |googleUsers| == 0 then Counts(0, 0, 0)
    else
      var n := |googleUsers| - 1;
      Count(Tally(googleUsers[..n], tursoUsers, faults[..n]), Request(googleUsers[n], tursoUsers), faults[n])
  }

  /** The table after SyncUsers has processed these Google users, starting from `rows`. */
  function Applied(rows: seq<TursoUser>, googleUsers: seq<GoogleUser>, tursoUsers: seq<TursoUser>,
                   faults: seq<bool>): seq<TursoUser>
    requires |faults| == |googleUsers|
  {
    if |googleUsers| == 0 then rows
    else
      var n := |googleUsers| - 1;
      var before := Applied(rows, googleUsers[..n], tursoUsers, faults[..n]);
      match Request(googleUsers[n], tursoUsers)
      case None => before
      case Some(call) => if faults[n] then before else Perform(before, call)
  }

  /** The statements SyncUsers sends for these Google users, in order. */
  function Plan(googleUsers: seq<GoogleUser>, tursoUsers: seq<TursoUser>): seq<StoreCall> {
    if |googleUsers| == 0 then []
    else
      var n := |googleUsers| - 1;
      Plan(googleUsers[..n], tursoUsers)
      + match Request(googleUsers[n], tursoUsers)
        case None => []
        case Some(call) => [call]
  }

  /** Processing Google user `i` after the ones before it. */
  lemma NextUser(rows: seq<TursoUser>, gs: seq<GoogleUser>, ts: seq<TursoUser>, faults: seq<bool>, i: nat)
    requires |faults| == |gs| && i < |gs|
    ensures Tally(gs[..i + 1], ts, faults[..i + 1]) == Count(Tally(gs[..i], ts, faults[..i]), Request(gs[i], ts), faults[i])
    ensures Applied(rows, gs[..i + 1], ts, faults[..i + 1]) ==
      match Request(gs[i], ts)
      case None => Applied(rows, gs[..i], ts, faults[..i])
      case Some(call) => if faults[i] then Applied(rows, gs[..i], ts, faults[..i]) else Perform(Applied(rows, gs[..i], ts, faults[..i]), call)
    ensures Plan(gs[..i + 1], ts) == Plan(gs[..i], ts) + match Request(gs[i], ts) case None => [] case Some(call) => [call]
  {
    assert gs[..i + 1][..i] == gs[..i];
    assert faults[..i + 1][..i] == faults[..i];
  }

  /** The connection to the store, with the `employees` table it holds. */
  class Database {
    /** The rows of the `employees` table. */
    var rows: seq<TursoUser>
    /** Every statement sent to the store so far, failed ones included. */
    ghost var issued: seq<StoreCall>

    constructor (initial: seq<TursoUser>)
      ensures rows == initial && issued == []
    {
      rows := initial;
      issued := [];
    }

    /** INSERT INTO employees (email, telegramID): a new row for `user`, unless the store reports `fault`. */
    method AddUser(user: GoogleUser, fault: bool) returns (err: bool)
      modifies this
      ensures err == fault
      ensures issued == old(issued) + [AddUserCall(user)]
      ensures rows == if fault then old(rows) else old(rows) + [TursoUser(user.primaryEmail, user.tgID)]
    {
      issued := issued + [AddUserCall(user)];
      if !fault {
        rows := rows + [TursoUser(user.primaryEmail, user.tgID)];
      }
      err := fault;
    }

    /**
     * UPDATE employees SET telegramID = tgID WHERE email = email. No matching
     * row is not an error: the table stays as it is.
     */
    method UpdateUserTgID(email: string, tgID: int64, fault: bool) returns (err: bool)
      modifies this
      ensures err == fault
      ensures issued == old(issued) + [UpdateUserTgIDCall(email, tgID)]
      ensures rows == if fault then old(rows) else SetTgID(old(rows), email, tgID)
    {
      issued := issued + [UpdateUserTgIDCall(email, tgID)];
      if !fault {
        rows := SetTgID(rows, email, tgID);
      }
      err := fault;
    }

    /**
     * SyncUsers: for each Google user in order, insert, update or leave the
     * store alone, and count the outcome. `faults[i]` is whether the store
     * reports an error for the statement sent for googleUsers[i]. The snapshot
     * `tursoUsers` is a value and is never changed.
     */
    method SyncUsers(googleUsers: seq<GoogleUser>, tursoUsers: seq<TursoUser>, faults: seq<bool>)
      returns (updated: nat, created: nat, upToDate: nat)
      requires |faults| == |googleUsers|
      modifies this
      ensures Counts(updated, created, upToDate) == Tally(googleUsers, tursoUsers, faults)
      ensures rows == Applied(old(rows), googleUsers, tursoUsers, faults)
      ensures issued == old(issued) + Plan(googleUsers, tursoUsers)
    {
      updated, created, upToDate := 0, 0, 0;
      for i := 0 to |googleUsers|
        invariant Counts(updated, created, upToDate) == Tally(googleUsers[..i], tursoUsers, faults[..i])
        invariant rows == Applied(old(rows), googleUsers[..i], tursoUsers, faults[..i])
        invariant issued == old(issued) + Plan(googleUsers[..i], tursoUsers)
      {
        NextUser(old(rows), googleUsers, tursoUsers, faults, i);
        ghost var sent := Plan(googleUsers[..i], tursoUsers);
        ghost var table := rows;
        var gUser := googleUsers[i];
        var (tUser, exist) := UserExistInTursoDB(gUser, tursoUsers);
        if exist {
          if gUser.tgID != tUser.tgID {
            assert Request(gUser, tursoUsers) == Some(UpdateUserTgIDCall(gUser.primaryEmail, gUser.tgID));
            var err := UpdateUserTgID(gUser.primaryEmail, gUser.tgID, faults[i]);
            assert issued == old(issued) + (sent + [UpdateUserTgIDCall(gUser.primaryEmail, gUser.tgID)]);
            if err {
              continue;
            }
            updated := updated + 1;
          } else {
            assert Request(gUser, tursoUsers) == None;
            upToDate := upToDate + 1;
          }
        } else {
          assert Request(gUser, tursoUsers) == Some(AddUserCall(gUser));
          var err := AddUser(gUser, faults[i]);
          assert issued == old(issued) + (sent + [AddUserCall(gUser)]);
          assert rows == if faults[i] then table else Perform(table, AddUserCall(gUser));
          created := created + 1;
        }
      }
      assert googleUsers[..|googleUsers|] == googleUsers;
      assert faults[..|faults|] == faults;
    }
  }
}
