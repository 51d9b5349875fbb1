/**
 * What SyncUsers promises, stated over the specification functions its
 * contract is proved against (Request, Tally, Applied, Plan).
 */
module SyncProperties {
  import opened Wrappers
  import opened Google
  import opened Database

  // ---------------------------------------------------------------------------
  // The search
  // ---------------------------------------------------------------------------

  /** A row with the email exists exactly when a first such row exists. */
  lemma {:induction false} FirstMatchExists(email: string, tursoUsers: seq<TursoUser>)
    requires HasEmail(email, tursoUsers)
    ensures exists k :: FirstMatch(email, tursoUsers, k)
  {
    var i :| 0 <= i < |tursoUsers| && tursoUsers[i].primaryEmail == email;
    if tursoUsers[0].primaryEmail != email {
      assert tursoUsers[1..][i - 1] == tursoUsers[i];
      FirstMatchExists(email, tursoUsers[1..]);
      var k :| FirstMatch(email, tursoUsers[1..], k);
      forall j | 0 <= j < k + 1
        ensures tursoUsers[j].primaryEmail != email
      {
        if j > 0 {
          assert tursoUsers[j] == tursoUsers[1..][j - 1];
        }
      }
      assert FirstMatch(email, tursoUsers, k + 1);
    } else {
      assert FirstMatch(email, tursoUsers, 0);
    }
  }

  /**
   * Matching is exact string equality, with no case folding: "A@x.com" does
   * not find the row of "a@x.com", so SyncUsers asks for an insert.
   */
  lemma CaseSensitiveMatch()
    ensures UserExistInTursoDB(GoogleUser("A@x.com", 1), [TursoUser("a@x.com", 1)]) == (ZeroUser, false)
    ensures Request(GoogleUser("A@x.com", 1), [TursoUser("a@x.com", 1)]) == Some(AddUserCall(GoogleUser("A@x.com", 1)))
  {
  }

  /** Searching after an appended row: earlier matches win, the new row is found only when nothing else is. */
  lemma {:induction false} UserExistAfterAppend(u: GoogleUser, rows: seq<TursoUser>, x: TursoUser)
    ensures UserExistInTursoDB(u, rows + [x]) ==
      if UserExistInTursoDB(u, rows).1 then UserExistInTursoDB(u, rows)
      else if x.primaryEmail == u.primaryEmail then (x, true)
      else (ZeroUser, false)
  {
    if |rows| > 0 {
      assert (rows + [x])[1..] == rows[1..] + [x];
      UserExistAfterAppend(u, rows[1..], x);
    }
  }

  /** Searching after an update: the email updated is found with its new identifier, any other is found as before. */
  lemma {:induction false} UserExistAfterSetTgID(u: GoogleUser, rows: seq<TursoUser>, email: string, tgID: int64)
    ensures UserExistInTursoDB(u, SetTgID(rows, email, tgID)) ==
      if u.primaryEmail == email && UserExistInTursoDB(u, rows).1 then (TursoUser(email, tgID), true)
      else UserExistInTursoDB(u, rows)
  {
    if |rows| > 0 {
      assert SetTgID(rows, email, tgID)[1..] == SetTgID(rows[1..], email, tgID);
      UserExistAfterSetTgID(u, rows[1..], email, tgID);
    }
  }

  // ---------------------------------------------------------------------------
  // One Google user at a time
  // ---------------------------------------------------------------------------

  /**
   * A Google user with no row of that email: AddUser is sent with the user's
   * email and identifier, and `created` goes up by one even when the insert fails.
   */
  lemma InsertOnMiss(rows: seq<TursoUser>, gs: seq<GoogleUser>, ts: seq<TursoUser>, faults: seq<bool>,
                     g: GoogleUser, fault: bool)
    requires |faults| == |gs|
    requires forall i :: 0 <= i < |ts| ==> ts[i].primaryEmail != g.primaryEmail
    ensures Plan(gs + [g], ts) == Plan(gs, ts) + [AddUserCall(g)]
    ensures var c := Tally(gs, ts, faults);
      Tally(gs + [g], ts, faults + [fault]) == Counts(c.updated, c.created + 1, c.upToDate)
    ensures Applied(rows, gs + [g], ts, faults + [fault]) ==
      Applied(rows, gs, ts, faults) + if fault then [] else [TursoUser(g.primaryEmail, g.tgID)]
  {
    assert (gs + [g])[..|gs|] == gs && (faults + [fault])[..|gs|] == faults;
    assert (gs + [g])[..|gs| + 1] == gs + [g] && (faults + [fault])[..|gs| + 1] == faults + [fault];
    NextUser(rows, gs + [g], ts, faults + [fault], |gs|);
    UserExistInTursoDBFindsFirst(g, ts);
  }

  /**
   * A Google user whose first matching row has another identifier:
   * UpdateUserTgID(email, tgID) is sent; `updated` goes up by one only when it
   * succeeds, and on failure no counter and no row changes.
   */
  lemma UpdateOnMismatch(rows: seq<TursoUser>, gs: seq<GoogleUser>, ts: seq<TursoUser>, faults: seq<bool>,
                         g: GoogleUser, fault: bool, k: nat)
    requires |faults| == |gs|
    requires FirstMatch(g.primaryEmail, ts, k) && ts[k].tgID != g.tgID
    ensures Plan(gs + [g], ts) == Plan(gs, ts) + [UpdateUserTgIDCall(g.primaryEmail, g.tgID)]
    ensures var c := Tally(gs, ts, faults);
      Tally(gs + [g], ts, faults + [fault]) == if fault then c else Counts(c.updated + 1, c.created, c.upToDate)
    ensures var before := Applied(rows, gs, ts, faults);
      Applied(rows, gs + [g], ts, faults + [fault]) ==
        if fault then before else SetTgID(before, g.primaryEmail, g.tgID)
  {
    assert (gs + [g])[..|gs|] == gs && (faults + [fault])[..|gs|] == faults;
    assert (gs + [g])[..|gs| + 1] == gs + [g] && (faults + [fault])[..|gs| + 1] == faults + [fault];
    NextUser(rows, gs + [g], ts, faults + [fault], |gs|);
    UserExistInTursoDBFindsFirst(g, ts);
  }

  /**
   * A Google user whose first matching row has the same identifier:
   * `upToDate` goes up by one and no statement is sent. Later rows with the
   * same email play no part.
   */
  lemma NoOpOnMatch(rows: seq<TursoUser>, gs: seq<GoogleUser>, ts: seq<TursoUser>, faults: seq<bool>,
                    g: GoogleUser, fault: bool, k: nat)
    requires |faults| == |gs|
    requires FirstMatch(g.primaryEmail, ts, k) && ts[k].tgID == g.tgID
    ensures Plan(gs + [g], ts) == Plan(gs, ts)
    ensures var c := Tally(gs, ts, faults);
      Tally(gs + [g], ts, faults + [fault]) == Counts(c.updated, c.created, c.upToDate + 1)
    ensures Applied(rows, gs + [g], ts, faults + [fault]) == Applied(rows, gs, ts, faults)
  {
    assert (gs + [g])[..|gs|] == gs && (faults + [fault])[..|gs|] == faults;
    assert (gs + [g])[..|gs| + 1] == gs + [g] && (faults + [fault])[..|gs| + 1] == faults + [fault];
    NextUser(rows, gs + [g], ts, faults + [fault], |gs|);
    UserExistInTursoDBFindsFirst(g, ts);
  }

  // ---------------------------------------------------------------------------
  // The counters
  // ---------------------------------------------------------------------------

  /** How many Google users took the update path and had their update fail. */
  function FailedUpdates(gs: seq<GoogleUser>, ts: seq<TursoUser>, faults: seq<bool>): nat
    requires |faults| == |gs|
  {
    if |gs| == 0 then 0
    else
      var n := |gs| - 1;
      FailedUpdates(gs[..n], ts, faults[..n])
      + if faults[n] && Request(gs[n], ts).Some? && Request(gs[n], ts).value.UpdateUserTgIDCall? then 1 else 0
  }

  /**
   * Every Google user adds to at most one counter, and only a failed update
   * adds to none: the three counters sum to the number of Google users less
   * the failed updates.
   */
  lemma {:induction false} CountersAccountForEveryUser(gs: seq<GoogleUser>, ts: seq<TursoUser>, faults: seq<bool>)
    requires |faults| == |gs|
    ensures var c := Tally(gs, ts, faults);
      c.updated + c.created + c.upToDate + FailedUpdates(gs, ts, faults) == |gs|
    ensures var c := Tally(gs, ts, faults);
      c.updated + c.created + c.upToDate <= |gs|
  {
    if |gs| > 0 {
      var n := |gs| - 1;
      CountersAccountForEveryUser(gs[..n], ts, faults[..n]);
      var before := Tally(gs[..n], ts, faults[..n]);
      var after := Tally(gs, ts, faults);
      assert after == Count(before, Request(gs[n], ts), faults[n]);
      match Request(gs[n], ts)
      case None =>
        assert after.upToDate == before.upToDate + 1;
      case Some(AddUserCall(_)) =>
        assert after.created == before.created + 1;
      case Some(UpdateUserTgIDCall(_, _)) =>
        assert after.updated == if faults[n] then before.updated else before.updated + 1;
    }
  }

  // ---------------------------------------------------------------------------
  // The table
  // ---------------------------------------------------------------------------

  /**
   * The sync is one-way and append/update only: no row is removed, no row
   * changes its email, a row whose email no Google user has stays as it was,
   * a changed row carries the identifier of a Google user of that email, and
   * every added row is a Google user's email and identifier.
   */
  lemma {:induction false} SyncKeepsOtherRows(rows: seq<TursoUser>, gs: seq<GoogleUser>, ts: seq<TursoUser>,
                                              faults: seq<bool>)
    requires |faults| == |gs|
    ensures var after := Applied(rows, gs, ts, faults);
      |rows| <= |after| &&
      (forall i :: 0 <= i < |rows| ==> after[i].primaryEmail == rows[i].primaryEmail) &&
      (forall i :: 0 <= i < |rows| && (forall g :: g in gs ==> g.primaryEmail != rows[i].primaryEmail) ==>
         after[i] == rows[i]) &&
      (forall i :: 0 <= i < |rows| ==>
         after[i] == rows[i] ||
         exists g :: g in gs && g.primaryEmail == rows[i].primaryEmail && after[i] == TursoUser(g.primaryEmail, g.tgID)) &&
      (forall i :: |rows| <= i < |after| ==>
         exists g :: g in gs && after[i] == TursoUser(g.primaryEmail, g.tgID))
  {
    if |gs| > 0 {
      var n := |gs| - 1;
      SyncKeepsOtherRows(rows, gs[..n], ts, faults[..n]);
      var before := Applied(rows, gs[..n], ts, faults[..n]);
      var after := Applied(rows, gs, ts, faults);
      assert gs == gs[..n] + [gs[n]];
      forall g | g in gs[..n] ensures g in gs { }
      match Request(gs[n], ts)
      case None =>
      case Some(AddUserCall(u)) =>
        if !faults[n] {
          assert after == before + [TursoUser(gs[n].primaryEmail, gs[n].tgID)];
        }
      case Some(UpdateUserTgIDCall(email, tgID)) =>
        if !faults[n] {
          assert after == SetTgID(before, gs[n].primaryEmail, gs[n].tgID);
        }
    }
  }

  /** The first row of the user's email exists and already has the user's identifier. */
  ghost predicate FirstMatchIsCurrent(g: GoogleUser, ts: seq<TursoUser>) {
    exists k :: FirstMatch(g.primaryEmail, ts, k) && ts[k].tgID == g.tgID
  }

  /**
   * Nothing to do: when every Google user's first matching row already has
   * its identifier, the counters are (0, 0, len(googleUsers)), no statement
   * is sent and the table is unchanged.
   */
  lemma {:induction false} NothingToDo(rows: seq<TursoUser>, gs: seq<GoogleUser>, ts: seq<TursoUser>,
                                       faults: seq<bool>)
    requires |faults| == |gs|
    requires forall i :: 0 <= i < |gs| ==> FirstMatchIsCurrent(gs[i], ts)
    ensures Tally(gs, ts, faults) == Counts(0, 0, |gs|)
    ensures Plan(gs, ts) == []
    ensures Applied(rows, gs, ts, faults) == rows
  {
    if |gs| > 0 {
      var n := |gs| - 1;
      assert forall i :: 0 <= i < n ==> gs[..n][i] == gs[i];
      NothingToDo(rows, gs[..n], ts, faults[..n]);
      assert FirstMatchIsCurrent(gs[n], ts);
      var k :| FirstMatch(gs[n].primaryEmail, ts, k) && ts[k].tgID == gs[n].tgID;
      UserExistInTursoDBFindsFirst(gs[n], ts);
      assert Request(gs[n], ts) == None;
    }
  }

  /** Every email outside `gs` is found in `rows` as it is found in the snapshot `ts`. */
  ghost predicate Untouched(rows: seq<TursoUser>, ts: seq<TursoUser>, gs: seq<GoogleUser>) {
    forall u: GoogleUser :: (forall j :: 0 <= j < |gs| ==> gs[j].primaryEmail != u.primaryEmail) ==>
      UserExistInTursoDB(u, rows) == UserExistInTursoDB(u, ts)
  }

  /** Every user of `gs` is found in `rows` at its email with its own identifier. */
  ghost predicate Current(rows: seq<TursoUser>, gs: seq<GoogleUser>) {
    forall j :: 0 <= j < |gs| ==> UserExistInTursoDB(gs[j], rows) == (TursoUser(gs[j].primaryEmail, gs[j].tgID), true)
  }

  /** The insert branch of SyncUsers (no row has the email): appending the user's row keeps the table settled. */
  lemma SettleAppend(before: seq<TursoUser>, after: seq<TursoUser>, ts: seq<TursoUser>,
                     done: seq<GoogleUser>, all: seq<GoogleUser>, g: GoogleUser)
    requires Untouched(before, ts, done) && Current(before, done)
    requires forall j :: 0 <= j < |done| ==> done[j].primaryEmail != g.primaryEmail
    requires !UserExistInTursoDB(g, ts).1
    requires after == before + [TursoUser(g.primaryEmail, g.tgID)] && all == done + [g]
    ensures Untouched(after, ts, all) && Current(after, all)
  {
    var row := TursoUser(g.primaryEmail, g.tgID);
    forall u: GoogleUser | forall j :: 0 <= j < |all| ==> all[j].primaryEmail != u.primaryEmail
      ensures UserExistInTursoDB(u, after) == UserExistInTursoDB(u, ts)
    {
      assert forall j :: 0 <= j < |done| ==> done[j] == all[j];
      assert all[|done|] == g;
      UserExistAfterAppend(u, before, row);
      UserExistInTursoDBFindsFirst(u, before);
    }
    forall j | 0 <= j < |all|
      ensures UserExistInTursoDB(all[j], after) == (TursoUser(all[j].primaryEmail, all[j].tgID), true)
    {
      UserExistAfterAppend(all[j], before, row);
      if j < |done| {
        assert all[j] == done[j];
      } else {
        assert all[j] == g;
      }
    }
  }

  /** The update branch of SyncUsers (a row has the email): setting the identifier keeps the table settled. */
  lemma SettleUpdate(before: seq<TursoUser>, after: seq<TursoUser>, ts: seq<TursoUser>,
                     done: seq<GoogleUser>, all: seq<GoogleUser>, g: GoogleUser)
    requires Untouched(before, ts, done) && Current(before, done)
    requires forall j :: 0 <= j < |done| ==> done[j].primaryEmail != g.primaryEmail
    requires UserExistInTursoDB(g, ts).1
    requires after == SetTgID(before, g.primaryEmail, g.tgID) && all == done + [g]
    ensures Untouched(after, ts, all) && Current(after, all)
  {
    forall u: GoogleUser | forall j :: 0 <= j < |all| ==> all[j].primaryEmail != u.primaryEmail
      ensures UserExistInTursoDB(u, after) == UserExistInTursoDB(u, ts)
    {
      assert forall j :: 0 <= j < |done| ==> done[j] == all[j];
      assert all[|done|] == g;
      UserExistAfterSetTgID(u, before, g.primaryEmail, g.tgID);
    }
    forall j | 0 <= j < |all|
      ensures UserExistInTursoDB(all[j], after) == (TursoUser(all[j].primaryEmail, all[j].tgID), true)
    {
      UserExistAfterSetTgID(all[j], before, g.primaryEmail, g.tgID);
      if j < |done| {
        assert all[j] == done[j];
      } else {
        assert all[j] == g;
      }
    }
  }

  /** The up-to-date branch of SyncUsers (the first match is already current): the unchanged table stays settled. */
  lemma SettleKeep(before: seq<TursoUser>, ts: seq<TursoUser>, done: seq<GoogleUser>, all: seq<GoogleUser>,
                   g: GoogleUser)
    requires Untouched(before, ts, done) && Current(before, done)
    requires forall j :: 0 <= j < |done| ==> done[j].primaryEmail != g.primaryEmail
    requires UserExistInTursoDB(g, ts) == (TursoUser(g.primaryEmail, g.tgID), true)
    requires all == done + [g]
    ensures Untouched(before, ts, all) && Current(before, all)
  {
    assert forall j :: 0 <= j < |done| ==> done[j] == all[j];
    assert all[|done|] == g;
  }

  /** One step of SyncSettles: from the first |gs| - 1 Google users to all of them. */
  lemma SettleLast(gs: seq<GoogleUser>, ts: seq<TursoUser>, faults: seq<bool>)
    requires |faults| == |gs| > 0
    requires !faults[|gs| - 1]
    requires forall j :: 0 <= j < |gs| - 1 ==> gs[j].primaryEmail != gs[|gs| - 1].primaryEmail
    requires Untouched(Applied(ts, gs[..|gs| - 1], ts, faults[..|gs| - 1]), ts, gs[..|gs| - 1])
    requires Current(Applied(ts, gs[..|gs| - 1], ts, faults[..|gs| - 1]), gs[..|gs| - 1])
    ensures Untouched(Applied(ts, gs, ts, faults), ts, gs)
    ensures Current(Applied(ts, gs, ts, faults), gs)
  {
    var n := |gs| - 1;
    var g := gs[n];
    var done := gs[..n];
    assert gs == done + [g];
    assert faults == faults[..n] + [faults[n]];
    forall j | 0 <= j < |done|
      ensures done[j].primaryEmail != g.primaryEmail
    {
      assert done[j] == gs[j];
    }
    var before := Applied(ts, done, ts, faults[..n]);
    var after := Applied(ts, gs, ts, faults);
    NextUser(ts, gs, ts, faults, n);
    UserExistInTursoDBFindsFirst(g, ts);
    var (tUser, exist) := UserExistInTursoDB(g, ts);
    if !exist {
      assert after == before + [TursoUser(g.primaryEmail, g.tgID)];
      SettleAppend(before, after, ts, done, gs, g);
    } else if g.tgID != tUser.tgID {
      assert after == SetTgID(before, g.primaryEmail, g.tgID);
      SettleUpdate(before, after, ts, done, gs, g);
    } else {
      assert after == before;
      SettleKeep(before, ts, done, gs, g);
    }
  }

  /**
   * After a sync without failures over Google users with distinct emails,
   * starting from the snapshot itself: every Google user is found at its
   * email with its own identifier, and every other email is found as before.
   */
  lemma {:induction false} SyncSettles(gs: seq<GoogleUser>, ts: seq<TursoUser>, faults: seq<bool>)
    requires |faults| == |gs|
    requires forall i :: 0 <= i < |faults| ==> !faults[i]
    requires forall i, j :: 0 <= i < j < |gs| ==> gs[i].primaryEmail != gs[j].primaryEmail
    ensures Untouched(Applied(ts, gs, ts, faults), ts, gs)
    ensures Current(Applied(ts, gs, ts, faults), gs)
  {
    if |gs| > 0 {
      var n := |gs| - 1;
      SyncSettles(gs[..n], ts, faults[..n]);
      SettleLast(gs, ts, faults);
    }
  }

  /**
   * Re-running is idempotent: after a sync in which every statement
   * succeeded, over Google users with distinct emails and starting from the
   * table the snapshot was read from, a second sync against the re-read table
   * finds everyone up to date, sends nothing and changes nothing.
   */
  lemma ResyncIsUpToDate(gs: seq<GoogleUser>, ts: seq<TursoUser>, faults: seq<bool>, faults2: seq<bool>)
    requires |faults| == |gs| && |faults2| == |gs|
    requires forall i :: 0 <= i < |faults| ==> !faults[i]
    requires forall i, j :: 0 <= i < j < |gs| ==> gs[i].primaryEmail != gs[j].primaryEmail
    ensures var after := Applied(ts, gs, ts, faults);
      Tally(gs, after, faults2) == Counts(0, 0, |gs|) &&
      Plan(gs, after) == [] &&
      Applied(after, gs, after, faults2) == after
  {
    var after := Applied(ts, gs, ts, faults);
    SyncSettles(gs, ts, faults);
    forall i | 0 <= i < |gs|
      ensures FirstMatchIsCurrent(gs[i], after)
    {
      UserExistInTursoDBFindsFirst(gs[i], after);
      FirstMatchExists(gs[i].primaryEmail, after);
      var k :| FirstMatch(gs[i].primaryEmail, after, k);
      assert after[k].tgID == gs[i].tgID;
    }
    NothingToDo(after, gs, after, faults2);
  }

  /**
   * A worked run: Google has a@x.com (1) and b@x.com (0), the table has
   * a@x.com (1). One insert, for b@x.com, is sent; the counters are
   * (0, 1, 1); the table gains b@x.com's row.
   */
  lemma WorkedExample()
    ensures var gs := [GoogleUser("a@x.com", 1), GoogleUser("b@x.com", 0)];
      var ts := [TursoUser("a@x.com", 1)];
      Tally(gs, ts, [false, false]) == Counts(0, 1, 1) &&
      Plan(gs, ts) == [AddUserCall(GoogleUser("b@x.com", 0))] &&
      Applied(ts, gs, ts, [false, false]) == [TursoUser("a@x.com", 1), TursoUser("b@x.com", 0)]
  {
  }

  /**
   * Why ResyncIsUpToDate asks for distinct emails: two Google users with the
   * same email and different identifiers are both inserted by the first run
   * (neither is in the snapshot), and the second run still updates, because
   * the search stops at the first of the two rows.
   */
  lemma DuplicateEmailsNeedAnotherRun()
    ensures var gs := [GoogleUser("a@x.com", 1), GoogleUser("a@x.com", 2)];
      var after := Applied([], gs, [], [false, false]);
      after == [TursoUser("a@x.com", 1), TursoUser("a@x.com", 2)] &&
      Tally(gs, after, [false, false]) == Counts(1, 0, 1)
  {
    var gs := [GoogleUser("a@x.com", 1), GoogleUser("a@x.com", 2)];
    assert [gs[0]] + [gs[1]] == gs;
    InsertOnMiss([], [], [], [], gs[0], false);
    InsertOnMiss([], [gs[0]], [], [false], gs[1], false);
    var after := [TursoUser("a@x.com", 1), TursoUser("a@x.com", 2)];
    assert FirstMatch("a@x.com", after, 0);
    NoOpOnMatch(after, [], after, [], gs[0], false, 0);
    UpdateOnMismatch(after, [gs[0]], after, [false], gs[1], false, 0);
  }
}
