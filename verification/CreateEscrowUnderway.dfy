/** Exactly when a call of CreateEscrow, wherever it stands, can still succeed. */
module CreateEscrowUnderway {
  import opened Common
  import opened CreateEscrow
  import opened CreateEscrowSteps
  import opened CreateEscrowRetries

  // ---- the condition

  ghost predicate RowRecoverable(s: State, r: RowId) {
    r in s.rows && Recoverable(s, r)
  }

  /** Where the call stands, it can still succeed. */
  ghost predicate Hopeful(s: State, call: Call) {
    match call.pc
    case LookingUp => forall r :: IsRowOf(s, r, call.intent) ==> Recoverable(s, r)
    case Inserting => forall r :: IsRowOf(s, r, call.intent) ==> Recoverable(s, r)
    case Rereading => forall r :: IsRowOf(s, r, call.intent) ==> Recoverable(s, r)
    case Deciding(r, seen) => ReportsRead(seen) || RowRecoverable(s, r)
    case Claiming(r) => RowRecoverable(s, r)
    case Yielding(r) => RowRecoverable(s, r)
    case Sending(_) => true
    case Unclaiming(_) => false
    case Persisting(r, hash, _) => r in s.rows && s.rows[r].status == Submitting && Confirmable(s, r, hash)
    case Awaiting(r, _) => RowRecoverable(s, r)
    case Finalizing(r, _) => RowRecoverable(s, r)
    case Reconciling(r) => RowRecoverable(s, r)
    case Succeeded(_, _) => true
    case Stopped => false
  }

  // ---- a caller rereads or reconciles only where there is a row for it

  ghost predicate PlaceOk(s: State, call: Call) {
    && (call.pc.Rereading? ==> exists r :: IsRowOf(s, r, call.intent))
    && (call.pc.Reconciling? ==> call.pc.row in s.rows && Finished(s.rows[call.pc.row]))
  }

  ghost predicate PlacesOk(s: State) {
    forall c :: c in s.calls ==> PlaceOk(s, s.calls[c])
  }

  lemma FinishedLasts(s: State, a: Action, r: RowId)
    requires Inv(s) && r in s.rows && Finished(s.rows[r])
    ensures r in Step(s, a).rows && Finished(Step(s, a).rows[r])
  {
    if a.Unclaim? { UnclaimSpares(s, a, r); } else { FinishedMoves(s, a, r); }
  }

  lemma PlaceLasts(s: State, a: Action, call: Call)
    requires Inv(s) && PlaceOk(s, call)
    ensures PlaceOk(Step(s, a), call)
  {
    if call.pc.Rereading? {
      var r :| IsRowOf(s, r, call.intent);
      IntentStays(s, a, r);
      assert IsRowOf(Step(s, a), r, call.intent);
    } else if call.pc.Reconciling? {
      FinishedLasts(s, a, call.pc.row);
    }
  }

  lemma RereadsAfterInsert(s: State, a: Action)
    requires !a.Index? && !a.Discover? && a.c in s.calls && a.c in CallStep(s, a).calls
    requires CallStep(s, a).calls[a.c].pc.Rereading? && !s.calls[a.c].pc.Rereading?
    ensures FindRow(s, s.calls[a.c].intent).Some? && CallStep(s, a).calls[a.c].intent == s.calls[a.c].intent
  {
  }

  lemma ReconcilesAfterFinalize(s: State, a: Action)
    requires !a.Index? && !a.Discover? && a.c in s.calls && a.c in CallStep(s, a).calls
    requires CallStep(s, a).calls[a.c].pc.Reconciling? && !s.calls[a.c].pc.Reconciling?
    ensures s.calls[a.c].pc.Finalizing? && CallStep(s, a).calls[a.c].pc.row == s.calls[a.c].pc.row
    ensures var r := s.calls[a.c].pc.row; r !in s.rows || s.rows[r].status != PendingConfirmation
  {
  }

  lemma ReachesPlace(s: State, a: Action)
    requires Inv(s) && !a.Index? && !a.Discover? && a.c in s.calls && a.c in CallStep(s, a).calls
    requires CallStep(s, a).calls[a.c].pc != s.calls[a.c].pc && PlaceOk(s, s.calls[a.c])
    ensures PlaceOk(s, CallStep(s, a).calls[a.c])
  {
    var before, after := s.calls[a.c], CallStep(s, a).calls[a.c];
    if after.pc.Rereading? && !before.pc.Rereading? {
      RereadsAfterInsert(s, a);
      assert IsRowOf(s, FindRow(s, before.intent).value, after.intent);
    } else if after.pc.Reconciling? && !before.pc.Reconciling? {
      ReconcilesAfterFinalize(s, a);
      assert CallOk(s, before) && RowOk(s, s.rows[before.pc.row]);
    } else if after.pc.Rereading? || after.pc.Reconciling? {
      StaysAtPlace(s, a);
    }
  }

  lemma StaysAtPlace(s: State, a: Action)
    requires !a.Index? && !a.Discover? && a.c in s.calls && a.c in CallStep(s, a).calls
    requires var before, after := s.calls[a.c].pc, CallStep(s, a).calls[a.c].pc;
      (after.Rereading? && before.Rereading?) || (after.Reconciling? && before.Reconciling?)
    ensures CallStep(s, a).calls[a.c].pc == s.calls[a.c].pc
  {
  }

  lemma StepKeepsPlaces(s: State, a: Action)
    requires Inv(s) && PlacesOk(s)
    ensures PlacesOk(Step(s, a))
  {
    var t := Step(s, a);
    forall c | c in t.calls ensures PlaceOk(t, t.calls[c]) {
      if c !in s.calls {
        NewCallClaimsNothing(s, a, c);
      } else if a.Index? || a.Discover? || a.c != c {
        OthersStay(s, a, c);
        PlaceLasts(s, a, s.calls[c]);
      } else {
        CallStepMoves(s, a);
        if t.calls[c].pc != s.calls[c].pc { ReachesPlace(s, a); }
        PlaceLasts(s, a, t.calls[c]);
      }
    }
  }

  lemma {:induction false} PlacesAlways(schedule: seq<Action>)
    ensures PlacesOk(Exec(Start, schedule))
  {
    if schedule != [] {
      PlacesAlways(schedule[..|schedule| - 1]);
      InvAlways(schedule[..|schedule| - 1]);
      StepKeepsPlaces(Exec(Start, schedule[..|schedule| - 1]), schedule[|schedule| - 1]);
    }
  }

  // ---- a call without hope stays without

  /** The call holds on to a hash that it cannot store any more, or has given up. */
  ghost predicate GivenUp(s: State, call: Call) {
    || call.pc.Stopped? || call.pc.Unclaiming?
    || (call.pc.Persisting? && !Hopeful(s, call))
  }

  ghost predicate OnBadRow(s: State, call: Call) {
    Barred(call.pc) && exists r :: IsRowOf(s, r, call.intent) && !Recoverable(s, r)
  }

  ghost predicate Doomed(s: State, call: Call) {
    GivenUp(s, call) || OnBadRow(s, call)
  }

  lemma HopelessIsDoomed(s: State, c: CallId)
    requires Inv(s) && c in s.calls
    ensures Hopeful(s, s.calls[c]) || Doomed(s, s.calls[c])
  {
    assert CallOk(s, s.calls[c]);
    var call := s.calls[c];
    if !Hopeful(s, call) && !GivenUp(s, call) {
      if call.pc.LookingUp? || call.pc.Inserting? || call.pc.Rereading? {
        var r :| IsRowOf(s, r, call.intent) && !Recoverable(s, r);
      } else {
        assert IsRowOf(s, call.pc.row, call.intent) && !Recoverable(s, call.pc.row);
      }
    }
  }

  lemma BadRowStays(s: State, a: Action, r: RowId, c: CallId)
    requires Inv(s) && c in s.calls && IsRowOf(s, r, s.calls[c].intent) && !Recoverable(s, r) && Barred(s.calls[c].pc)
    ensures c in Step(s, a).calls && OnBadRow(Step(s, a), Step(s, a).calls[c])
  {
    PastRecoveryStays(s, a, r);
    IntentStays(s, a, r);
    BarredStays(s, a, r, c);
    CallKeepsIntent(s, a, c);
    assert IsRowOf(Step(s, a), r, Step(s, a).calls[c].intent);
  }

  /** A row leaves "submitting" for good, but for the claimant's reset. */
  lemma NotSubmittingAgain(s: State, a: Action, r: RowId, c: CallId)
    requires Inv(s) && c in s.calls && s.calls[c].pc.Persisting? && s.calls[c].pc.row == r
    requires r in s.rows && s.rows[r].status != Submitting
    ensures r in Step(s, a).rows && Step(s, a).rows[r].status != Submitting
  {
    assert CallOk(s, s.calls[c]) && RowOk(s, s.rows[r]);
    if a.Unclaim? {
      UnclaimSpares(s, a, r);
    } else if s.rows[r].status == PendingConfirmation {
      ConfirmationMoves(s, a, r);
      FinalizedIsCreated(s, a, r);
    } else {
      FinishedMoves(s, a, r);
    }
  }

  lemma FinalizedIsCreated(s: State, a: Action, r: RowId)
    requires r in s.rows && s.rows[r].status == PendingConfirmation && r < s.nextRow && !a.Unclaim?
    ensures r in Step(s, a).rows && Step(s, a).rows[r].status != Submitting
  {
    if !WritesRow(a) { OnlyWritersWrite(s, a, r); }
  }

  lemma PersistingStays(s: State, a: Action, c: CallId)
    requires Inv(s) && c in s.calls && s.calls[c].pc.Persisting? && !Hopeful(s, s.calls[c])
    requires a.Index? || a.Discover? || a.c != c
    ensures c in Step(s, a).calls && GivenUp(Step(s, a), Step(s, a).calls[c])
  {
    var Persisting(r, hash, _) := s.calls[c].pc;
    OthersStay(s, a, c);
    assert CallOk(s, s.calls[c]);
    if s.rows[r].status == Submitting {
      UnconfirmableStays(s, a, r, hash);
    } else {
      NotSubmittingAgain(s, a, r, c);
    }
  }

  /** The caller's own next attempt. */
  lemma OwnAttempt(s: State, a: Action, c: CallId)
    requires Inv(s) && c in s.calls && s.calls[c].pc.Persisting? && !Hopeful(s, s.calls[c])
    requires !a.Index? && !a.Discover? && a.c == c
    ensures c in Step(s, a).calls && Doomed(Step(s, a), Step(s, a).calls[c])
  {
    var Persisting(r, hash, _) := s.calls[c].pc;
    assert CallOk(s, s.calls[c]);
    if a.Persist? {
      var t := Step(s, a);
      if s.rows[r].status == Submitting && t.calls[c].pc.Awaiting? {
        UnconfirmableStays(s, a, r, hash);
        assert IsRowOf(t, r, t.calls[c].intent) && !Recoverable(t, r);
      } else if s.rows[r].status == Submitting {
        UnconfirmableStays(s, a, r, hash);
      }
    }
  }

  lemma DoomedStays(s: State, a: Action, c: CallId)
    requires Inv(s) && c in s.calls && Doomed(s, s.calls[c])
    ensures c in Step(s, a).calls && Doomed(Step(s, a), Step(s, a).calls[c])
  {
    if OnBadRow(s, s.calls[c]) {
      var r :| IsRowOf(s, r, s.calls[c].intent) && !Recoverable(s, r);
      BadRowStays(s, a, r, c);
    } else if s.calls[c].pc.Persisting? {
      if a.Index? || a.Discover? || a.c != c { PersistingStays(s, a, c); } else { OwnAttempt(s, a, c); }
    } else if a.Index? || a.Discover? || a.c != c {
      OthersStay(s, a, c);
    } else {
      StoppedStays(s, a);
    }
  }

  lemma StoppedStays(s: State, a: Action)
    requires !a.Index? && !a.Discover? && a.c in s.calls && (s.calls[a.c].pc.Stopped? || s.calls[a.c].pc.Unclaiming?)
    ensures a.c in Step(s, a).calls
    ensures Step(s, a).calls[a.c].pc.Stopped? || Step(s, a).calls[a.c].pc.Unclaiming?
  {
  }

  lemma {:induction false} DoomedForever(s: State, more: seq<Action>, c: CallId)
    requires Inv(s) && c in s.calls && Doomed(s, s.calls[c])
    ensures var t := Exec(s, more); Inv(t) && c in t.calls && Doomed(t, t.calls[c])
  {
    if more != [] {
      DoomedForever(s, more[..|more| - 1], c);
      StepKeepsInv(Exec(s, more[..|more| - 1]), more[|more| - 1]);
      DoomedStays(Exec(s, more[..|more| - 1]), more[|more| - 1], c);
    }
  }

  // ---- and a call with hope can succeed

  lemma FindsOvertaken(s: State, c: CallId, r: RowId, result: Result)
    requires c in s.calls && s.calls[c].pc == Finalizing(r, result) && r in s.rows && s.rows[r].status == Created
    ensures Step(s, Finalize(c, true, Applied)) == Goto(s, c, Reconciling(r))
  {
  }

  /** An overtaken caller reports what is stored. */
  lemma ReportsStored(s: State, c: CallId, r: RowId)
    requires c in s.calls && s.calls[c].pc == Reconciling(r) && r in s.rows && ReportsRead(s.rows[r])
    ensures var row := s.rows[r];
      Step(s, Reconcile(c, true)) == Goto(s, c, Succeeded(r, Result(row.hash, row.address.value, row.escrowId)))
  {
  }

  lemma FromReconciling(s: State, c: CallId, r: RowId) returns (t: State)
    requires Inv(s) && c in s.calls && s.calls[c].pc == Reconciling(r)
    requires r in s.rows && s.rows[r].status == Created && s.rows[r].escrowId > 0
    ensures Reaches(s, t) && Succeeds(t, c, s.calls[c].intent)
  {
    assert RowOk(s, s.rows[r]);
    var row := s.rows[r];
    t := Goto(s, c, Succeeded(r, Result(row.hash, row.address.value, row.escrowId)));
    ReportsStored(s, c, r);
    Take(s, Reconcile(c, true), t);
  }

  /** A row that a caller knows the hash of has been confirmed or waits for it. */
  lemma HashMeansSent(s: State, r: RowId, hash: Hash)
    requires Inv(s) && r in s.rows && ConfirmedBy(s, s.rows[r], hash) && Recoverable(s, r)
    ensures s.rows[r].status == PendingConfirmation || s.rows[r].status == Created
    ensures hash in s.chain && s.chain[hash].receipt.Mined?
    ensures s.rows[r].status == PendingConfirmation ==> !Taken(s, r, s.chain[hash].receipt.address)
  {
    assert RowOk(s, s.rows[r]);
  }

  lemma FromFinalizing(s: State, c: CallId, r: RowId, result: Result) returns (t: State)
    requires Inv(s) && c in s.calls && s.calls[c].pc == Finalizing(r, result) && RowRecoverable(s, r)
    ensures Reaches(s, t) && Succeeds(t, c, s.calls[c].intent)
  {
    assert CallOk(s, s.calls[c]);
    HashMeansSent(s, r, result.hash);
    if s.rows[r].status == PendingConfirmation {
      FinalizeSucceeds(s, c, r, result);
      t := Step(s, Finalize(c, true, Applied));
      Take(s, Finalize(c, true, Applied), t);
    } else {
      var overtaken := Goto(s, c, Reconciling(r));
      FindsOvertaken(s, c, r, result);
      Take(s, Finalize(c, true, Applied), overtaken);
      t := FromReconciling(overtaken, c, r);
      ReachesOn(s, overtaken, t);
    }
  }

  lemma MoveKeepsRow(s: State, c: CallId, pc: Pc, r: RowId)
    requires c in s.calls && r in s.rows && s.rows[r].status != Submitting
    ensures Recoverable(Goto(s, c, pc), r) <==> Recoverable(s, r)
  {
    forall address ensures Taken(Goto(s, c, pc), r, address) <==> Taken(s, r, address) {}
  }

  lemma FromWaiting(s: State, c: CallId, r: RowId, hash: Hash) returns (t: State)
    requires Inv(s) && c in s.calls && s.calls[c].pc == Awaiting(r, hash) && RowRecoverable(s, r)
    ensures Reaches(s, t) && Succeeds(t, c, s.calls[c].intent)
  {
    assert CallOk(s, s.calls[c]);
    HashMeansSent(s, r, hash);
    var receipt := s.chain[hash].receipt;
    var next := Finalizing(r, Result(hash, receipt.address, receipt.escrowId));
    ReceiptArrives(s, c, r, hash);
    Take(s, Await(c, true), Goto(s, c, next));
    MoveKeepsRow(s, c, next, r);
    t := FromFinalizing(Goto(s, c, next), c, r, next.result);
    ReachesOn(s, Goto(s, c, next), t);
  }

  lemma YieldsToHash(s: State, c: CallId, r: RowId)
    requires c in s.calls && s.calls[c].pc == Yielding(r) && r in s.rows && s.rows[r].hash != ""
    ensures Step(s, Yield(c, true)) == Goto(s, c, Awaiting(r, s.rows[r].hash))
  {
  }

  lemma FromYieldingStored(s: State, c: CallId, r: RowId) returns (t: State)
    requires Inv(s) && c in s.calls && s.calls[c].pc == Yielding(r) && RowRecoverable(s, r)
    requires s.rows[r].status == PendingConfirmation || s.rows[r].status == Created
    ensures Reaches(s, t) && Succeeds(t, c, s.calls[c].intent)
  {
    assert RowOk(s, s.rows[r]);
    var next := Awaiting(r, s.rows[r].hash);
    YieldsToHash(s, c, r);
    Take(s, Yield(c, true), Goto(s, c, next));
    MoveKeepsRow(s, c, next, r);
    t := FromWaiting(Goto(s, c, next), c, r, next.hash);
    ReachesOn(s, Goto(s, c, next), t);
  }

  // ---- bringing a row on by its claimant or by a new call

  /** The row waits for a confirmation that can come, and call c has not moved. */
  ghost predicate BroughtOn(s: State, t: State, r: RowId, c: CallId) {
    && Inv(t) && Reaches(s, t) && c in s.calls && c in t.calls && t.calls[c] == s.calls[c]
    && r in t.rows && t.rows[r].status == PendingConfirmation && Confirmable(t, r, t.rows[r].hash)
  }

  lemma {:induction false} UnusedCall(used: set<CallId>) returns (c: CallId)
    ensures forall d :: d in used ==> d < c
    decreases used
  {
    if used == {} {
      c := 0;
    } else {
      var d :| d in used;
      var rest := UnusedCall(used - {d});
      c := if d < rest then rest else d + 1;
      assert forall e :: e in used ==> e == d || e in used - {d};
    }
  }

  lemma StoringBringsOn(s: State, r: RowId, d: CallId, hash: Hash, c: CallId) returns (t: State)
    requires Inv(s) && c in s.calls && d in s.calls && c != d
    requires s.calls[d].pc.Persisting? && s.calls[d].pc.row == r && s.calls[d].pc.hash == hash
    requires r in s.rows && s.rows[r].status == Submitting && Confirmable(s, r, hash)
    ensures BroughtOn(s, t, r, c)
  {
    t := FromPersisting(s, d, r, hash);
  }

  lemma SendingBringsOn(s: State, r: RowId, d: CallId, c: CallId) returns (t: State)
    requires Inv(s) && c in s.calls && d in s.calls && c != d
    requires s.calls[d].pc == Sending(r) && r in s.rows && s.rows[r].status == Submitting
    ensures BroughtOn(s, t, r, c)
  {
    var sent, hash := FromSending(s, d, r);
    t := StoringBringsOn(sent, r, d, hash, c);
    ReachesOn(s, sent, t);
  }

  /** A new call reads the pending row, claims it, sends, and stores the hash. */
  lemma PendingIsBroughtOn(s: State, r: RowId, c: CallId) returns (t: State)
    requires Inv(s) && c in s.calls && r in s.rows && s.rows[r].status == Pending
    ensures BroughtOn(s, t, r, c)
  {
    assert RowOk(s, s.rows[r]);
    var d := UnusedCall(s.calls.Keys);
    var read := ArriveAndRead(s, d, r);
    var deciding := Goto(read, d, Claiming(r));
    GoesToClaim(read, d, r, s.rows[r]);
    Take(read, Decide(d), deciding);
    ReachesOn(s, read, deciding);
    var claimed := Goto(Write(deciding, r, s.rows[r].(status := Submitting)), d, Sending(r));
    TakesClaim(deciding, d, r);
    Take(deciding, Claim(d, Applied), claimed);
    ReachesOn(s, deciding, claimed);
    t := SendingBringsOn(claimed, r, d, c);
    ReachesOn(s, claimed, t);
  }

  lemma ResettingBringsOn(s: State, r: RowId, d: CallId, c: CallId) returns (t: State)
    requires Inv(s) && c in s.calls && d in s.calls && c != d && s.calls[d].pc == Unclaiming(r) && r in s.rows
    ensures BroughtOn(s, t, r, c)
  {
    var reset := Goto(Write(s, r, s.rows[r].(status := Pending)), d, Stopped);
    ResetsClaim(s, d, r);
    Take(s, Unclaim(d, Applied), reset);
    t := PendingIsBroughtOn(reset, r, c);
    ReachesOn(s, reset, t);
  }

  lemma BringsOn(s: State, r: RowId, c: CallId) returns (t: State)
    requires Inv(s) && c in s.calls && RowRecoverable(s, r) && !Claims(s.calls[c].pc, r)
    requires s.rows[r].status == Pending || s.rows[r].status == Submitting
    ensures BroughtOn(s, t, r, c)
  {
    if s.rows[r].status == Pending {
      t := PendingIsBroughtOn(s, r, c);
    } else {
      var d :| ClaimAlive(s, r, d);
      if s.calls[d].pc.Unclaiming? {
        t := ResettingBringsOn(s, r, d, c);
      } else if s.calls[d].pc.Sending? {
        t := SendingBringsOn(s, r, d, c);
      } else {
        t := StoringBringsOn(s, r, d, s.calls[d].pc.hash, c);
      }
    }
  }

  lemma FromYielding(s: State, c: CallId, r: RowId) returns (t: State)
    requires Inv(s) && c in s.calls && s.calls[c].pc == Yielding(r) && RowRecoverable(s, r)
    ensures Reaches(s, t) && Succeeds(t, c, s.calls[c].intent)
  {
    if s.rows[r].status == Pending || s.rows[r].status == Submitting {
      var on := BringsOn(s, r, c);
      t := FromYieldingStored(on, c, r);
      ReachesOn(s, on, t);
    } else {
      t := FromYieldingStored(s, c, r);
    }
  }

  lemma LosesClaim(s: State, c: CallId, r: RowId)
    requires c in s.calls && s.calls[c].pc == Claiming(r) && r in s.rows && s.rows[r].status != Pending
    ensures Step(s, Claim(c, Applied)) == Goto(s, c, Yielding(r))
  {
  }

  /** The row is past claiming: the caller yields to whoever stored its hash. */
  lemma FromLostClaim(s: State, c: CallId, r: RowId) returns (t: State)
    requires Inv(s) && c in s.calls && s.calls[c].pc == Claiming(r) && RowRecoverable(s, r)
    requires s.rows[r].status == PendingConfirmation || s.rows[r].status == Created
    ensures Reaches(s, t) && Succeeds(t, c, s.calls[c].intent)
  {
    LosesClaim(s, c, r);
    Take(s, Claim(c, Applied), Goto(s, c, Yielding(r)));
    MoveKeepsRow(s, c, Yielding(r), r);
    t := FromYieldingStored(Goto(s, c, Yielding(r)), c, r);
    ReachesOn(s, Goto(s, c, Yielding(r)), t);
  }

  lemma FromClaiming(s: State, c: CallId, r: RowId) returns (t: State)
    requires Inv(s) && c in s.calls && s.calls[c].pc == Claiming(r) && RowRecoverable(s, r)
    ensures Reaches(s, t) && Succeeds(t, c, s.calls[c].intent)
  {
    if s.rows[r].status == Pending {
      var claimed := Goto(Write(s, r, s.rows[r].(status := Submitting)), c, Sending(r));
      TakesClaim(s, c, r);
      Take(s, Claim(c, Applied), claimed);
      t := FromSendingOn(claimed, c, r);
      ReachesOn(s, claimed, t);
    } else if s.rows[r].status == Submitting {
      var on := BringsOn(s, r, c);
      t := FromLostClaim(on, c, r);
      ReachesOn(s, on, t);
    } else {
      t := FromLostClaim(s, c, r);
    }
  }

  // ---- reading the row

  lemma MoveKeepsClaims(s: State, c: CallId, pc: Pc, r: RowId)
    requires c in s.calls && r in s.rows && !Claims(s.calls[c].pc, r) && Recoverable(s, r)
    ensures Recoverable(Goto(s, c, pc), r)
  {
    var t := Goto(s, c, pc);
    forall address ensures Taken(t, r, address) <==> Taken(s, r, address) {}
    if s.rows[r].status == Submitting {
      var d :| ClaimAlive(s, r, d);
      assert ClaimAlive(t, r, d);
    }
  }

  lemma FromDeciding(s: State, c: CallId, r: RowId, seen: Row) returns (t: State)
    requires Inv(s) && c in s.calls && s.calls[c].pc == Deciding(r, seen) && (ReportsRead(seen) || RowRecoverable(s, r))
    ensures Reaches(s, t) && Succeeds(t, c, s.calls[c].intent)
  {
    if ReportsRead(seen) {
      t := Goto(s, c, Succeeded(r, Result(seen.hash, seen.address.value, seen.escrowId)));
      ReportsSeen(s, c, r, seen);
      Take(s, Decide(c), t);
    } else if seen.hash != "" {
      var waiting := Goto(s, c, Awaiting(r, seen.hash));
      WaitsForSeen(s, c, r, seen);
      Take(s, Decide(c), waiting);
      MoveKeepsClaims(s, c, Awaiting(r, seen.hash), r);
      t := FromWaiting(waiting, c, r, seen.hash);
      ReachesOn(s, waiting, t);
    } else {
      var claiming := Goto(s, c, Claiming(r));
      GoesToClaim(s, c, r, seen);
      Take(s, Decide(c), claiming);
      MoveKeepsClaims(s, c, Claiming(r), r);
      t := FromClaiming(claiming, c, r);
      ReachesOn(s, claiming, t);
    }
  }

  lemma RereadsRow(s: State, c: CallId, r: RowId)
    requires c in s.calls && s.calls[c].pc.Rereading? && r in s.rows && FindRow(s, s.calls[c].intent) == Some(r)
    ensures Step(s, Reread(c, true)) == Goto(s, c, Deciding(r, s.rows[r]))
  {
  }

  /** The call reads its row, now or after its insert was refused, and goes on. */
  lemma FromReading(s: State, c: CallId, r: RowId) returns (t: State)
    requires Inv(s) && c in s.calls && (s.calls[c].pc.LookingUp? || s.calls[c].pc.Rereading?)
    requires IsRowOf(s, r, s.calls[c].intent) && Recoverable(s, r)
    ensures Reaches(s, t) && Succeeds(t, c, s.calls[c].intent)
  {
    var read := Goto(s, c, Deciding(r, s.rows[r]));
    FindsRow(s, r);
    if s.calls[c].pc.LookingUp? {
      Reads(s, c, r);
      Take(s, LookUp(c, true), read);
    } else {
      RereadsRow(s, c, r);
      Take(s, Reread(c, true), read);
    }
    MoveKeepsClaims(s, c, Deciding(r, s.rows[r]), r);
    t := FromDeciding(read, c, r, s.rows[r]);
    ReachesOn(s, read, t);
  }

  lemma InsertFindsRow(s: State, c: CallId, r: RowId)
    requires c in s.calls && s.calls[c].pc.Inserting? && FindRow(s, s.calls[c].intent) == Some(r)
    ensures Step(s, Insert(c, Applied)) == Goto(s, c, Rereading)
  {
  }

  lemma FromInserting(s: State, c: CallId) returns (t: State)
    requires Inv(s) && c in s.calls && s.calls[c].pc.Inserting?
    requires forall r :: IsRowOf(s, r, s.calls[c].intent) ==> Recoverable(s, r)
    ensures Reaches(s, t) && Succeeds(t, c, s.calls[c].intent)
  {
    var intent := s.calls[c].intent;
    if r :| IsRowOf(s, r, intent) {
      FindsRow(s, r);
      InsertFindsRow(s, c, r);
      Take(s, Insert(c, Applied), Goto(s, c, Rereading));
      MoveKeepsClaims(s, c, Rereading, r);
      assert IsRowOf(Goto(s, c, Rereading), r, intent);
      t := FromReading(Goto(s, c, Rereading), c, r);
      ReachesOn(s, Goto(s, c, Rereading), t);
    } else {
      var row := Row(intent, Pending, "", None, 0, []);
      var inserted := Goto(Write(s, s.nextRow, row).(nextRow := s.nextRow + 1), c, Deciding(s.nextRow, row));
      Inserts(s, c);
      Take(s, Insert(c, Applied), inserted);
      t := FromDecidingPending(inserted, c, s.nextRow);
      ReachesOn(s, inserted, t);
    }
  }

  lemma FromLookingUp(s: State, c: CallId) returns (t: State)
    requires Inv(s) && c in s.calls && s.calls[c].pc.LookingUp?
    requires forall r :: IsRowOf(s, r, s.calls[c].intent) ==> Recoverable(s, r)
    ensures Reaches(s, t) && Succeeds(t, c, s.calls[c].intent)
  {
    var intent := s.calls[c].intent;
    if r :| IsRowOf(s, r, intent) {
      t := FromReading(s, c, r);
    } else {
      FindsNone(s, c);
      Take(s, LookUp(c, true), Goto(s, c, Inserting));
      SameRowsSameIntents(s, Goto(s, c, Inserting), intent);
      t := FromInserting(Goto(s, c, Inserting), c);
      ReachesOn(s, Goto(s, c, Inserting), t);
    }
  }

  lemma FromStoringOwn(s: State, c: CallId, r: RowId, hash: Hash) returns (t: State)
    requires Inv(s) && c in s.calls && s.calls[c].pc.Persisting?
    requires s.calls[c].pc.row == r && s.calls[c].pc.hash == hash && Hopeful(s, s.calls[c])
    ensures Reaches(s, t) && Succeeds(t, c, s.calls[c].intent)
  {
    var stored := FromPersisting(s, c, r, hash);
    t := FromAwaiting(stored, c, r, hash);
    ReachesOn(s, stored, t);
  }

  lemma HopefulCanSucceed(s: State, c: CallId) returns (t: State)
    requires Inv(s) && PlacesOk(s) && c in s.calls && Hopeful(s, s.calls[c])
    ensures Reaches(s, t) && Succeeds(t, c, s.calls[c].intent)
  {
    assert PlaceOk(s, s.calls[c]) && CallOk(s, s.calls[c]);
    match s.calls[c].pc
    case LookingUp => t := FromLookingUp(s, c);
    case Inserting => t := FromInserting(s, c);
    case Rereading =>
      var r :| IsRowOf(s, r, s.calls[c].intent);
      t := FromReading(s, c, r);
    case Deciding(r, seen) => t := FromDeciding(s, c, r, seen);
    case Claiming(r) => t := FromClaiming(s, c, r);
    case Yielding(r) => t := FromYielding(s, c, r);
    case Sending(r) => t := FromSendingOn(s, c, r);
    case Persisting(r, hash, _) => t := FromStoringOwn(s, c, r, hash);
    case Awaiting(r, hash) => t := FromWaiting(s, c, r, hash);
    case Finalizing(r, result) => t := FromFinalizing(s, c, r, result);
    case Reconciling(r) => t := FromReconciling(s, c, r);
    case Succeeded(_, _) =>
      t := s;
      ReachesItself(s);
  }

  // ---- exactly when

  /** In every reachable state a call under way can still succeed exactly where it stands in hope: it has read a
      finished row; or it is about to send; or it holds the hash of a transaction that can be finalized and its row is
      still being submitted, whichever attempt to store it is next; or it has succeeded; or, anywhere else before the
      end, its row can still be brought to success. A call that gives its claim back cannot. */
  lemma UnderwayCanSucceedExactly(schedule: seq<Action>, c: CallId)
    requires c in Exec(Start, schedule).calls
    ensures var s := Exec(Start, schedule); CanSucceed(s, c, s.calls[c].intent) <==> Hopeful(s, s.calls[c])
  {
    InvAlways(schedule);
    PlacesAlways(schedule);
    var s := Exec(Start, schedule);
    var intent := s.calls[c].intent;
    if Hopeful(s, s.calls[c]) {
      var t := HopefulCanSucceed(s, c);
      var more :| Exec(s, more) == t;
      assert Succeeds(Exec(s, more), c, intent);
    } else {
      HopelessIsDoomed(s, c);
      forall more ensures !Succeeds(Exec(s, more), c, intent) { DoomedForever(s, more, c); }
    }
  }

  /** In every reachable state a new call for an intent can still succeed exactly when the intent has no row
      yet, or its row is pending, or claimed by a caller that has not stored the hash of a transaction that
      cannot be confirmed, or waits for a transaction that was mined and whose address no other row has, or
      is created and has its chain id. */
  lemma RetryCanSucceedExactly(schedule: seq<Action>, c: CallId, intent: Intent)
    requires c !in Exec(Start, schedule).calls
    ensures var s := Exec(Start, schedule);
      CanSucceed(s, c, intent) <==> forall r :: IsRowOf(s, r, intent) ==> Recoverable(s, r)
  {
    InvAlways(schedule);
    var s := Exec(Start, schedule);
    if r :| IsRowOf(s, r, intent) && !Recoverable(s, r) {
      forall more ensures !Succeeds(Exec(s, more), c, intent) {
        HopelessForever(s, more, r, intent, c);
      }
    } else {
      var arrived := s.(calls := s.calls[c := Call(intent, LookingUp)]);
      Arrives(s, c, intent);
      Take(s, Arrive(c, intent), arrived);
      ArrivalKeepsRows(s, c, intent);
      var t := FromLookingUp(arrived, c);
      ReachesOn(s, arrived, t);
      var more :| Exec(s, more) == t;
      assert Succeeds(Exec(s, more), c, intent);
    }
  }

  lemma ArrivalKeepsRows(s: State, c: CallId, intent: Intent)
    requires c !in s.calls && forall r :: IsRowOf(s, r, intent) ==> Recoverable(s, r)
    ensures var t := s.(calls := s.calls[c := Call(intent, LookingUp)]);
      forall r :: IsRowOf(t, r, intent) ==> Recoverable(t, r)
  {
    var t := s.(calls := s.calls[c := Call(intent, LookingUp)]);
    forall r | IsRowOf(t, r, intent) ensures Recoverable(t, r) {
      assert IsRowOf(s, r, intent);
      forall address ensures Taken(t, r, address) <==> Taken(s, r, address) {}
      if s.rows[r].status == Submitting {
        var d :| ClaimAlive(s, r, d);
        assert ClaimAlive(t, r, d);
      }
    }
  }

  /** A caller that is overtaken between its receipt and its finalizing transaction finds the row created and, if
      that has its chain id, reports exactly what is stored. */
  lemma OvertakenReportsStored(schedule: seq<Action>, c: CallId)
    requires var s := Exec(Start, schedule);
      && c in s.calls && s.calls[c].pc.Finalizing?
      && s.calls[c].pc.row in s.rows && s.rows[s.calls[c].pc.row].status == Created
      && s.rows[s.calls[c].pc.row].escrowId > 0
    ensures var s := Exec(Start, schedule); var row := s.rows[s.calls[c].pc.row];
      var t := Step(Step(s, Finalize(c, true, Applied)), Reconcile(c, true));
      && row.address.Some? && c in t.calls && t.rows == s.rows
      && t.calls[c].pc == Succeeded(s.calls[c].pc.row, Result(row.hash, row.address.value, row.escrowId))
  {
    InvAlways(schedule);
    var s := Exec(Start, schedule);
    var r := s.calls[c].pc.row;
    assert RowOk(s, s.rows[r]);
    FindsOvertaken(s, c, r, s.calls[c].pc.result);
    ReportsStored(Goto(s, c, Reconciling(r)), c, r);
  }
}
