/** Which rows of CreateEscrow can still be brought to success: those past recovery stay so, and the steps that
    lead on from the others. */
module CreateEscrowRetries {
  import opened Common
  import opened CreateEscrow
  import opened CreateEscrowSteps

  // ---- the condition

  /** The transaction with the hash can finalize row r: it was mined, and no other row has its address. */
  ghost predicate Confirmable(s: State, r: RowId, hash: Hash) {
    hash in s.chain && s.chain[hash].receipt.Mined? && !Taken(s, r, s.chain[hash].receipt.address)
  }

  /** The claimant can still bring the row on. */
  ghost predicate ClaimAlive(s: State, r: RowId, c: CallId) {
    c in s.calls && Claims(s.calls[c].pc, r)
    && (s.calls[c].pc.Persisting? ==> Confirmable(s, r, s.calls[c].pc.hash))
  }

  ghost predicate Recoverable(s: State, r: RowId)
    requires r in s.rows
  {
    match s.rows[r].status
    case Pending => true
    case Submitting => exists c :: ClaimAlive(s, r, c)
    case PendingConfirmation => Confirmable(s, r, s.rows[r].hash)
    case Created => s.rows[r].escrowId > 0
    case Later => false
  }

  // ---- a row that is past recovery stays so

  lemma RowKeepsAddress(s: State, a: Action, q: RowId)
    requires Inv(s) && q in s.rows && s.rows[q].address.Some?
    ensures q in Step(s, a).rows && Step(s, a).rows[q].address == s.rows[q].address
  {
    assert RowOk(s, s.rows[q]);
    if a.Unclaim? { UnclaimSpares(s, a, q); } else { FinishedMoves(s, a, q); }
  }

  lemma IndexedGrows(s: State, a: Action)
    ensures s.indexed <= Step(s, a).indexed
  {
  }

  lemma TakenStays(s: State, a: Action, r: RowId, address: Address)
    requires Inv(s) && Taken(s, r, address)
    ensures Taken(Step(s, a), r, address)
  {
    IndexedGrows(s, a);
    if address !in s.indexed {
      var q :| q in s.rows && q != r && s.rows[q].address == Some(address);
      RowKeepsAddress(s, a, q);
    }
  }

  lemma ChainStays(s: State, a: Action, hash: Hash)
    requires hash in s.chain
    ensures hash in Step(s, a).chain && Step(s, a).chain[hash] == s.chain[hash]
  {
  }

  lemma UnconfirmableStays(s: State, a: Action, r: RowId, hash: Hash)
    requires Inv(s) && hash in s.chain && !Confirmable(s, r, hash)
    ensures !Confirmable(Step(s, a), r, hash)
  {
    ChainStays(s, a, hash);
    if s.chain[hash].receipt.Mined? { TakenStays(s, a, r, s.chain[hash].receipt.address); }
  }

  lemma DeadClaimsStayDead(s: State, a: Action, r: RowId, c: CallId)
    requires Inv(s) && r in s.rows && s.rows[r].status == Submitting && !Recoverable(s, r)
    ensures !ClaimAlive(Step(s, a), r, c)
  {
    var t := Step(s, a);
    if c in t.calls && Claims(t.calls[c].pc, r) {
      NewClaimNeedsPending(s, a, c, r);
      assert !ClaimAlive(s, r, c);
      assert CallOk(s, s.calls[c]);
      UnconfirmableStays(s, a, r, s.calls[c].pc.hash);
    }
  }

  lemma AbandonedStaysPast(s: State, a: Action, r: RowId)
    requires Inv(s) && r in s.rows && s.rows[r].status == Submitting && !Recoverable(s, r)
    ensures r in Step(s, a).rows && !Recoverable(Step(s, a), r) && !Finished(Step(s, a).rows[r])
  {
    SubmittingMoves(s, a, r);
    var t := Step(s, a);
    if t.rows[r] == s.rows[r] {
      forall c ensures !ClaimAlive(t, r, c) { DeadClaimsStayDead(s, a, r, c); }
    } else {
      assert !ClaimAlive(s, r, a.c) && CallOk(s, s.calls[a.c]);
      UnconfirmableStays(s, a, r, s.calls[a.c].pc.hash);
    }
  }

  lemma UnconfirmedStaysPast(s: State, a: Action, r: RowId)
    requires Inv(s) && r in s.rows && s.rows[r].status == PendingConfirmation && !Recoverable(s, r)
    ensures r in Step(s, a).rows && Step(s, a).rows[r] == s.rows[r] && !Recoverable(Step(s, a), r)
  {
    assert RowOk(s, s.rows[r]);
    UnconfirmableStays(s, a, r, s.rows[r].hash);
    if a.Unclaim? {
      UnclaimSpares(s, a, r);
    } else {
      ConfirmationMoves(s, a, r);
      if !a.Index? && !a.Discover? && a.c in s.calls { assert CallOk(s, s.calls[a.c]); }
    }
  }

  lemma FinishedStaysPast(s: State, a: Action, r: RowId)
    requires Inv(s) && r in s.rows && Finished(s.rows[r]) && !Recoverable(s, r)
    ensures r in Step(s, a).rows && !Recoverable(Step(s, a), r)
  {
    if a.Unclaim? { UnclaimSpares(s, a, r); } else { FinishedMoves(s, a, r); }
  }

  lemma PastRecoveryStays(s: State, a: Action, r: RowId)
    requires Inv(s) && r in s.rows && !Recoverable(s, r)
    ensures r in Step(s, a).rows && !Recoverable(Step(s, a), r)
    ensures !Finished(s.rows[r]) ==> !Finished(Step(s, a).rows[r])
  {
    match s.rows[r].status
    case Submitting => AbandonedStaysPast(s, a, r);
    case PendingConfirmation => UnconfirmedStaysPast(s, a, r);
    case _ => FinishedStaysPast(s, a, r);
  }

  // ---- and no new call succeeds on it

  /** What a call that arrived afterwards can be doing. */
  ghost predicate Barred(pc: Pc) {
    match pc
    case Deciding(_, seen) => !(seen.status == Created && seen.address.Some? && seen.escrowId > 0)
    case Sending(_) => false
    case Unclaiming(_) => false
    case Persisting(_, _, _) => false
    case Succeeded(_, _) => false
    case _ => true
  }

  lemma BarredReads(s: State, a: Action, r: RowId)
    requires Inv(s) && r in s.rows && !Recoverable(s, r) && (a.LookUp? || a.Insert? || a.Reread?) && a.c in s.calls
    requires s.calls[a.c].intent == s.rows[r].intent && Barred(s.calls[a.c].pc)
    ensures Barred(CallStep(s, a).calls[a.c].pc)
  {
    assert RowOk(s, s.rows[r]) && IsRowOf(s, r, s.calls[a.c].intent);
    assert FindRow(s, s.calls[a.c].intent) == Some(r);
  }

  lemma BarredDecides(s: State, c: CallId)
    requires c in s.calls && s.calls[c].pc.Deciding? && Barred(s.calls[c].pc)
    ensures Barred(DecideStep(s, c).calls[c].pc)
  {
  }

  lemma BarredClaims(s: State, c: CallId, reply: DbReply, r: RowId)
    requires c in s.calls && s.calls[c].pc.Claiming? && s.calls[c].pc.row == r
    requires r in s.rows && s.rows[r].status != Pending
    ensures Barred(ClaimStep(s, c, reply).calls[c].pc)
  {
  }

  lemma BarredFinalizes(s: State, c: CallId, inserted: bool, reply: DbReply, r: RowId)
    requires CallsOk(s) && c in s.calls && s.calls[c].pc.Finalizing? && s.calls[c].pc.row == r
    requires r in s.rows && !Recoverable(s, r)
    ensures Barred(FinalizeStep(s, c, inserted, reply).calls[c].pc)
  {
    assert CallOk(s, s.calls[c]);
  }

  lemma BarredReconciles(s: State, c: CallId, readable: bool, r: RowId)
    requires c in s.calls && s.calls[c].pc.Reconciling? && s.calls[c].pc.row == r && r in s.rows && !Recoverable(s, r)
    ensures Barred(ReconcileStep(s, c, readable).calls[c].pc)
  {
  }

  /** The other steps succeed or claim only from where a barred call is not. */
  lemma BarredGoesOn(s: State, a: Action)
    requires !a.Index? && !a.Discover? && a.c in s.calls && Barred(s.calls[a.c].pc)
    requires !a.LookUp? && !a.Insert? && !a.Reread? && !a.Decide? && !a.Claim? && !a.Finalize? && !a.Reconcile?
    ensures a.c in CallStep(s, a).calls && Barred(CallStep(s, a).calls[a.c].pc)
  {
  }

  lemma BarredMoves(s: State, a: Action, r: RowId)
    requires Inv(s) && r in s.rows && !Recoverable(s, r) && !a.Index? && !a.Discover? && a.c in s.calls
    requires !a.LookUp? && !a.Insert? && !a.Reread?
    requires s.calls[a.c].intent == s.rows[r].intent && Barred(s.calls[a.c].pc)
    ensures a.c in CallStep(s, a).calls && Barred(CallStep(s, a).calls[a.c].pc)
  {
    assert CallOk(s, s.calls[a.c]);
    match a
    case Decide(c) => if s.calls[c].pc.Deciding? { BarredDecides(s, c); }
    case Claim(c, reply) => if s.calls[c].pc.Claiming? { BarredClaims(s, c, reply, r); }
    case Finalize(c, inserted, reply) => if s.calls[c].pc.Finalizing? { BarredFinalizes(s, c, inserted, reply, r); }
    case Reconcile(c, readable) => if s.calls[c].pc.Reconciling? { BarredReconciles(s, c, readable, r); }
    case _ => BarredGoesOn(s, a);
  }

  lemma BarredStays(s: State, a: Action, r: RowId, c: CallId)
    requires Inv(s) && r in s.rows && !Recoverable(s, r)
    requires c in s.calls && s.calls[c].intent == s.rows[r].intent && Barred(s.calls[c].pc)
    ensures c in Step(s, a).calls && Barred(Step(s, a).calls[c].pc)
  {
    if a.Index? || a.Discover? || a.c != c {
      OthersStay(s, a, c);
    } else if a.LookUp? || a.Insert? || a.Reread? {
      BarredReads(s, a, r);
    } else {
      BarredMoves(s, a, r);
    }
  }

  /** Row r of the intent is past recovery, and call c, if it has arrived with that intent, is barred. */
  ghost predicate Hopeless(s: State, r: RowId, intent: Intent, c: CallId) {
    && Inv(s) && r in s.rows && s.rows[r].intent == intent && !Recoverable(s, r)
    && (c in s.calls && s.calls[c].intent == intent ==> Barred(s.calls[c].pc))
  }

  lemma HopelessStays(s: State, a: Action, r: RowId, intent: Intent, c: CallId)
    requires Hopeless(s, r, intent, c)
    ensures Hopeless(Step(s, a), r, intent, c)
  {
    StepKeepsInv(s, a);
    PastRecoveryStays(s, a, r);
    IntentStays(s, a, r);
    NewcomerStaysBarred(s, a, r, c);
  }

  lemma NewcomerStaysBarred(s: State, a: Action, r: RowId, c: CallId)
    requires r in s.rows && Hopeless(s, r, s.rows[r].intent, c)
    ensures var t := Step(s, a); c in t.calls && t.calls[c].intent == s.rows[r].intent ==> Barred(t.calls[c].pc)
  {
    if c in s.calls {
      CallKeepsIntent(s, a, c);
      if s.calls[c].intent == s.rows[r].intent { BarredStays(s, a, r, c); }
    } else if c in Step(s, a).calls {
      NewCallClaimsNothing(s, a, c);
    }
  }

  lemma {:induction false} HopelessForever(s: State, more: seq<Action>, r: RowId, intent: Intent, c: CallId)
    requires Hopeless(s, r, intent, c)
    ensures Hopeless(Exec(s, more), r, intent, c)
  {
    if more != [] {
      HopelessForever(s, more[..|more| - 1], r, intent, c);
      HopelessStays(Exec(s, more[..|more| - 1]), more[|more| - 1], r, intent, c);
    }
  }

  lemma {:induction false} UnfinishedForever(s: State, more: seq<Action>, r: RowId)
    requires Inv(s) && r in s.rows && !Recoverable(s, r) && !Finished(s.rows[r])
    ensures var t := Exec(s, more);
      && Inv(t) && r in t.rows && t.rows[r].intent == s.rows[r].intent && !Recoverable(t, r) && !Finished(t.rows[r])
  {
    if more != [] {
      var before, a := Exec(s, more[..|more| - 1]), more[|more| - 1];
      UnfinishedForever(s, more[..|more| - 1], r);
      StepKeepsInv(before, a);
      PastRecoveryStays(before, a, r);
      IntentStays(before, a, r);
    }
  }

  /** On a row that is past recovery before it is finished no call ever succeeds, not even one that was
      under way. */
  lemma NobodySucceedsPastRecovery(schedule: seq<Action>, more: seq<Action>, r: RowId, c: CallId)
    requires var s := Exec(Start, schedule); r in s.rows && !Recoverable(s, r) && !Finished(s.rows[r])
    requires var t := Exec(Start, schedule + more);
      c in t.calls && t.calls[c].intent == Exec(Start, schedule).rows[r].intent
    ensures !Exec(Start, schedule + more).calls[c].pc.Succeeded?
  {
    InvAlways(schedule);
    ExecSplits(Start, schedule, more);
    UnfinishedForever(Exec(Start, schedule), more, r);
    var t := Exec(Start, schedule + more);
    assert CallOk(t, t.calls[c]);
    assert IsRowOf(t, r, t.calls[c].intent);
  }

  // ---- a recoverable row can be brought to success

  ghost predicate Reaches(s: State, t: State) {
    exists more :: Exec(s, more) == t
  }

  lemma ReachesStep(s: State, t: State, a: Action)
    requires Reaches(s, t)
    ensures Reaches(s, Step(t, a))
  {
    var more :| Exec(s, more) == t;
    assert (more + [a])[..|more|] == more;
    assert Exec(s, more + [a]) == Step(t, a);
  }

  lemma ReachesItself(s: State)
    ensures Reaches(s, s)
  {
    assert Exec(s, []) == s;
  }

  lemma ReachesOn(s: State, t: State, u: State)
    requires Reaches(s, t) && Reaches(t, u)
    ensures Reaches(s, u)
  {
    var more :| Exec(s, more) == t;
    var rest :| Exec(t, rest) == u;
    ExecSplits(s, more, rest);
  }

  /** A step that leads from s to t. */
  lemma Take(s: State, a: Action, t: State)
    requires Inv(s) && Step(s, a) == t
    ensures Inv(t) && Reaches(s, t)
  {
    StepKeepsInv(s, a);
    ReachesItself(s);
    ReachesStep(s, s, a);
  }

  ghost predicate Succeeds(s: State, c: CallId, intent: Intent) {
    c in s.calls && s.calls[c].intent == intent && s.calls[c].pc.Succeeded?
  }

  /** A name outside a set. */
  lemma {:induction false} FreshName(names: set<string>) returns (name: string)
    ensures name !in names && name != ""
  {
    var long := LongestName(names);
    name := seq(long + 1, i => 'a');
  }

  lemma {:induction false} LongestName(names: set<string>) returns (long: nat)
    ensures forall n :: n in names ==> |n| <= long
    decreases names
  {
    if names == {} {
      long := 0;
    } else {
      var n :| n in names;
      var rest := LongestName(names - {n});
      long := if |n| > rest then |n| else rest;
    }
  }

  // ---- single steps on the way

  lemma FindsRow(s: State, r: RowId)
    requires RowsOk(s) && r in s.rows
    ensures FindRow(s, s.rows[r].intent) == Some(r)
  {
    assert IsRowOf(s, r, s.rows[r].intent);
  }

  lemma Arrives(s: State, c: CallId, intent: Intent)
    requires c !in s.calls
    ensures Step(s, Arrive(c, intent)) == s.(calls := s.calls[c := Call(intent, LookingUp)])
  {
  }

  lemma Reads(s: State, c: CallId, r: RowId)
    requires c in s.calls && s.calls[c].pc.LookingUp? && r in s.rows && FindRow(s, s.calls[c].intent) == Some(r)
    ensures Step(s, LookUp(c, true)) == Goto(s, c, Deciding(r, s.rows[r]))
  {
  }

  /** A row that a call has read and reports: it is created and has its address and chain id. */
  predicate ReportsRead(seen: Row) {
    seen.status == Created && seen.address.Some? && seen.escrowId > 0
  }

  lemma ReportsSeen(s: State, c: CallId, r: RowId, seen: Row)
    requires c in s.calls && s.calls[c].pc == Deciding(r, seen)
    requires ReportsRead(seen)
    ensures Step(s, Decide(c)) == Goto(s, c, Succeeded(r, Result(seen.hash, seen.address.value, seen.escrowId)))
  {
  }

  lemma WaitsForSeen(s: State, c: CallId, r: RowId, seen: Row)
    requires c in s.calls && s.calls[c].pc == Deciding(r, seen) && !ReportsRead(seen) && seen.hash != ""
    ensures Step(s, Decide(c)) == Goto(s, c, Awaiting(r, seen.hash))
  {
  }

  lemma GoesToClaim(s: State, c: CallId, r: RowId, seen: Row)
    requires c in s.calls && s.calls[c].pc == Deciding(r, seen) && !ReportsRead(seen) && seen.hash == ""
    ensures Step(s, Decide(c)) == Goto(s, c, Claiming(r))
  {
  }

  lemma TakesClaim(s: State, c: CallId, r: RowId)
    requires c in s.calls && s.calls[c].pc == Claiming(r) && r in s.rows && s.rows[r].status == Pending
    ensures Step(s, Claim(c, Applied)) == Goto(Write(s, r, s.rows[r].(status := Submitting)), c, Sending(r))
  {
  }

  lemma SendsAs(s: State, c: CallId, r: RowId, hash: Hash, receipt: Receipt)
    requires c in s.calls && s.calls[c].pc == Sending(r) && hash != "" && hash !in s.chain
    ensures Step(s, Send(c, hash, receipt, true))
      == Goto(s.(chain := s.chain[hash := Sent(s.calls[c].intent, receipt)]), c, Persisting(r, hash, 1))
  {
  }

  lemma ResetsClaim(s: State, c: CallId, r: RowId)
    requires c in s.calls && s.calls[c].pc == Unclaiming(r) && r in s.rows
    ensures Step(s, Unclaim(c, Applied)) == Goto(Write(s, r, s.rows[r].(status := Pending)), c, Stopped)
  {
  }

  function WithHash(s: State, r: RowId, hash: Hash): State
    requires r in s.rows
  {
    Write(s, r, s.rows[r].(hash := hash, status := PendingConfirmation))
  }

  lemma StoresHash(s: State, c: CallId, r: RowId, hash: Hash)
    requires c in s.calls && s.calls[c].pc.Persisting? && s.calls[c].pc.row == r && s.calls[c].pc.hash == hash
    requires r in s.rows && s.rows[r].status == Submitting
    ensures Step(s, Persist(c, Applied, false)) == Goto(WithHash(s, r, hash), c, Awaiting(r, hash))
  {
  }

  lemma ReceiptArrives(s: State, c: CallId, r: RowId, hash: Hash)
    requires c in s.calls && s.calls[c].pc == Awaiting(r, hash) && hash in s.chain && s.chain[hash].receipt.Mined?
    ensures var receipt := s.chain[hash].receipt;
      Step(s, Await(c, true)) == Goto(s, c, Finalizing(r, Result(hash, receipt.address, receipt.escrowId)))
  {
  }

  lemma FinalizeSucceeds(s: State, c: CallId, r: RowId, result: Result)
    requires c in s.calls && s.calls[c].pc == Finalizing(r, result)
    requires r in s.rows && s.rows[r].status == PendingConfirmation && !Taken(s, r, result.address)
    ensures Succeeds(Step(s, Finalize(c, true, Applied)), c, s.calls[c].intent)
  {
  }

  // ---- and the ways they make up

  /** The receipt arrives, and the finalizing transaction goes through. */
  lemma FromAwaiting(s: State, c: CallId, r: RowId, hash: Hash) returns (t: State)
    requires Inv(s) && c in s.calls && s.calls[c].pc == Awaiting(r, hash)
    requires r in s.rows && s.rows[r].status == PendingConfirmation && Confirmable(s, r, hash)
    ensures Inv(t) && Reaches(s, t) && Succeeds(t, c, s.calls[c].intent)
  {
    var receipt := s.chain[hash].receipt;
    var u := Goto(s, c, Finalizing(r, Result(hash, receipt.address, receipt.escrowId)));
    ReceiptArrives(s, c, r, hash);
    Take(s, Await(c, true), u);
    assert !Taken(u, r, receipt.address);
    FinalizeSucceeds(u, c, r, u.calls[c].pc.result);
    t := Step(u, Finalize(c, true, Applied));
    Take(u, Finalize(c, true, Applied), t);
    ReachesOn(s, u, t);
  }

  lemma ConfirmableOnceStored(s: State, c: CallId, r: RowId, hash: Hash)
    requires r in s.rows && c in s.calls && Confirmable(s, r, hash)
    ensures Confirmable(Goto(WithHash(s, r, hash), c, Awaiting(r, hash)), r, hash)
  {
  }

  /** The hash is stored. */
  lemma FromPersisting(s: State, c: CallId, r: RowId, hash: Hash) returns (t: State)
    requires Inv(s) && c in s.calls
    requires s.calls[c].pc.Persisting? && s.calls[c].pc.row == r && s.calls[c].pc.hash == hash
    requires r in s.rows && s.rows[r].status == Submitting && Confirmable(s, r, hash)
    ensures t == Goto(WithHash(s, r, hash), c, Awaiting(r, hash))
    ensures Inv(t) && Reaches(s, t) && Confirmable(t, r, hash)
  {
    t := Goto(WithHash(s, r, hash), c, Awaiting(r, hash));
    StoresHash(s, c, r, hash);
    Take(s, Persist(c, Applied, false), t);
    ConfirmableOnceStored(s, c, r, hash);
  }

  ghost function Addresses(s: State): set<Address> {
    s.indexed + set q | q in s.rows && s.rows[q].address.Some? :: s.rows[q].address.value
  }

  lemma NewAddressIsFree(s: State, r: RowId, address: Address)
    requires address !in Addresses(s)
    ensures !Taken(s, r, address)
  {
    forall q | q in s.rows ensures s.rows[q].address != Some(address) {
      if s.rows[q].address.Some? { assert s.rows[q].address.value in Addresses(s); }
    }
  }

  /** The chain takes the transaction, under a new hash, and deploys the escrow at a new address. */
  lemma FromSending(s: State, c: CallId, r: RowId) returns (t: State, hash: Hash)
    requires Inv(s) && c in s.calls && s.calls[c].pc == Sending(r)
    ensures Inv(t) && Reaches(s, t) && Confirmable(t, r, hash)
    ensures t.rows == s.rows && t.calls == s.calls[c := s.calls[c].(pc := Persisting(r, hash, 1))]
  {
    hash := FreshName(s.chain.Keys);
    var address := FreshName(Addresses(s));
    t := Goto(s.(chain := s.chain[hash := Sent(s.calls[c].intent, Mined(address, 1))]), c, Persisting(r, hash, 1));
    SendsAs(s, c, r, hash, Mined(address, 1));
    Take(s, Send(c, hash, Mined(address, 1), true), t);
    assert Addresses(t) == Addresses(s);
    NewAddressIsFree(t, r, address);
  }

  /** A call that is to send goes on to the end. */
  lemma FromSendingOn(s: State, c: CallId, r: RowId) returns (t: State)
    requires Inv(s) && c in s.calls && s.calls[c].pc == Sending(r) && r in s.rows && s.rows[r].status == Submitting
    ensures Inv(t) && Reaches(s, t) && Succeeds(t, c, s.calls[c].intent)
  {
    var sent, hash := FromSending(s, c, r);
    var stored := FromPersisting(sent, c, r, hash);
    t := FromAwaiting(stored, c, r, hash);
    ReachesOn(s, sent, stored);
    ReachesOn(s, stored, t);
  }

  /** A call that has read a pending row claims it, sends, and goes on to the end. */
  lemma FromDecidingPending(s: State, c: CallId, r: RowId) returns (t: State)
    requires Inv(s) && c in s.calls && r in s.rows && s.rows[r].status == Pending
    requires s.calls[c].pc == Deciding(r, s.rows[r])
    ensures Inv(t) && Reaches(s, t) && Succeeds(t, c, s.calls[c].intent)
  {
    assert RowOk(s, s.rows[r]);
    var deciding := Goto(s, c, Claiming(r));
    GoesToClaim(s, c, r, s.rows[r]);
    Take(s, Decide(c), deciding);
    var claimed := Goto(Write(deciding, r, s.rows[r].(status := Submitting)), c, Sending(r));
    TakesClaim(deciding, c, r);
    Take(deciding, Claim(c, Applied), claimed);
    ReachesOn(s, deciding, claimed);
    t := FromSendingOn(claimed, c, r);
    ReachesOn(s, claimed, t);
  }

  /** A new call reads the row of its intent. */
  lemma ArriveAndRead(s: State, c: CallId, r: RowId) returns (t: State)
    requires Inv(s) && c !in s.calls && r in s.rows
    ensures Inv(t) && Reaches(s, t) && t == s.(calls := s.calls[c := Call(s.rows[r].intent, Deciding(r, s.rows[r]))])
  {
    var intent := s.rows[r].intent;
    var u := s.(calls := s.calls[c := Call(intent, LookingUp)]);
    Arrives(s, c, intent);
    Take(s, Arrive(c, intent), u);
    FindsRow(u, r);
    Reads(u, c, r);
    t := Goto(u, c, Deciding(r, s.rows[r]));
    Take(u, LookUp(c, true), t);
    ReachesOn(s, u, t);
  }

  /** An intent without a row gets one. */
  lemma Inserts(s: State, c: CallId)
    requires c in s.calls && s.calls[c].pc.Inserting? && forall r :: !IsRowOf(s, r, s.calls[c].intent)
    ensures var row := Row(s.calls[c].intent, Pending, "", None, 0, []);
      Step(s, Insert(c, Applied))
        == Goto(Write(s, s.nextRow, row).(nextRow := s.nextRow + 1), c, Deciding(s.nextRow, row))
  {
  }

  lemma FindsNone(s: State, c: CallId)
    requires c in s.calls && s.calls[c].pc.LookingUp? && forall r :: !IsRowOf(s, r, s.calls[c].intent)
    ensures Step(s, LookUp(c, true)) == Goto(s, c, Inserting)
  {
  }

  lemma SameRowsSameIntents(s: State, t: State, intent: Intent)
    requires t.rows == s.rows && forall r :: !IsRowOf(s, r, intent)
    ensures forall r :: !IsRowOf(t, r, intent)
  {
    forall r ensures !IsRowOf(t, r, intent) { assert !IsRowOf(s, r, intent); }
  }

  /** The call with the intent, under way or still to arrive, can succeed in some continuation. */
  ghost predicate CanSucceed(s: State, c: CallId, intent: Intent) {
    exists more :: Succeeds(Exec(s, more), c, intent)
  }
}
