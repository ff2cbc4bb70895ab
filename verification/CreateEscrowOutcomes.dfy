/** What every step of CreateEscrow does to a row, and exactly which steps end a call: with an error or with a
    success. */
module CreateEscrowOutcomes {
  import opened Common
  import opened CreateEscrow
  import opened CreateEscrowSteps

  // ---- rows

  /** The step is one of a call for the row. */
  predicate StepsFor(s: State, a: Action, r: RowId) {
    && !a.Index? && !a.Discover? && a.c in s.calls
    && var pc := s.calls[a.c].pc;
       && !pc.LookingUp? && !pc.Inserting? && !pc.Rereading? && !pc.Stopped?
       && pc.row == r
  }

  /** What becomes of the row: a claim that takes effect marks a pending row as being submitted; a failed chain call
      makes it pending again; the hash is stored on a row being submitted; a row that waits for its confirmation is
      created with the address, the id and the milestones, if no other row has the address; the indexer moves a created
      row on. Nothing else touches it. */
  ghost predicate BecomesOf(s: State, a: Action, r: RowId, next: Row)
    requires r in s.rows
  {
    var row := s.rows[r];
    if StepsFor(s, a, r) && a.Claim? && s.calls[a.c].pc.Claiming? then
      next == row.(status := if row.status == Pending && !a.reply.Refused? then Submitting else row.status)
    else if StepsFor(s, a, r) && a.Unclaim? && s.calls[a.c].pc.Unclaiming? then
      next == row.(status := if a.reply.Refused? then row.status else Pending)
    else if StepsFor(s, a, r) && a.Persist? && s.calls[a.c].pc.Persisting? then
      if row.status == Submitting && !a.reply.Refused?
      then next == row.(hash := s.calls[a.c].pc.hash, status := PendingConfirmation) else next == row
    else if StepsFor(s, a, r) && a.Finalize? && s.calls[a.c].pc.Finalizing? then
      var result := s.calls[a.c].pc.result;
      if row.status == PendingConfirmation && !Taken(s, r, result.address) && a.milestonesInserted && !a.reply.Refused?
      then next == Row(row.intent, Created, row.hash, Some(result.address), result.escrowId,
                       row.milestones + s.calls[a.c].intent.milestones)
      else next == row
    else if a == Index(r) && row.status == Created then next == row.(status := Later)
    else next == row
  }

  lemma ClaimBecomes(s: State, a: Action, r: RowId)
    requires Inv(s) && r in s.rows && (a.Claim? || a.Unclaim?)
    ensures r in Step(s, a).rows && BecomesOf(s, a, r, Step(s, a).rows[r])
  {
  }

  lemma PersistBecomes(s: State, a: Action, r: RowId)
    requires Inv(s) && r in s.rows && a.Persist?
    ensures r in Step(s, a).rows && BecomesOf(s, a, r, Step(s, a).rows[r])
  {
  }

  lemma FinalizeBecomes(s: State, a: Action, r: RowId)
    requires Inv(s) && r in s.rows && (a.Finalize? || a.Index?)
    ensures r in Step(s, a).rows && BecomesOf(s, a, r, Step(s, a).rows[r])
  {
  }

  lemma RowBecomes(s: State, a: Action, r: RowId)
    requires Inv(s) && r in s.rows
    ensures r in Step(s, a).rows && BecomesOf(s, a, r, Step(s, a).rows[r])
  {
    if !WritesRow(a) { OnlyWritersWrite(s, a, r); }
    else if a.Claim? || a.Unclaim? { ClaimBecomes(s, a, r); }
    else if a.Persist? { PersistBecomes(s, a, r); }
    else { FinalizeBecomes(s, a, r); }
  }

  // ---- calls

  /** The row of the call's intent. */
  ghost predicate HasRow(s: State, c: CallId)
    requires c in s.calls
  {
    exists r :: r in s.rows && s.rows[r].intent == s.calls[c].intent
  }

  /** The steps that end their call with an error. */
  ghost predicate Fails(s: State, a: Action)
    requires Inv(s) && !a.Index? && !a.Discover? && a.c in s.calls
  {
    var pc := s.calls[a.c].pc;
    match a
    case LookUp(_, readable) => pc.LookingUp? && !readable
    case Insert(c, reply) => pc.Inserting? && !reply.Applied? && !HasRow(s, c)
    case Reread(c, readable) => pc.Rereading? && (!readable || !HasRow(s, c))
    case Claim(_, reply) => pc.Claiming? && !reply.Applied?
    case Yield(_, readable) => pc.Yielding? && !(readable && pc.row in s.rows && s.rows[pc.row].hash != "")
    case Unclaim(_, _) => pc.Unclaiming?
    case Persist(_, reply, cancelled) =>
      && pc.Persisting? && (cancelled || pc.attempt >= 3)
      && !(reply.Applied? && pc.row in s.rows && s.rows[pc.row].status == Submitting)
    case Await(_, arrived) =>
      pc.Awaiting? && !(arrived && pc.hash in s.chain && s.chain[pc.hash].receipt.Mined?)
    case Finalize(_, inserted, reply) =>
      && pc.Finalizing? && pc.row in s.rows && s.rows[pc.row].status == PendingConfirmation
      && !(inserted && reply.Applied? && !Taken(s, pc.row, pc.result.address))
    case Reconcile(_, readable) => pc.Reconciling? && !(readable && StoredResult(s, pc.row))
    case Crash(_) => !pc.Succeeded?
    case _ => false
  }

  /** The row is created, with an id. */
  ghost predicate StoredResult(s: State, r: RowId) {
    r in s.rows && s.rows[r].status == Created && s.rows[r].address.Some? && s.rows[r].escrowId > 0
  }

  /** The steps that end their call with a success. */
  ghost predicate Completes(s: State, a: Action)
    requires Inv(s) && !a.Index? && !a.Discover? && a.c in s.calls
  {
    var pc := s.calls[a.c].pc;
    match a
    case Decide(_) => pc.Deciding? && pc.seen.status == Created && pc.seen.address.Some? && pc.seen.escrowId > 0
    case Finalize(_, inserted, reply) =>
      && pc.Finalizing? && pc.row in s.rows && s.rows[pc.row].status == PendingConfirmation
      && inserted && reply.Applied? && !Taken(s, pc.row, pc.result.address)
    case Reconcile(_, readable) => pc.Reconciling? && readable && StoredResult(s, pc.row)
    case _ => false
  }

  lemma RowOfIntent(s: State, c: CallId)
    requires c in s.calls
    ensures FindRow(s, s.calls[c].intent).Some? <==> HasRow(s, c)
  {
    if r :| r in s.rows && s.rows[r].intent == s.calls[c].intent { assert IsRowOf(s, r, s.calls[c].intent); }
  }

  lemma ReadingEnds(s: State, a: Action)
    requires Inv(s) && !a.Index? && !a.Discover? && a.c in s.calls
    requires a.LookUp? || a.Insert? || a.Reread?
    requires !s.calls[a.c].pc.Stopped? && !s.calls[a.c].pc.Succeeded?
    ensures var t := Step(s, a);
      a.c in t.calls && (t.calls[a.c].pc.Stopped? <==> Fails(s, a)) && (t.calls[a.c].pc.Succeeded? <==> Completes(s, a))
  {
    RowOfIntent(s, a.c);
  }

  lemma WritingEnds(s: State, a: Action)
    requires Inv(s) && !a.Index? && !a.Discover? && a.c in s.calls
    requires !a.LookUp? && !a.Insert? && !a.Reread?
    requires !s.calls[a.c].pc.Stopped? && !s.calls[a.c].pc.Succeeded?
    ensures var t := Step(s, a);
      a.c in t.calls && (t.calls[a.c].pc.Stopped? <==> Fails(s, a)) && (t.calls[a.c].pc.Succeeded? <==> Completes(s, a))
  {
    assert CallOk(s, s.calls[a.c]);
  }

  /** A call that is under way ends with an error exactly at these steps, and with a success exactly at those. */
  lemma EndsExactly(s: State, a: Action)
    requires Inv(s) && !a.Index? && !a.Discover? && a.c in s.calls
    requires !s.calls[a.c].pc.Stopped? && !s.calls[a.c].pc.Succeeded?
    ensures var t := Step(s, a);
      a.c in t.calls && (t.calls[a.c].pc.Stopped? <==> Fails(s, a)) && (t.calls[a.c].pc.Succeeded? <==> Completes(s, a))
  {
    if a.LookUp? || a.Insert? || a.Reread? { ReadingEnds(s, a); } else { WritingEnds(s, a); }
  }
}
