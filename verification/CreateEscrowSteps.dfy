/** What single steps of CreateEscrow leave alone: the other calls, and the rows that they do not write. */
module CreateEscrowSteps {
  import opened Common
  import opened CreateEscrow

  // ---- calls

  /** A step of a call moves that call only, not what it was made for. */
  ghost predicate CallMoved(s: State, t: State, c: CallId)
    requires c in s.calls
  {
    && c in t.calls && t.calls == s.calls[c := t.calls[c]] && t.calls[c].intent == s.calls[c].intent
    && t.nextRow >= s.nextRow && t.indexed == s.indexed
  }

  lemma CallStepMoves(s: State, a: Action)
    requires !a.Index? && !a.Discover? && a.c in s.calls
    ensures CallMoved(s, CallStep(s, a), a.c)
  {
  }

  lemma OthersStay(s: State, a: Action, c: CallId)
    requires c in s.calls && (a.Index? || a.Discover? || a.c != c)
    ensures c in Step(s, a).calls && Step(s, a).calls[c] == s.calls[c]
  {
    if !a.Index? && !a.Discover? && a.c in s.calls { CallStepMoves(s, a); }
  }

  lemma CallKeepsIntent(s: State, a: Action, c: CallId)
    requires c in s.calls
    ensures c in Step(s, a).calls && Step(s, a).calls[c].intent == s.calls[c].intent
  {
    if a.Index? || a.Discover? || a.c != c { OthersStay(s, a, c); } else { CallStepMoves(s, a); }
  }

  /** A step of a call that holds the claim afterwards continues it, unless it has just claimed a pending row. */
  lemma ClaimGoesOn(s: State, a: Action, r: RowId)
    requires !a.Index? && !a.Discover? && a.c in s.calls && a.c in CallStep(s, a).calls
    requires Claims(CallStep(s, a).calls[a.c].pc, r) && !a.Claim?
    ensures Claims(s.calls[a.c].pc, r)
    ensures var before, pc := s.calls[a.c].pc, CallStep(s, a).calls[a.c].pc;
      if pc.Persisting? then before.Sending? || (before.Persisting? && before.hash == pc.hash) else !before.Persisting?
  {
  }

  lemma ClaimNeedsPending(s: State, c: CallId, reply: DbReply, r: RowId)
    requires c in s.calls && s.calls[c].pc.Claiming? && r in s.rows && s.rows[r].status != Pending
    ensures !Claims(ClaimStep(s, c, reply).calls[c].pc, r)
  {
  }

  lemma NewCallClaimsNothing(s: State, a: Action, c: CallId)
    requires c !in s.calls && c in Step(s, a).calls
    ensures Step(s, a).calls[c].pc == LookingUp
  {
    if !a.Index? && !a.Discover? && a.c in s.calls { CallStepMoves(s, a); }
  }

  /** Whoever claims a row that was not pending has claimed it before. */
  lemma NewClaimNeedsPending(s: State, a: Action, c: CallId, r: RowId)
    requires r in s.rows && c in Step(s, a).calls && Claims(Step(s, a).calls[c].pc, r)
    requires s.rows[r].status != Pending
    ensures c in s.calls && Claims(s.calls[c].pc, r)
    ensures var before, pc := s.calls[c].pc, Step(s, a).calls[c].pc;
      if pc.Persisting? then before.Sending? || (before.Persisting? && before.hash == pc.hash) else !before.Persisting?
  {
    if c !in s.calls {
      NewCallClaimsNothing(s, a, c);
    } else if a.Index? || a.Discover? || a.c != c {
      OthersStay(s, a, c);
    } else if a.Claim? {
      if s.calls[c].pc.Claiming? { ClaimNeedsPending(s, c, a.reply, r); }
    } else {
      ClaimGoesOn(s, a, r);
    }
  }

  // ---- rows

  predicate WritesRow(a: Action) {
    a.Claim? || a.Unclaim? || a.Persist? || a.Finalize? || a.Index?
  }

  lemma OnlyWritersWrite(s: State, a: Action, r: RowId)
    requires r in s.rows && r < s.nextRow && !WritesRow(a)
    ensures r in Step(s, a).rows && Step(s, a).rows[r] == s.rows[r]
  {
  }

  lemma IntentStays(s: State, a: Action, r: RowId)
    requires r in s.rows && r < s.nextRow
    ensures r in Step(s, a).rows && Step(s, a).rows[r].intent == s.rows[r].intent
  {
    if !WritesRow(a) { OnlyWritersWrite(s, a, r); }
  }

  /** The call that takes the step stands at this point for this row. */
  ghost predicate At(s: State, a: Action, r: RowId)
    requires !a.Index? && !a.Discover?
  {
    a.c in s.calls && !s.calls[a.c].pc.LookingUp? && !s.calls[a.c].pc.Inserting? && !s.calls[a.c].pc.Rereading?
    && !s.calls[a.c].pc.Stopped? && s.calls[a.c].pc.row == r
  }

  lemma SubmittingMoves(s: State, a: Action, r: RowId)
    requires r in s.rows && r < s.nextRow && s.rows[r].status == Submitting
    ensures r in Step(s, a).rows
    ensures var row, next := s.rows[r], Step(s, a).rows[r];
      || next == row
      || (a.Unclaim? && At(s, a, r) && s.calls[a.c].pc.Unclaiming? && next == row.(status := Pending))
      || (&& a.Persist? && At(s, a, r) && s.calls[a.c].pc.Persisting?
          && next == row.(hash := s.calls[a.c].pc.hash, status := PendingConfirmation))
  {
    if !WritesRow(a) { OnlyWritersWrite(s, a, r); }
  }

  lemma ConfirmationMoves(s: State, a: Action, r: RowId)
    requires r in s.rows && r < s.nextRow && s.rows[r].status == PendingConfirmation
    requires !a.Unclaim?
    ensures r in Step(s, a).rows
    ensures Step(s, a).rows[r] == s.rows[r]
      || (&& a.Finalize? && At(s, a, r) && s.calls[a.c].pc.Finalizing?
          && !Taken(s, r, s.calls[a.c].pc.result.address))
  {
    if !WritesRow(a) { OnlyWritersWrite(s, a, r); }
  }

  lemma FinishedMoves(s: State, a: Action, r: RowId)
    requires r in s.rows && r < s.nextRow && Finished(s.rows[r]) && !a.Unclaim?
    ensures r in Step(s, a).rows
    ensures Step(s, a).rows[r] == s.rows[r]
      || (s.rows[r].status == Created && Step(s, a).rows[r] == s.rows[r].(status := Later))
  {
    if !WritesRow(a) { OnlyWritersWrite(s, a, r); }
  }

  /** The reset after a failed chain call writes a row whatever its status, but only its claimant gets there. */
  lemma UnclaimSpares(s: State, a: Action, r: RowId)
    requires Inv(s) && r in s.rows && s.rows[r].status != Submitting && a.Unclaim?
    ensures r in Step(s, a).rows && Step(s, a).rows[r] == s.rows[r]
  {
    if a.c in s.calls { assert CallOk(s, s.calls[a.c]); }
  }
}
