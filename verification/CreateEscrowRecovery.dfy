/** When CreateEscrow can still be retried: what abandons a claim, what keeps a row from being finalized,
    and exactly when a new call can succeed. */
module CreateEscrowRecovery {
  import opened CreateEscrow
  import opened CreateEscrowSteps

  // ---- abandoned claims

  /** The row is being submitted, and no caller holds the claim any more. */
  ghost predicate Abandoned(s: State, r: RowId) {
    && r in s.rows && r < s.nextRow && s.rows[r].status == Submitting
    && forall c :: c in s.calls ==> !Claims(s.calls[c].pc, r)
  }

  lemma AbandonedAfterMove(s: State, t: State, c: CallId, r: RowId)
    requires Abandoned(s, r) && c in t.calls && t.calls == s.calls[c := t.calls[c]] && t.nextRow >= s.nextRow
    requires r in t.rows && t.rows[r] == s.rows[r] && !Claims(t.calls[c].pc, r)
    ensures Abandoned(t, r)
  {
  }

  /** A step of a caller that does not claim the row neither writes it nor claims it. */
  lemma StepSparesSubmitting(s: State, a: Action, r: RowId)
    requires r in s.rows && r < s.nextRow && s.rows[r].status == Submitting
    requires !a.Index? && !a.Discover? && a.c in s.calls && !Claims(s.calls[a.c].pc, r)
    ensures var t := CallStep(s, a);
      && a.c in t.calls && t.calls == s.calls[a.c := t.calls[a.c]] && t.nextRow >= s.nextRow
      && r in t.rows && t.rows[r] == s.rows[r] && !Claims(t.calls[a.c].pc, r)
  {
    CallStepMoves(s, a);
    SubmittingMoves(s, a, r);
    if Claims(Step(s, a).calls[a.c].pc, r) { NewClaimNeedsPending(s, a, a.c, r); }
  }

  lemma AbandonedStays(s: State, a: Action, r: RowId)
    requires Abandoned(s, r)
    ensures Abandoned(Step(s, a), r) && Step(s, a).rows[r] == s.rows[r]
  {
    if !a.Index? && !a.Discover? && a.c in s.calls {
      StepSparesSubmitting(s, a, r);
      AbandonedAfterMove(s, CallStep(s, a), a.c, r);
    }
  }

  lemma {:induction false} AbandonedForever(s: State, more: seq<Action>, r: RowId)
    requires Abandoned(s, r)
    ensures Abandoned(Exec(s, more), r) && Exec(s, more).rows[r] == s.rows[r]
  {
    if more != [] {
      AbandonedForever(s, more[..|more| - 1], r);
      AbandonedStays(Exec(s, more[..|more| - 1]), more[|more| - 1], r);
    }
  }

  /** Once a claim is abandoned, no caller with that intent ever succeeds, however often it retries. */
  lemma RetriesCannotRecover(schedule: seq<Action>, more: seq<Action>, r: RowId, c: CallId)
    requires Abandoned(Exec(Start, schedule), r) && c in Exec(Start, schedule + more).calls
    requires Exec(Start, schedule + more).calls[c].intent == Exec(Start, schedule).rows[r].intent
    ensures !Exec(Start, schedule + more).calls[c].pc.Succeeded?
  {
    ExecSplits(Start, schedule, more);
    AbandonedForever(Exec(Start, schedule), more, r);
    InvAlways(schedule + more);
    assert CallOk(Exec(Start, schedule + more), Exec(Start, schedule + more).calls[c]);
  }

  /** The step gives up the claim on a row that is being submitted: the claimant crashes; its reset after a
      failed chain call does not take effect; its third attempt to store the hash fails, or its context ends
      before the next; or the claim itself takes effect while its reply is an error. */
  ghost predicate GivesUp(s: State, a: Action, r: RowId)
    requires r in s.rows
  {
    && !a.Index? && !a.Discover? && a.c in s.calls
    && var pc := s.calls[a.c].pc;
       match a
       case Crash(_) => Claims(pc, r) && s.rows[r].status == Submitting
       case Unclaim(_, reply) => pc == Unclaiming(r) && reply.Refused?
       case Persist(_, reply, cancelled) =>
         && pc.Persisting? && pc.row == r && s.rows[r].status == Submitting && reply.Refused?
         && (cancelled || pc.attempt >= 3)
       case Claim(_, reply) => pc == Claiming(r) && s.rows[r].status == Pending && reply.AppliedButErrored?
       case _ => false
  }

  /** The one caller that claims a row, or nobody. */
  lemma OthersDoNotClaim(s: State, c: CallId, r: RowId)
    requires ClaimsOk(s) && c in s.calls && Claims(s.calls[c].pc, r)
    ensures forall d :: d in s.calls && d != c ==> !Claims(s.calls[d].pc, r)
  {
  }

  lemma GivingUpAbandons(s: State, a: Action, r: RowId)
    requires Inv(s) && r in s.rows && GivesUp(s, a, r)
    ensures Abandoned(Step(s, a), r)
  {
    var c, t := a.c, Step(s, a);
    assert CallOk(s, s.calls[c]) && RowOk(s, s.rows[r]);
    if a.Claim? {
      NobodyClaimsPending(s, r);
    } else {
      OthersDoNotClaim(s, c, r);
    }
    forall d | d in t.calls ensures !Claims(t.calls[d].pc, r) {
      assert d != c ==> t.calls[d] == s.calls[d];
    }
  }

  lemma ClaimantStep(s: State, a: Action, r: RowId)
    requires Inv(s) && r in s.rows && !GivesUp(s, a, r) && !a.Index? && !a.Discover? && a.c in s.calls
    requires Claims(s.calls[a.c].pc, r)
    ensures !Abandoned(Step(s, a), r)
  {
    assert CallOk(s, s.calls[a.c]);
    var t := Step(s, a);
    if a.Send? || a.Persist? || a.Unclaim? || a.Crash? {
      ClaimantGoesOn(s, a, r);
    } else {
      assert t == s;
    }
  }

  lemma ClaimantGoesOn(s: State, a: Action, r: RowId)
    requires r in s.rows && !GivesUp(s, a, r) && (a.Send? || a.Persist? || a.Unclaim? || a.Crash?) && a.c in s.calls
    requires Claims(s.calls[a.c].pc, r)
    ensures var t := Step(s, a);
      r !in t.rows || t.rows[r].status != Submitting || (a.c in t.calls && Claims(t.calls[a.c].pc, r))
  {
  }

  lemma OnlyClaimsSubmit(s: State, a: Action, r: RowId)
    requires r in s.rows && r < s.nextRow && s.rows[r].status != Submitting && !GivesUp(s, a, r)
    ensures !Abandoned(Step(s, a), r)
  {
    var t := Step(s, a);
    if t.rows[r].status == Submitting { assert Claims(t.calls[a.c].pc, r); }
  }

  lemma OnlyGivingUpAbandons(s: State, a: Action, r: RowId)
    requires Inv(s) && r in s.rows && !Abandoned(s, r) && !GivesUp(s, a, r)
    ensures !Abandoned(Step(s, a), r)
  {
    if s.rows[r].status == Submitting {
      var c :| c in s.calls && Claims(s.calls[c].pc, r);
      if !a.Index? && !a.Discover? && a.c == c {
        ClaimantStep(s, a, r);
      } else {
        OthersStay(s, a, c);
      }
    } else {
      OnlyClaimsSubmit(s, a, r);
    }
  }

  /** In every reachable state a step abandons a row exactly when it gives up its claim: by a crash, or
      without any. */
  lemma StepAbandonsExactly(schedule: seq<Action>, a: Action, r: RowId)
    requires r in Exec(Start, schedule).rows && !Abandoned(Exec(Start, schedule), r)
    ensures Abandoned(Step(Exec(Start, schedule), a), r) <==> GivesUp(Exec(Start, schedule), a, r)
  {
    InvAlways(schedule);
    var s := Exec(Start, schedule);
    if GivesUp(s, a, r) { GivingUpAbandons(s, a, r); } else { OnlyGivingUpAbandons(s, a, r); }
  }
}
