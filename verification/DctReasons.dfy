/** What each reason of an introspection means, over any token table: for the token itself, for the steps of its
    trail, and for where the trail ends. And what a freeze or an emergency resolve leaves possible. */
module DctReasons {
  import opened Common
  import opened Text
  import opened Dct
  import opened DctStore
  import opened DctRuns
  import opened DctRows

  // ---- the trail

  /** The i-th token is a child of the next. */
  predicate ChildOfNext(tokens: Tokens, p: seq<string>, i: nat) {
    i + 1 < |p| && p[i] in tokens && p[i + 1] == tokens[p[i]].parent && p[i + 1] != ""
  }

  /** Tokens each followed by its parent, none met twice. */
  ghost predicate Climbs(tokens: Tokens, p: seq<string>) {
    && p != [] && Distinct(p)
    && (forall i :: 0 <= i < |p| ==> p[i] in tokens)
    && forall i: nat :: i + 1 < |p| ==> ChildOfNext(tokens, p, i)
  }

  /** The parent that the topmost of them names. */
  function Top(tokens: Tokens, p: seq<string>): string
    requires p != [] && p[|p| - 1] in tokens
  {
    tokens[p[|p| - 1]].parent
  }

  /** All the way up: to a root, to a gap, or to where the trail would go in a circle. */
  ghost predicate Trail(tokens: Tokens, p: seq<string>) {
    Climbs(tokens, p) && (Top(tokens, p) == "" || Top(tokens, p) !in tokens || Top(tokens, p) in p)
  }

  lemma {:induction false} TrailOnward(tokens: Tokens, p: seq<string>) returns (q: seq<string>)
    requires Climbs(tokens, p)
    ensures Trail(tokens, q) && q[0] == p[0]
    decreases |tokens.Keys| - |p|
  {
    DistinctIsNoLonger(p, tokens.Keys);
    if Trail(tokens, p) {
      q := p;
    } else {
      DistinctIsNoLonger(p + [Top(tokens, p)], tokens.Keys);
      var longer := p + [Top(tokens, p)];
      forall i: nat | i + 1 < |longer| ensures ChildOfNext(tokens, longer, i) {
        if i + 1 < |p| { assert ChildOfNext(tokens, p, i); }
      }
      q := TrailOnward(tokens, longer);
    }
  }

  /** Every token has a trail. */
  lemma TokenHasTrail(tokens: Tokens, id: string) returns (p: seq<string>)
    requires id in tokens
    ensures Trail(tokens, p) && p[0] == id
  {
    p := TrailOnward(tokens, [id]);
  }

  // ---- faults

  /** What is wrong with the token or its escrow. */
  ghost predicate OwnFault(x: Reason, t: Token, e: Escrow, now: int) {
    match x
    case Revoked => t.revoked.Some?
    case Expired => t.expiresAt <= now
    case NonCanonical => !t.canonical
    case EscrowFrozen => e.frozen
    case EscrowInactive =>
      !e.frozen && (e.status.Settled? || e.status.Refunded? || e.status.CancelledEscrow? || e.status.Resolved?)
    case _ => false
  }

  /** What is wrong with a step from a token to its parent. */
  ghost predicate StepFault(x: Reason, child: Token, parent: Token, now: int)
    requires Decodes(child) && Decodes(parent)
  {
    match x
    case AncestorNonCanonical => !parent.canonical
    case AncestorRevoked => parent.revoked.Some?
    case AncestorExpired => parent.expiresAt <= now
    case EscrowMismatch => child.escrow != parent.escrow
    case IssuerMismatch => ToLower(child.issuer) != ToLower(parent.subject)
    case ExpiryViolation => child.expiresAt > parent.expiresAt
    case ScopeViolation =>
      !Narrower(child.ops.value, parent.ops.value) || !Narrower(child.resources.value, parent.resources.value)
    case _ => false
  }

  /** What is wrong with the end of the trail. */
  ghost predicate EndFault(x: Reason, tokens: Tokens, p: seq<string>)
    requires p != [] && p[|p| - 1] in tokens
  {
    match x
    case MissingAncestor => Top(tokens, p) != "" && Top(tokens, p) !in tokens
    case LineageCycle => Top(tokens, p) != "" && Top(tokens, p) in tokens
    case _ => false
  }

  /** The scopes at both ends of the k-th step decode. */
  predicate Readable(tokens: Tokens, p: seq<string>, k: nat)
    requires 0 < k < |p| && p[k - 1] in tokens && p[k] in tokens
  {
    Decodes(tokens[p[k - 1]]) && Decodes(tokens[p[k]])
  }

  ghost predicate FaultyStep(x: Reason, tokens: Tokens, p: seq<string>, k: nat, now: int)
    requires 0 < k < |p| && p[k - 1] in tokens && p[k] in tokens
  {
    Readable(tokens, p, k) && StepFault(x, tokens[p[k - 1]], tokens[p[k]], now)
  }

  /** Some step from the j-th on has the fault. */
  ghost predicate FaultyFrom(x: Reason, tokens: Tokens, p: seq<string>, j: nat, now: int)
    requires Climbs(tokens, p)
  {
    exists k :: j < k < |p| && FaultyStep(x, tokens, p, k, now)
  }

  ghost predicate ReadableFrom(tokens: Tokens, p: seq<string>, j: nat)
    requires Climbs(tokens, p)
  {
    forall k :: j < k < |p| ==> Readable(tokens, p, k)
  }

  lemma StandingReports(x: Reason, parent: Token, now: int)
    ensures x in StandingReasons(parent, now) <==>
      || (x.AncestorNonCanonical? && !parent.canonical)
      || (x.AncestorRevoked? && parent.revoked.Some?)
      || (x.AncestorExpired? && parent.expiresAt <= now)
  {
  }

  lemma MatchReports(x: Reason, child: Token, parent: Token)
    ensures x in MatchReasons(child, parent) <==>
      || (x.EscrowMismatch? && child.escrow != parent.escrow)
      || (x.IssuerMismatch? && ToLower(child.issuer) != ToLower(parent.subject))
      || (x.ExpiryViolation? && child.expiresAt > parent.expiresAt)
  {
  }

  lemma ScopeReports(child: Token, parent: Token)
    requires Decodes(child) && Decodes(parent)
    ensures ScopeShrinks(child, parent) <==>
      Narrower(child.ops.value, parent.ops.value) && Narrower(child.resources.value, parent.resources.value)
  {
    SubsetNarrows(child.ops.value, parent.ops.value);
    SubsetNarrows(child.resources.value, parent.resources.value);
  }

  lemma LinkMembers(x: Reason, a: set<Reason>, b: set<Reason>, shrinks: bool)
    ensures var r := LinkReport(a + b, Some(shrinks));
      r.Report? && (x in r.reasons <==> x in a || x in b || (x.ScopeViolation? && !shrinks))
  {
  }

  lemma StepFaults(x: Reason, child: Token, parent: Token, now: int, narrower: bool)
    requires Decodes(child) && Decodes(parent)
    requires narrower <==>
      Narrower(child.ops.value, parent.ops.value) && Narrower(child.resources.value, parent.resources.value)
    ensures StepFault(x, child, parent, now) <==>
      || x in StandingReasons(parent, now) || x in MatchReasons(child, parent) || (x.ScopeViolation? && !narrower)
  {
    StandingReports(x, parent, now);
    MatchReports(x, child, parent);
  }

  lemma StepReasons(x: Reason, child: Token, parent: Token, now: int)
    ensures var r := LinkReasons(child, parent, now);
      && (r.Report? <==> Decodes(child) && Decodes(parent))
      && (r.Report? ==> (x in r.reasons <==> StepFault(x, child, parent, now)))
  {
    if Decodes(child) && Decodes(parent) {
      var shrinks := ScopeShrinks(child, parent);
      ScopeReports(child, parent);
      StepFaults(x, child, parent, now, shrinks);
      LinkMembers(x, StandingReasons(parent, now), MatchReasons(child, parent), shrinks);
    }
  }

  ghost function Met(p: seq<string>, j: nat): set<string>
    requires j <= |p|
  {
    set i | 0 <= i < j :: p[i]
  }

  lemma WalkGoesOn(tokens: Tokens, p: seq<string>, j: nat, seen: set<string>, now: int)
    requires Climbs(tokens, p) && j + 1 < |p| && seen == Met(p, j + 1)
    ensures seen + {p[j + 1]} == Met(p, j + 2)
    ensures WalkFrom(tokens, p[j], seen, now)
      == Join(LinkReasons(tokens[p[j]], tokens[p[j + 1]], now), WalkFrom(tokens, p[j + 1], seen + {p[j + 1]}, now))
  {
    assert p[j + 1] !in seen && ChildOfNext(tokens, p, j);
  }

  lemma WalkStops(tokens: Tokens, p: seq<string>, seen: set<string>, now: int, x: Reason)
    requires Trail(tokens, p) && seen == Met(p, |p|)
    ensures var r := WalkFrom(tokens, p[|p| - 1], seen, now);
      r.Report? && (x in r.reasons <==> EndFault(x, tokens, p))
  {
    var parent := Top(tokens, p);
    assert parent in p <==> parent in seen;
  }

  lemma JoinedReports(x: Reason, a: Outcome, b: Outcome)
    ensures var r := Join(a, b);
      && (r.Report? <==> a.Report? && b.Report?)
      && (r.Report? ==> (x in r.reasons <==> x in a.reasons || x in b.reasons))
  {
  }

  lemma {:induction false} WalkReports(tokens: Tokens, p: seq<string>, j: nat, seen: set<string>, now: int, x: Reason)
    requires Trail(tokens, p) && j < |p| && seen == Met(p, j + 1)
    ensures var r := WalkFrom(tokens, p[j], seen, now);
      && (r.Report? <==> ReadableFrom(tokens, p, j))
      && (r.Report? ==> (x in r.reasons <==> EndFault(x, tokens, p) || FaultyFrom(x, tokens, p, j, now)))
    decreases |p| - j
  {
    if j + 1 < |p| {
      var link := LinkReasons(tokens[p[j]], tokens[p[j + 1]], now);
      var rest := WalkFrom(tokens, p[j + 1], seen + {p[j + 1]}, now);
      WalkGoesOn(tokens, p, j, seen, now);
      WalkReports(tokens, p, j + 1, seen + {p[j + 1]}, now, x);
      StepReasons(x, tokens[p[j]], tokens[p[j + 1]], now);
      JoinedReports(x, link, rest);
      OneStepFurther(x, tokens, p, j, now);
    } else {
      WalkStops(tokens, p, seen, now, x);
    }
  }

  lemma OneStepFurther(x: Reason, tokens: Tokens, p: seq<string>, j: nat, now: int)
    requires Climbs(tokens, p) && j + 1 < |p|
    ensures ReadableFrom(tokens, p, j) <==> Readable(tokens, p, j + 1) && ReadableFrom(tokens, p, j + 1)
    ensures FaultyFrom(x, tokens, p, j, now) <==>
      FaultyStep(x, tokens, p, j + 1, now) || FaultyFrom(x, tokens, p, j + 1, now)
  {
  }

  lemma OwnReports(x: Reason, t: Token, e: Escrow, now: int)
    ensures x in OwnReasons(t, e, now) <==> OwnFault(x, t, e, now)
  {
  }

  lemma FirstIsMet(p: seq<string>)
    requires p != []
    ensures Met(p, 1) == {p[0]}
  {
  }

  /** The fault is the token's own or its escrow's, that of some step of its trail, or of the trail's end. */
  ghost predicate Faulty(x: Reason, tokens: Tokens, e: Escrow, p: seq<string>, now: int)
    requires Climbs(tokens, p)
  {
    OwnFault(x, tokens[p[0]], e, now) || FaultyFrom(x, tokens, p, 0, now) || EndFault(x, tokens, p)
  }

  lemma FaultsAreReported(x: Reason, tokens: Tokens, e: Escrow, p: seq<string>, now: int)
    requires Trail(tokens, p)
    ensures var r := Join(Report(OwnReasons(tokens[p[0]], e, now)), WalkFrom(tokens, p[0], {p[0]}, now));
      && (r.Report? <==> ReadableFrom(tokens, p, 0))
      && (r.Report? ==> (x in r.reasons <==> Faulty(x, tokens, e, p, now)))
  {
    FirstIsMet(p);
    WalkReports(tokens, p, 0, {p[0]}, now, x);
    OwnReports(x, tokens[p[0]], e, now);
    JoinedReports(x, Report(OwnReasons(tokens[p[0]], e, now)), WalkFrom(tokens, p[0], {p[0]}, now));
  }

  /** Introspection fails exactly for an unknown id, a wrong secret, an unknown escrow or scopes on the trail that do
      not decode; otherwise it reports a reason exactly when the token or its escrow has that fault, some step of its
      trail has, or the trail ends in it. */
  lemma ReasonsAreExact(tokens: Tokens, escrows: Escrows, secret: string, now: int, p: seq<string>, x: Reason)
    requires Trail(tokens, p)
    ensures var r, t := Introspection(tokens, escrows, p[0], secret, now), tokens[p[0]];
      && (r.Report? <==> secret == t.secret && t.escrow in escrows && ReadableFrom(tokens, p, 0))
      && (r.Report? ==> (x in r.reasons <==> Faulty(x, tokens, escrows[t.escrow], p, now)))
  {
    if tokens[p[0]].escrow in escrows { FaultsAreReported(x, tokens, escrows[tokens[p[0]].escrow], p, now); }
  }

  // ---- freezing and resolving

  /** Every token of the escrow is revoked, for this reason unless it was before, and no other token changes. */
  ghost predicate Swept(before: Tokens, after: Tokens, escrow: int, at: int, reason: string, actor: string) {
    && after.Keys == before.Keys
    && forall id :: id in before ==>
         after[id] == if before[id].escrow == escrow && before[id].revoked == None
                      then before[id].(revoked := Some(Revocation(at, reason, actor)))
                      else before[id]
  }

  /** Neither of them is changed but for this escrow. */
  ghost predicate SameElsewhere(before: Escrows, after: Escrows, escrow: int) {
    after.Keys == before.Keys && forall e :: e in before && e != escrow ==> after[e] == before[e]
  }

  /** Nothing can be done with the escrow's tokens: none is active, none is minted, and none delegated. */
  ghost predicate Stopped(s: State, escrow: int) {
    && (forall id :: id in s.tokens && s.tokens[id].escrow == escrow ==> !Active(s.tokens, s.escrows, id, s.now))
    && (forall r: Request :: !MintGranted(s.escrows, escrow, r, true, s.now))
    && (forall parent: string, secret: string, r: Request ::
          parent in s.tokens && s.tokens[parent].escrow == escrow ==>
            !DelegationGranted(s.tokens, s.escrows, parent, secret, r, true, s.now))
  }

  lemma InactiveEscrowStops(s: State, escrow: int)
    requires escrow !in s.escrows || !Operating(s.escrows, escrow)
    ensures Stopped(s, escrow)
  {
  }

  /** A freeze marks the escrow frozen, and nothing else of it or of any other, and revokes its tokens; nothing can be
      done with them then. */
  lemma FreezeStops(s: State, escrow: int)
    ensures var t := Step(s, Freeze(escrow));
      && t.now == s.now && t.pending == s.pending && SameElsewhere(s.escrows, t.escrows, escrow)
      && (escrow in s.escrows ==> t.escrows[escrow] == Escrow(true, s.escrows[escrow].status))
      && Swept(s.tokens, t.tokens, escrow, s.now, "escrow_frozen", "emergency")
      && Stopped(t, escrow)
  {
    InactiveEscrowStops(Step(s, Freeze(escrow)), escrow);
  }

  /** An emergency resolve settles the escrow for good, likewise. */
  lemma ResolveStops(s: State, escrow: int)
    ensures var t := Step(s, Resolve(escrow));
      && t.now == s.now && t.pending == s.pending && SameElsewhere(s.escrows, t.escrows, escrow)
      && (escrow in s.escrows ==> t.escrows[escrow] == Escrow(s.escrows[escrow].frozen, Resolved))
      && Swept(s.tokens, t.tokens, escrow, s.now, "emergency_resolve", "emergency")
      && Stopped(t, escrow)
  {
    InactiveEscrowStops(Step(s, Resolve(escrow)), escrow);
  }
}
