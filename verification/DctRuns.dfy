/** Tokens over any run: minting and delegating, each a check and a later insert with anything in
    between; revocations, freezes and other changes of escrows; time that does not go back. */
module DctRuns {
  import opened Common
  import opened Text
  import opened Dct
  import opened DctStore

  /** pending holds the rows that passed their checks and are not inserted yet, by their new ids. */
  datatype State = State(tokens: Tokens, escrows: Escrows, now: int, pending: map<string, Token>)

  const Start := State(map[], map[], 0, map[])

  datatype Action =
    | Mint(id: string, escrow: int, r: Request, secret: string, allowed: bool)
    | Delegate(id: string, parentId: string, parentSecret: string, r: Request, secret: string, allowed: bool)
    | Insert(id: string)
    | RevokeToken(id: string, rev: Revocation)
    | RevokeByEscrow(escrow: int, rev: Revocation)
    | Freeze(escrow: int)
    | Resolve(escrow: int)
    | SetEscrow(escrow: int, row: Escrow)
    | Wait(seconds: nat)

  /** Ids are random, and so new. */
  function Await(s: State, id: string, row: Option<Token>): State {
    if row.Some? && id != "" && id !in s.pending && id !in s.tokens
    then s.(pending := s.pending[id := row.value]) else s
  }

  function InsertStep(s: State, id: string): State {
    if id !in s.pending then s
    else if id in s.tokens then s.(pending := s.pending - {id})
    else s.(tokens := s.tokens[id := s.pending[id]], pending := s.pending - {id})
  }

  function FreezeStep(s: State, escrow: int): State {
    s.(escrows := if escrow in s.escrows then s.escrows[escrow := s.escrows[escrow].(frozen := true)] else s.escrows,
       tokens := RevokeAll(s.tokens, escrow, FrozenAt(s.now)))
  }

  function ResolveStep(s: State, escrow: int): State {
    s.(escrows := if escrow in s.escrows
                  then s.escrows[escrow := s.escrows[escrow].(status := Resolved)] else s.escrows,
       tokens := RevokeAll(s.tokens, escrow, ResolvedAt(s.now)))
  }

  function Step(s: State, a: Action): State {
    match a
    case Mint(id, escrow, r, secret, allowed) => Await(s, id, CheckMint(s.escrows, escrow, r, secret, allowed, s.now))
    case Delegate(id, parentId, parentSecret, r, secret, allowed) =>
      Await(s, id, CheckDelegate(s.tokens, s.escrows, parentId, parentSecret, r, secret, allowed, s.now))
    case Insert(id) => InsertStep(s, id)
    case RevokeToken(id, rev) => s.(tokens := RevokeOne(s.tokens, id, rev))
    case RevokeByEscrow(escrow, rev) => s.(tokens := RevokeAll(s.tokens, escrow, rev))
    case Freeze(escrow) => FreezeStep(s, escrow)
    case Resolve(escrow) => ResolveStep(s, escrow)
    case SetEscrow(escrow, row) => s.(escrows := s.escrows[escrow := row])
    case Wait(seconds) => s.(now := s.now + seconds)
  }

  function Exec(s: State, schedule: seq<Action>): State {
    if schedule == [] then s
    else Step(Exec(s, schedule[..|schedule| - 1]), schedule[|schedule| - 1])
  }

  // ---- revocation is permanent and inherited

  /** The row is the same, but that it may have been revoked since. */
  ghost predicate SameButRevoked(t: Token, u: Token) {
    u == t.(revoked := u.revoked) && (t.revoked.Some? ==> u.revoked == t.revoked)
  }

  ghost predicate Extends(before: Tokens, after: Tokens) {
    forall id :: id in before ==> id in after && SameButRevoked(before[id], after[id])
  }

  lemma RevokingExtends(tokens: Tokens, id: string, escrow: int, rev: Revocation)
    ensures Extends(tokens, RevokeOne(tokens, id, rev)) && Extends(tokens, RevokeAll(tokens, escrow, rev))
  {
  }

  lemma InsertExtends(s: State, id: string)
    ensures Extends(s.tokens, InsertStep(s, id).tokens)
  {
  }

  lemma AwaitKeepsTokens(s: State, id: string, row: Option<Token>)
    ensures Await(s, id, row).tokens == s.tokens
  {
  }

  lemma StepExtends(s: State, a: Action)
    ensures Extends(s.tokens, Step(s, a).tokens)
  {
    match a
    case Mint(id, escrow, r, secret, allowed) =>
      AwaitKeepsTokens(s, id, CheckMint(s.escrows, escrow, r, secret, allowed, s.now));
    case Delegate(id, parentId, parentSecret, r, secret, allowed) =>
      AwaitKeepsTokens(s, id, CheckDelegate(s.tokens, s.escrows, parentId, parentSecret, r, secret, allowed, s.now));
    case Insert(id) => InsertExtends(s, id);
    case RevokeToken(id, rev) => RevokingExtends(s.tokens, id, 0, rev);
    case RevokeByEscrow(escrow, rev) => RevokingExtends(s.tokens, "", escrow, rev);
    case Freeze(escrow) => RevokingExtends(s.tokens, "", escrow, FrozenAt(s.now));
    case Resolve(escrow) => RevokingExtends(s.tokens, "", escrow, ResolvedAt(s.now));
    case _ =>
  }

  lemma {:induction false} RunExtends(s: State, more: seq<Action>)
    ensures Extends(s.tokens, Exec(s, more).tokens)
  {
    if more != [] {
      RunExtends(s, more[..|more| - 1]);
      StepExtends(Exec(s, more[..|more| - 1]), more[|more| - 1]);
    }
  }

  lemma RevokedAncestorDeactivates(tokens: Tokens, escrows: Escrows, p: seq<string>, k: nat, now: int)
    requires Lineage(tokens, p) && k < |p| && p[k] in tokens && tokens[p[k]].revoked.Some?
    ensures !Active(tokens, escrows, p[0], now)
  {
    if Active(tokens, escrows, p[0], now) { ActiveAncestorsAreUnrevoked(tokens, escrows, p, k, now); }
  }

  lemma ActiveAncestorsAreUnrevoked(tokens: Tokens, escrows: Escrows, p: seq<string>, k: nat, now: int)
    requires Lineage(tokens, p) && k < |p| && Active(tokens, escrows, p[0], now)
    ensures p[k] in tokens && tokens[p[k]].revoked.None?
  {
    if k > 0 { ActiveTokensAttenuate(tokens, escrows, p[0], p, k, now); }
    ActiveIsUnrevoked(tokens, escrows, p[k], now);
  }

  lemma ActiveIsUnrevoked(tokens: Tokens, escrows: Escrows, id: string, now: int)
    requires Active(tokens, escrows, id, now)
    ensures id in tokens && tokens[id].revoked.None?
  {
    var p :| SoundFrom(tokens, p, id, now);
  }

  /** From any state on, a revoked token stays revoked, with its first revocation on record, and neither
      it nor any token below it is ever active again. */
  lemma RevocationIsForever(s: State, more: seq<Action>, revoked: string, p: seq<string>)
    requires revoked in s.tokens && s.tokens[revoked].revoked.Some?
    requires var t := Exec(s, more); Lineage(t.tokens, p) && revoked in p
    ensures var t := Exec(s, more);
      && revoked in t.tokens && t.tokens[revoked].revoked == s.tokens[revoked].revoked
      && !Active(t.tokens, t.escrows, p[0], t.now)
  {
    RunExtends(s, more);
    var t := Exec(s, more);
    assert SameButRevoked(s.tokens[revoked], t.tokens[revoked]);
    var k :| 0 <= k < |p| && p[k] == revoked;
    RevokedAncestorDeactivates(t.tokens, t.escrows, p, k, t.now);
  }

  /** The step revokes every token of an escrow. */
  predicate Sweeps(a: Action, escrow: int) {
    (a.RevokeByEscrow? || a.Freeze? || a.Resolve?) && a.escrow == escrow
  }

  /** After RevokeByEscrow, a freeze or an emergency resolve, every token the escrow had in the table and
      every token ever made below one of them is inactive for good, thawed or not. */
  lemma SweptTokensNeverReturn(s: State, a: Action, more: seq<Action>, swept: string, p: seq<string>)
    requires swept in s.tokens && Sweeps(a, s.tokens[swept].escrow)
    requires var t := Exec(Step(s, a), more); Lineage(t.tokens, p) && swept in p
    ensures var t := Exec(Step(s, a), more); !Active(t.tokens, t.escrows, p[0], t.now)
  {
    RevocationIsForever(Step(s, a), more, swept, p);
  }

  // ---- the shape of lineages

  /** The lists are canonical and not empty. */
  ghost predicate ScopesOk(t: Token) {
    && Decodes(t) && t.ops.value != [] && t.resources.value != []
    && Canonicalize(t.ops.value) == t.ops.value && Canonicalize(t.resources.value) == t.resources.value
  }

  /** A child strictly attenuates its parent, one level below it, in the same escrow. */
  ghost predicate Attenuates(child: Token, parent: Token)
    requires ScopesOk(child) && ScopesOk(parent)
  {
    && StrictAttenuation(child.ops.value, parent.ops.value, child.resources.value, parent.resources.value,
                         child.expiresAt, parent.expiresAt)
    && child.escrow == parent.escrow && child.depth == parent.depth + 1
  }

  ghost predicate RowOk(tokens: Tokens, escrows: Escrows, t: Token) {
    && t.canonical && ScopesOk(t) && t.depth >= 0 && t.expiresAt > 0 && t.escrow in escrows
    && if t.parent == "" then t.depth == 0
       else t.parent in tokens && ScopesOk(tokens[t.parent]) && Attenuates(t, tokens[t.parent])
  }

  ghost predicate Inv(s: State) {
    && s.now >= 0 && "" !in s.tokens && "" !in s.pending && s.tokens.Keys !! s.pending.Keys
    && (forall id {:trigger RowOk(s.tokens, s.escrows, s.tokens[id])} ::
          id in s.tokens ==> RowOk(s.tokens, s.escrows, s.tokens[id]))
    && (forall id {:trigger RowOk(s.tokens, s.escrows, s.pending[id])} ::
          id in s.pending ==> RowOk(s.tokens, s.escrows, s.pending[id]) && s.pending[id].revoked.None?)
  }

  /** A row stays in order when tokens are added or revoked and escrows are added or changed. */
  lemma RowStaysOk(before: Tokens, after: Tokens, escrows: Escrows, later: Escrows, t: Token, u: Token)
    requires RowOk(before, escrows, t) && Extends(before, after) && escrows.Keys <= later.Keys && SameButRevoked(t, u)
    ensures RowOk(after, later, u)
  {
    if t.parent != "" { assert SameButRevoked(before[t.parent], after[t.parent]); }
  }

  /** Rows that are old ones, or pending ones, keep the invariant. */
  lemma KeepsInv(s: State, t: State)
    requires Inv(s) && Extends(s.tokens, t.tokens) && s.escrows.Keys <= t.escrows.Keys && t.now >= s.now
    requires "" !in t.tokens && "" !in t.pending && t.tokens.Keys !! t.pending.Keys
    requires forall id :: id in t.tokens && id !in s.tokens ==> id in s.pending && t.tokens[id] == s.pending[id]
    requires forall id :: id in t.pending ==> id in s.pending && t.pending[id] == s.pending[id]
    ensures Inv(t)
  {
    forall id | id in t.tokens ensures RowOk(t.tokens, t.escrows, t.tokens[id]) {
      if id in s.tokens {
        assert RowOk(s.tokens, s.escrows, s.tokens[id]);
        RowStaysOk(s.tokens, t.tokens, s.escrows, t.escrows, s.tokens[id], t.tokens[id]);
      } else {
        assert RowOk(s.tokens, s.escrows, s.pending[id]);
        RowStaysOk(s.tokens, t.tokens, s.escrows, t.escrows, s.pending[id], t.tokens[id]);
      }
    }
    forall id | id in t.pending ensures RowOk(t.tokens, t.escrows, t.pending[id]) && t.pending[id].revoked.None? {
      assert RowOk(s.tokens, s.escrows, s.pending[id]);
      RowStaysOk(s.tokens, t.tokens, s.escrows, t.escrows, s.pending[id], t.pending[id]);
    }
  }

  lemma MintIsOk(s: State, escrow: int, r: Request, secret: string, allowed: bool)
    requires CheckMint(s.escrows, escrow, r, secret, allowed, s.now).Some?
    ensures var row := CheckMint(s.escrows, escrow, r, secret, allowed, s.now).value;
      RowOk(s.tokens, s.escrows, row) && row.revoked.None?
  {
    CanonicalizeTwice(r.ops);
    CanonicalizeTwice(r.resources);
  }

  lemma AttenuatedIsOk(s: State, parentId: string, r: Request, secret: string)
    requires Inv(s) && parentId in s.tokens && Decodes(s.tokens[parentId])
    requires var parent := s.tokens[parentId];
      Attenuate(parentId, parent, Canonicalize(parent.ops.value), Canonicalize(parent.resources.value), r,
                Canonicalize(r.ops), Canonicalize(r.resources), secret, s.now).Some?
    ensures RowOk(s.tokens, s.escrows,
      DelegateRow(parentId, s.tokens[parentId], r, Canonicalize(r.ops), Canonicalize(r.resources), secret))
  {
    CanonicalizeTwice(r.ops);
    CanonicalizeTwice(r.resources);
    assert RowOk(s.tokens, s.escrows, s.tokens[parentId]);
  }

  lemma DelegateIsOk(s: State, parentId: string, parentSecret: string, r: Request, secret: string, allowed: bool)
    requires Inv(s) && CheckDelegate(s.tokens, s.escrows, parentId, parentSecret, r, secret, allowed, s.now).Some?
    ensures var row := CheckDelegate(s.tokens, s.escrows, parentId, parentSecret, r, secret, allowed, s.now).value;
      RowOk(s.tokens, s.escrows, row) && row.revoked.None?
  {
    AttenuatedIsOk(s, parentId, r, secret);
  }

  lemma AwaitKeepsInv(s: State, id: string, row: Option<Token>)
    requires Inv(s) && (row.Some? ==> RowOk(s.tokens, s.escrows, row.value) && row.value.revoked.None?)
    ensures Inv(Await(s, id, row))
  {
  }

  lemma StepKeepsInv(s: State, a: Action)
    requires Inv(s)
    ensures Inv(Step(s, a))
  {
    StepExtends(s, a);
    match a
    case Mint(id, escrow, r, secret, allowed) =>
      var row := CheckMint(s.escrows, escrow, r, secret, allowed, s.now);
      if row.Some? { MintIsOk(s, escrow, r, secret, allowed); }
      AwaitKeepsInv(s, id, row);
    case Delegate(id, parentId, parentSecret, r, secret, allowed) =>
      var row := CheckDelegate(s.tokens, s.escrows, parentId, parentSecret, r, secret, allowed, s.now);
      if row.Some? { DelegateIsOk(s, parentId, parentSecret, r, secret, allowed); }
      AwaitKeepsInv(s, id, row);
    case Insert(id) => KeepsInv(s, InsertStep(s, id));
    case _ => SweepKeepsInv(s, a);
  }

  lemma SweepKeepsInv(s: State, a: Action)
    requires Inv(s) && !a.Mint? && !a.Delegate? && !a.Insert? && Extends(s.tokens, Step(s, a).tokens)
    ensures Inv(Step(s, a))
  {
    KeepsInv(s, Step(s, a));
  }

  lemma {:induction false} InvAlways(schedule: seq<Action>)
    ensures Inv(Exec(Start, schedule))
  {
    if schedule != [] {
      InvAlways(schedule[..|schedule| - 1]);
      StepKeepsInv(Exec(Start, schedule[..|schedule| - 1]), schedule[|schedule| - 1]);
    }
  }

  // ---- what holds of every lineage in a run

  /** Operations, resources and seconds of life: what every delegation spends. */
  ghost function Measure(t: Token): int
    requires Decodes(t)
  {
    |t.ops.value| + |t.resources.value| + t.expiresAt
  }

  lemma TokenFacts(s: State, id: string)
    requires Inv(s) && id in s.tokens
    ensures Decodes(s.tokens[id]) && s.tokens[id].depth >= 0
    ensures s.tokens[id].parent == "" ==> s.tokens[id].depth == 0
  {
    assert RowOk(s.tokens, s.escrows, s.tokens[id]);
  }

  lemma DelegationSpends(s: State, id: string)
    requires Inv(s) && id in s.tokens && s.tokens[id].parent != ""
    ensures s.tokens[id].parent in s.tokens
    ensures var child, parent := s.tokens[id], s.tokens[s.tokens[id].parent];
      child.depth == parent.depth + 1 && Decodes(child) && Decodes(parent) && Measure(child) < Measure(parent)
  {
    assert RowOk(s.tokens, s.escrows, s.tokens[id]);
  }

  /** Every token has a way up to a root; its depth is the length of that way, and each delegation on it
      has spent some of the root's scopes or life. */
  lemma {:induction false} DepthIsDistanceToRoot(s: State, id: string) returns (p: seq<string>)
    requires Inv(s) && id in s.tokens
    ensures Lineage(s.tokens, p) && p[0] == id && |p| == s.tokens[id].depth + 1
    ensures p[|p| - 1] in s.tokens && Decodes(s.tokens[id]) && Decodes(s.tokens[p[|p| - 1]])
    ensures Measure(s.tokens[id]) + s.tokens[id].depth <= Measure(s.tokens[p[|p| - 1]])
    decreases s.tokens[id].depth
  {
    TokenFacts(s, id);
    var parent := s.tokens[id].parent;
    if parent == "" {
      p := [id];
    } else {
      DelegationSpends(s, id);
      TokenFacts(s, parent);
      var q := DepthIsDistanceToRoot(s, parent);
      p := [id] + q;
      assert p[1..] == q;
    }
  }

  /** A chain of delegations is shorter than what its root had to spend. */
  lemma ChainsAreBounded(schedule: seq<Action>, p: seq<string>)
    requires Lineage(Exec(Start, schedule).tokens, p)
    ensures var tokens := Exec(Start, schedule).tokens;
      && p[|p| - 1] in tokens && Decodes(tokens[p[|p| - 1]])
      && |p| - 1 == tokens[p[0]].depth
      && |p| + 2 <= Measure(tokens[p[|p| - 1]])
  {
    InvAlways(schedule);
    var s := Exec(Start, schedule);
    var q := DepthIsDistanceToRoot(s, p[0]);
    LineageIsUnique(s.tokens, p, q);
    assert RowOk(s.tokens, s.escrows, s.tokens[p[0]]);
  }

  /** The reasons that depend only on how a lineage was made. */
  predicate Structural(r: Reason) {
    || r.NonCanonical? || r.MissingAncestor? || r.LineageCycle? || r.AncestorNonCanonical?
    || r.EscrowMismatch? || r.ExpiryViolation? || r.ScopeViolation?
  }

  lemma AttenuatingShrinks(child: Token, parent: Token)
    requires ScopesOk(child) && ScopesOk(parent) && Attenuates(child, parent)
    ensures ScopeShrinks(child, parent)
  {
  }

  lemma LinkIsStructurallySound(s: State, child: Token)
    requires Inv(s) && RowOk(s.tokens, s.escrows, child) && child.parent != ""
    ensures var r := LinkReasons(child, s.tokens[child.parent], s.now);
      && r.Report? && (forall x :: x in r.reasons ==> !Structural(x))
      && (AncestorExpired in r.reasons ==> child.expiresAt <= s.now)
  {
    var parent := s.tokens[child.parent];
    assert parent.canonical by { assert RowOk(s.tokens, s.escrows, parent); }
    AttenuatingShrinks(child, parent);
    LinkFaults(child, parent, s.now);
  }

  lemma StandingFaults(parent: Token, now: int)
    requires parent.canonical
    ensures forall x :: x in StandingReasons(parent, now) ==> !Structural(x)
    ensures AncestorExpired in StandingReasons(parent, now) ==> parent.expiresAt <= now
  {
  }

  lemma MatchFaults(child: Token, parent: Token)
    requires child.escrow == parent.escrow && child.expiresAt <= parent.expiresAt
    ensures forall x :: x in MatchReasons(child, parent) ==> x == IssuerMismatch
  {
    var mismatch := !SameText(child.issuer, parent.subject);
    assert MatchReasons(child, parent) == When(mismatch, IssuerMismatch);
  }

  lemma LinkFaults(child: Token, parent: Token, now: int)
    requires parent.canonical && child.escrow == parent.escrow && child.expiresAt <= parent.expiresAt
    requires Decodes(child) && Decodes(parent) && ScopeShrinks(child, parent)
    ensures var r := LinkReasons(child, parent, now);
      && r.Report? && (forall x :: x in r.reasons ==> !Structural(x))
      && (AncestorExpired in r.reasons ==> child.expiresAt <= now)
  {
    StandingFaults(parent, now);
    MatchFaults(child, parent);
    assert LinkReasons(child, parent, now) ==
      Report(StandingReasons(parent, now) + MatchReasons(child, parent) + When(false, ScopeViolation));
  }

  lemma {:induction false} WalkIsStructurallySound(s: State, p: seq<string>, seen: set<string>)
    requires Inv(s) && Lineage(s.tokens, p) && forall i :: 1 <= i < |p| ==> p[i] !in seen
    ensures var r := WalkFrom(s.tokens, p[0], seen, s.now);
      && r.Report? && (forall x :: x in r.reasons ==> !Structural(x))
      && (AncestorExpired in r.reasons ==> s.tokens[p[0]].expiresAt <= s.now)
    decreases |p|
  {
    assert RowOk(s.tokens, s.escrows, s.tokens[p[0]]);
    if |p| > 1 {
      LineageIsDistinct(s.tokens, p);
      forall i | 1 <= i < |p[1..]| ensures p[1..][i] !in seen + {p[1]} {
        assert p[1..][i] == p[i + 1] && p[1] != p[i + 1];
      }
      WalkIsStructurallySound(s, p[1..], seen + {p[1]});
      LinkIsStructurallySound(s, s.tokens[p[0]]);
    }
  }

  /** On tokens made by Mint and Delegate, introspection fails only for an unknown id or a wrong secret;
      it never reports a profile, gap, cycle, escrow, expiry-order or scope fault; and an expired ancestor
      only where the token itself has expired. */
  lemma NoStructuralFaults(schedule: seq<Action>, id: string, secret: string)
    ensures var s := Exec(Start, schedule);
      var r := Introspection(s.tokens, s.escrows, id, secret, s.now);
      && (r.Error? <==> id !in s.tokens || s.tokens[id].secret != secret)
      && (r.Report? ==> forall x :: x in r.reasons ==> !Structural(x))
      && (r.Report? && AncestorExpired in r.reasons ==> Expired in r.reasons)
  {
    InvAlways(schedule);
    var s := Exec(Start, schedule);
    if id in s.tokens && s.tokens[id].secret == secret {
      WholeWalk(s, id);
      var own := OwnReasons(s.tokens[id], s.escrows[s.tokens[id].escrow], s.now);
      var walk := WalkFrom(s.tokens, id, {id}, s.now);
      OwnFaults(s.tokens[id], s.escrows[s.tokens[id].escrow], s.now);
      assert Introspection(s.tokens, s.escrows, id, secret, s.now) == Report(own + walk.reasons);
    }
  }

  lemma WholeWalk(s: State, id: string)
    requires Inv(s) && id in s.tokens
    ensures s.tokens[id].canonical && s.tokens[id].escrow in s.escrows
    ensures var r := WalkFrom(s.tokens, id, {id}, s.now);
      && r.Report? && (forall x :: x in r.reasons ==> !Structural(x))
      && (AncestorExpired in r.reasons ==> s.tokens[id].expiresAt <= s.now)
  {
    assert RowOk(s.tokens, s.escrows, s.tokens[id]);
    var p := DepthIsDistanceToRoot(s, id);
    LineageIsDistinct(s.tokens, p);
    WalkIsStructurallySound(s, p, {id});
  }

  lemma OwnFaults(t: Token, e: Escrow, now: int)
    requires t.canonical
    ensures forall x :: x in OwnReasons(t, e, now) ==> !Structural(x) && x != AncestorExpired
    ensures t.expiresAt <= now ==> Expired in OwnReasons(t, e, now)
  {
  }

  // ---- what a sweep can miss

  /** A row that passed its checks is inserted as it is, or still pending. */
  ghost predicate Lands(s: State, id: string, row: Token) {
    if id in s.tokens then SameButRevoked(row, s.tokens[id]) else id in s.pending && s.pending[id] == row
  }

  lemma AwaitSparesPending(s: State, other: string, row: Option<Token>, id: string)
    requires id in s.pending && id !in s.tokens
    ensures Lands(Await(s, other, row), id, s.pending[id])
  {
  }

  lemma OthersSparePending(s: State, a: Action, id: string)
    requires id in s.pending && id !in s.tokens && !a.Mint? && !a.Delegate?
    ensures Lands(Step(s, a), id, s.pending[id])
  {
  }

  lemma StepSparesPending(s: State, a: Action, id: string)
    requires id in s.pending && id !in s.tokens
    ensures Lands(Step(s, a), id, s.pending[id])
  {
    match a
    case Mint(other, escrow, r, secret, allowed) =>
      AwaitSparesPending(s, other, CheckMint(s.escrows, escrow, r, secret, allowed, s.now), id);
    case Delegate(other, parentId, parentSecret, r, secret, allowed) =>
      var row := CheckDelegate(s.tokens, s.escrows, parentId, parentSecret, r, secret, allowed, s.now);
      AwaitSparesPending(s, other, row, id);
    case _ => OthersSparePending(s, a, id);
  }

  lemma TimeGoesOn(s: State, a: Action)
    ensures Step(s, a).now >= s.now
  {
  }

  lemma StepKeepsLanding(s: State, a: Action, id: string, row: Token)
    requires Lands(s, id, row)
    ensures Lands(Step(s, a), id, row) && Step(s, a).now >= s.now
  {
    TimeGoesOn(s, a);
    if id in s.tokens {
      StepExtends(s, a);
      assert SameButRevoked(s.tokens[id], Step(s, a).tokens[id]);
    } else {
      StepSparesPending(s, a, id);
    }
  }

  lemma {:induction false} RunKeepsLanding(s: State, more: seq<Action>, id: string, row: Token)
    requires Lands(s, id, row)
    ensures Lands(Exec(s, more), id, row) && Exec(s, more).now >= s.now
  {
    if more != [] {
      var before, last := Exec(s, more[..|more| - 1]), more[|more| - 1];
      RunKeepsLanding(s, more[..|more| - 1], id, row);
      StepKeepsLanding(before, last, id, row);
      assert Exec(s, more) == Step(before, last);
    }
  }

  /** Some continuation of a run ends with the token active. */
  ghost predicate CanBecomeActive(s: State, id: string) {
    exists more :: ActiveIn(Exec(s, more), id)
  }

  ghost predicate ActiveIn(s: State, id: string) {
    Active(s.tokens, s.escrows, id, s.now)
  }

  lemma PendingFacts(s: State, id: string)
    requires Inv(s) && id in s.pending
    ensures s.pending[id].canonical && s.pending[id].revoked.None?
    ensures s.pending[id].parent != "" ==>
      s.pending[id].parent in s.tokens && s.tokens[s.pending[id].parent].escrow == s.pending[id].escrow
  {
    assert RowOk(s.tokens, s.escrows, s.pending[id]);
  }

  lemma SweepKeepsPending(s: State, a: Action, escrow: int)
    requires Sweeps(a, escrow)
    ensures Step(s, a).pending == s.pending && Step(s, a).now == s.now && Step(s, a).tokens.Keys == s.tokens.Keys
  {
  }

  /** A pending delegation cannot outlive the sweep of its parent. */
  lemma PendingDelegationIsSwept(s: State, a: Action, more: seq<Action>, id: string)
    requires Inv(s) && id in s.pending && id !in s.tokens && s.pending[id].parent != ""
    requires Sweeps(a, s.pending[id].escrow)
    ensures !ActiveIn(Exec(Step(s, a), more), id)
  {
    var t := Exec(Step(s, a), more);
    if ActiveIn(t, id) {
      PendingFacts(s, id);
      SweepKeepsPending(s, a, s.pending[id].escrow);
      RunKeepsLanding(Step(s, a), more, id, s.pending[id]);
      var p :| SoundFrom(t.tokens, p, id, t.now);
      assert p[1] == s.pending[id].parent;
      SweptTokensNeverReturn(s, a, more, p[1], p);
    }
  }

  lemma RootIsActive(tokens: Tokens, escrows: Escrows, id: string, now: int)
    requires id in tokens && tokens[id].parent == "" && tokens[id].canonical && tokens[id].revoked.None?
    requires tokens[id].expiresAt > now && tokens[id].escrow in escrows && !Inactive(escrows[tokens[id].escrow])
    ensures Active(tokens, escrows, id, now)
  {
    assert SoundFrom(tokens, [id], id, now);
  }

  /** The continuation in which a pending mint is inserted and its escrow made live again. */
  function InsertAndThaw(id: string, escrow: int): seq<Action> {
    [Insert(id), SetEscrow(escrow, Escrow(false, Live))]
  }

  lemma TwoSteps(s: State, a: Action, b: Action)
    ensures Exec(s, [a, b]) == Step(Step(s, a), b)
  {
    assert [a, b][..1] == [a] && [a][..0] == [];
    assert Exec(s, []) == s;
    assert Exec(s, [a]) == Step(s, a);
  }

  lemma InsertedAndThawed(s: State, id: string, row: Token)
    requires id in s.pending && s.pending[id] == row && id !in s.tokens
    requires row.parent == "" && row.canonical && row.revoked.None? && row.expiresAt > s.now
    ensures ActiveIn(Exec(s, InsertAndThaw(id, row.escrow)), id)
  {
    TwoSteps(s, Insert(id), SetEscrow(row.escrow, Escrow(false, Live)));
    var t := Step(Step(s, Insert(id)), SetEscrow(row.escrow, Escrow(false, Live)));
    assert t.tokens[id] == row && t.escrows[row.escrow] == Escrow(false, Live);
    RootIsActive(t.tokens, t.escrows, id, t.now);
  }

  /** What RevokeByEscrow, a freeze or an emergency resolve misses: of the rows that have passed their
      checks but are not inserted yet, exactly the unexpired mints can still become active, once the
      escrow is live. */
  lemma SweepMissesExactlyPendingMints(schedule: seq<Action>, a: Action, id: string)
    requires var s := Exec(Start, schedule);
      id in s.pending && Sweeps(a, s.pending[id].escrow)
    ensures var s := Exec(Start, schedule);
      CanBecomeActive(Step(s, a), id) <==> s.pending[id].parent == "" && s.pending[id].expiresAt > s.now
  {
    InvAlways(schedule);
    var s := Exec(Start, schedule);
    var row := s.pending[id];
    PendingFacts(s, id);
    SweepKeepsPending(s, a, row.escrow);
    if row.parent == "" && row.expiresAt > s.now {
      InsertedAndThawed(Step(s, a), id, row);
    }
    if more :| ActiveIn(Exec(Step(s, a), more), id) {
      RunKeepsLanding(Step(s, a), more, id, row);
      if row.parent != "" { PendingDelegationIsSwept(s, a, more, id); }
    }
  }

  /** A mint for a live escrow with something to grant waits for its insert. */
  lemma MintWaits(s: State, id: string, escrow: int, r: Request, secret: string)
    requires id != "" && id !in s.pending && id !in s.tokens && escrow > 0
    requires escrow in s.escrows && s.escrows[escrow] == Escrow(false, Live)
    requires TrimSpace(r.subject) != "" && Canonicalize(r.ops) != [] && Canonicalize(r.resources) != []
    requires r.expiresAt > s.now >= 0
    ensures var t := Step(s, Mint(id, escrow, r, secret, true));
      id in t.pending && t.pending[id] == MintRow(escrow, r, secret) && id !in t.tokens && t.now == s.now
  {
    MintIsGranted(s.escrows, escrow, r, secret, s.now);
    WaitsAs(s, id, MintRow(escrow, r, secret));
  }

  lemma MintIsGranted(escrows: Escrows, escrow: int, r: Request, secret: string, now: int)
    requires escrow > 0 && escrow in escrows && escrows[escrow] == Escrow(false, Live)
    requires TrimSpace(r.subject) != "" && Canonicalize(r.ops) != [] && Canonicalize(r.resources) != []
    requires r.expiresAt > now >= 0
    ensures CheckMint(escrows, escrow, r, secret, true, now) == Some(MintRow(escrow, r, secret))
  {
  }

  lemma WaitsAs(s: State, id: string, row: Token)
    requires id != "" && id !in s.pending && id !in s.tokens
    ensures var t := Await(s, id, Some(row));
      id in t.pending && t.pending[id] == row && id !in t.tokens && t.now == s.now
  {
  }

  /** Such a run from the start: a mint passes its checks, its escrow is frozen, the row is inserted and
      the escrow thawed; the token is active. */
  lemma MintInFlightEscapesFreeze()
    ensures var r := Request("worker", "", ["pay"], ["work"], 100);
      var before := [SetEscrow(1, Escrow(false, Live)), Mint("dct_1", 1, r, "secret", true)];
      ActiveIn(Exec(Step(Exec(Start, before), Freeze(1)), InsertAndThaw("dct_1", 1)), "dct_1")
  {
    var r := Request("worker", "", ["pay"], ["work"], 100);
    VisibleName(r.subject, 'w');
    OneNameStays("pay", 'p');
    OneNameStays("work", 'w');
    LiveEscrowAtStart("dct_1", r, "secret");
    MintThenFreeze(Exec(Start, [SetEscrow(1, Escrow(false, Live)), Mint("dct_1", 1, r, "secret", true)]), "dct_1",
                   MintRow(1, r, "secret"));
  }

  /** Row r waits under id, at time 0. */
  ghost predicate WaitsFirst(s: State, id: string, row: Token) {
    id in s.pending && s.pending[id] == row && id !in s.tokens && s.now == 0
  }

  function WithLiveEscrow(): State { Step(Start, SetEscrow(1, Escrow(false, Live))) }

  lemma OneLiveEscrow()
    ensures var s := WithLiveEscrow();
      1 in s.escrows && s.escrows[1] == Escrow(false, Live) && s.now == 0 && s.tokens == map[] && s.pending == map[]
  {
  }

  lemma LiveEscrowAtStart(id: string, r: Request, secret: string)
    requires id != "" && r.expiresAt > 0
    requires TrimSpace(r.subject) != "" && Canonicalize(r.ops) != [] && Canonicalize(r.resources) != []
    ensures WaitsFirst(Exec(Start, [SetEscrow(1, Escrow(false, Live)), Mint(id, 1, r, secret, true)]), id,
                       MintRow(1, r, secret))
  {
    TwoSteps(Start, SetEscrow(1, Escrow(false, Live)), Mint(id, 1, r, secret, true));
    OneLiveEscrow();
    MintWaits(WithLiveEscrow(), id, 1, r, secret);
  }

  lemma MintThenFreeze(s: State, id: string, row: Token)
    requires id in s.pending && s.pending[id] == row && id !in s.tokens
    requires row.parent == "" && row.canonical && row.revoked.None? && row.expiresAt > s.now
    ensures ActiveIn(Exec(Step(s, Freeze(row.escrow)), InsertAndThaw(id, row.escrow)), id)
  {
    SweepKeepsPending(s, Freeze(row.escrow), row.escrow);
    InsertedAndThawed(Step(s, Freeze(row.escrow)), id, row);
  }

  lemma VisibleName(name: string, c: char)
    requires c in name && !IsSpace(c)
    ensures TrimSpace(name) != ""
  {
    BlankMeansTrimmedAway(name);
  }

  lemma OneNameStays(name: string, c: char)
    requires c in name && !IsSpace(c) && LowerChar(c) == c
    ensures Canonicalize([name]) != []
  {
    LoweredKeeps(name, c);
    VisibleName(ToLower(name), c);
    CanonicalListsTheNames([name]);
    assert CleanAll([name])[0] == Clean(name);
  }

  lemma LoweredKeeps(name: string, c: char)
    requires c in name && LowerChar(c) == c
    ensures c in ToLower(name)
  {
    var i :| 0 <= i < |name| && name[i] == c;
    assert ToLower(name)[i] == c;
  }
}
