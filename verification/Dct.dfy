/** Delegation capability tokens: scope lists, the walk up a token's lineage, and introspection over
    any token table, lineages with gaps or cycles included.

    A presented token is its id and secret; the stored hash stands for the secret. A scope is the stored
    JSON list, or none where the text does not decode. */
module Dct {
  import opened Common
  import opened Sorting
  import opened Text

  // ---- scope lists

  function Clean(item: string): string { TrimSpace(ToLower(item)) }

  function CleanAll(items: seq<string>): seq<string> {
    seq(|items|, i requires 0 <= i < |items| => Clean(items[i]))
  }

  /** Drop blanks and repetitions. */
  function Dedupe(items: seq<string>): seq<string> {
    if items == [] then []
    else
      var before, v := Dedupe(items[..|items| - 1]), items[|items| - 1];
      if v == "" || v in before then before else before + [v]
  }

  function Canonicalize(items: seq<string>): seq<string> { SortStrings(Dedupe(CleanAll(items))) }

  lemma DedupeNext(items: seq<string>, i: nat)
    requires i < |items|
    ensures var kept := Dedupe(items[..i]);
      Dedupe(items[..i + 1]) == if items[i] == "" || items[i] in kept then kept else kept + [items[i]]
  {
    assert items[..i + 1][..i] == items[..i];
  }

  /** canonicalize. */
  method CanonicalizeItems(items: seq<string>) returns (out: seq<string>)
    ensures out == Canonicalize(items)
  {
    var seen: set<string> := {};
    ghost var cleaned := CleanAll(items);
    out := [];
    for i := 0 to |items|
      invariant out == Dedupe(cleaned[..i])
      invariant forall v :: v in seen <==> v in out
    {
      DedupeNext(cleaned, i);
      var v := Clean(items[i]);
      assert v == cleaned[i];
      if v == "" { continue; }
      if v in seen { continue; }
      seen := seen + {v};
      out := out + [v];
    }
    assert cleaned[..|items|] == cleaned;
    out := SortStrings(out);
  }

  lemma {:induction false} DedupeKeepsNames(items: seq<string>)
    ensures Distinct(Dedupe(items))
    ensures forall v :: v in Dedupe(items) <==> v != "" && v in items
  {
    if items != [] {
      var init, last := items[..|items| - 1], items[|items| - 1];
      DedupeKeepsNames(init);
      assert items == init + [last];
    }
  }

  /** A canonical list is sorted, without repetitions, and lists exactly the cleaned items but blanks. */
  lemma CanonicalListsTheNames(items: seq<string>)
    ensures SortedBy(StringLeq, Canonicalize(items)) && Distinct(Canonicalize(items))
    ensures forall v :: v in Canonicalize(items) <==> v != "" && v in CleanAll(items)
  {
    var names := Dedupe(CleanAll(items));
    DedupeKeepsNames(CleanAll(items));
    StringOrderIsTotal();
    SortSorts(StringLeq, names);
    SortKeepsDistinct(StringLeq, names);
    SameMembers(names, Canonicalize(items));
  }

  lemma {:induction false} DedupeFixes(items: seq<string>)
    requires "" !in items && Distinct(items)
    ensures Dedupe(items) == items
  {
    if items != [] {
      var init, last := items[..|items| - 1], items[|items| - 1];
      DedupeFixes(init);
      assert items == init + [last] && last !in init;
    }
  }

  lemma CleanTwice(items: seq<string>, v: string)
    requires v in CleanAll(items)
    ensures Clean(v) == v
  {
    var j :| 0 <= j < |items| && CleanAll(items)[j] == v;
    NormalizingTwice(items[j]);
  }

  /** Storing a scope and reading it back changes nothing: canonicalize is a projection. */
  lemma CanonicalizeTwice(items: seq<string>)
    ensures Canonicalize(Canonicalize(items)) == Canonicalize(items)
  {
    var c := Canonicalize(items);
    CanonicalListsTheNames(items);
    forall i | 0 <= i < |c| ensures Clean(c[i]) == c[i] {
      assert c[i] in c;
      CleanTwice(items, c[i]);
    }
    assert CleanAll(c) == c;
    DedupeFixes(c);
    StringOrderIsTotal();
    SortSorts(StringLeq, c);
    SortedIsUnique(StringLeq, SortStrings(c), c);
  }

  predicate IsSubset(sub: seq<string>, sup: seq<string>) {
    |sub| <= |sup| && forall v :: v in sub ==> v in sup
  }

  /** isSubset. */
  method CheckSubset(sub: seq<string>, sup: seq<string>) returns (ok: bool)
    ensures ok <==> IsSubset(sub, sup)
  {
    if |sub| > |sup| { return false; }
    var items: set<string> := {};
    for i := 0 to |sup|
      invariant forall v :: v in items <==> v in sup[..i]
    {
      assert sup[..i + 1] == sup[..i] + [sup[i]];
      items := items + {sup[i]};
    }
    assert sup[..|sup|] == sup;
    for i := 0 to |sub|
      invariant forall j :: 0 <= j < i ==> sub[j] in sup
    {
      if sub[i] !in items { return false; }
    }
    return true;
  }

  ghost function Members(s: seq<string>): set<string> { set v | v in s }

  lemma {:induction false} DistinctSize(s: seq<string>)
    requires Distinct(s)
    ensures |Members(s)| == |s|
  {
    if s != [] {
      var init, last := s[..|s| - 1], s[|s| - 1];
      DistinctSize(init);
      assert s == init + [last] && last !in init;
      assert Members(s) == Members(init) + {last};
    }
  }

  /** On lists without repetitions isSubset is set inclusion, and a shorter subset a proper one. */
  lemma SubsetIsInclusion(sub: seq<string>, sup: seq<string>)
    requires Distinct(sub) && Distinct(sup)
    ensures IsSubset(sub, sup) <==> Members(sub) <= Members(sup)
    ensures IsSubset(sub, sup) && |sub| < |sup| <==> Members(sub) < Members(sup)
  {
    DistinctSize(sub);
    DistinctSize(sup);
    if Members(sub) <= Members(sup) {
      SubsetIsNoLarger(Members(sub), Members(sup));
      forall v | v in sub ensures v in sup {
        assert v in Members(sub);
      }
      if |sub| == |sup| { EqualSizeSubset(Members(sub), Members(sup)); }
    }
    if IsSubset(sub, sup) { assert Members(sub) <= Members(sup); }
    if Members(sup) <= Members(sub) { SubsetIsNoLarger(Members(sup), Members(sub)); }
  }

  lemma EqualSizeSubset(a: set<string>, b: set<string>)
    requires a <= b && |a| == |b|
    ensures a == b
  {
    if x :| x in b && x !in a { SubsetIsNoLarger(a, b - {x}); }
  }

  // ---- tokens

  datatype EscrowStatus = Settled | Refunded | CancelledEscrow | Resolved | Live
  datatype Escrow = Escrow(frozen: bool, status: EscrowStatus)

  predicate Inactive(e: Escrow) { e.frozen || e.status != Live }

  datatype Revocation = Revocation(at: int, reason: string, actor: string)

  /** A token row; a parent id of "" marks a root. */
  datatype Token = Token(
    secret: string,
    parent: string,
    escrow: int,
    subject: string,
    issuer: string,
    ops: Option<seq<string>>,
    resources: Option<seq<string>>,
    canonical: bool,
    depth: int,
    expiresAt: int,
    revoked: Option<Revocation>)

  type Tokens = map<string, Token>
  type Escrows = map<int, Escrow>

  /** fromJSON. */
  function Read(scope: Option<seq<string>>): Option<seq<string>> {
    match scope
    case None => None
    case Some(items) => Some(Canonicalize(items))
  }

  datatype Reason =
    | Revoked | Expired | NonCanonical | EscrowFrozen | EscrowInactive
    | MissingAncestor | LineageCycle
    | AncestorNonCanonical | AncestorRevoked | AncestorExpired
    | EscrowMismatch | IssuerMismatch | ExpiryViolation | ScopeViolation

  datatype Outcome = Error | Report(reasons: set<Reason>)

  function When(condition: bool, reason: Reason): set<Reason> {
    if condition then {reason} else {}
  }

  // ---- one link of a lineage

  predicate SameText(a: string, b: string) { ToLower(a) == ToLower(b) }

  predicate Decodes(t: Token) { t.ops.Some? && t.resources.Some? }

  predicate ScopeShrinks(child: Token, parent: Token)
    requires Decodes(child) && Decodes(parent)
  {
    && IsSubset(Read(child.ops).value, Read(parent.ops).value)
    && IsSubset(Read(child.resources).value, Read(parent.resources).value)
  }

  /** What the walk finds on the step from a token to its parent. */
  function LinkReasons(child: Token, parent: Token, now: int): Outcome {
    LinkReport(StandingReasons(parent, now) + MatchReasons(child, parent), ScopeVerdict(child, parent))
  }

  /** Whether the scopes shrink from parent to child, if all four decode. */
  function ScopeVerdict(child: Token, parent: Token): Option<bool> {
    if Decodes(child) && Decodes(parent) then Some(ScopeShrinks(child, parent)) else None
  }

  function LinkReport(reasons: set<Reason>, shrinks: Option<bool>): Outcome {
    match shrinks
    case None => Error
    case Some(ok) => Report(reasons + When(!ok, ScopeViolation))
  }

  function StandingReasons(parent: Token, now: int): set<Reason> {
    When(!parent.canonical, AncestorNonCanonical)
    + When(parent.revoked.Some?, AncestorRevoked)
    + When(parent.expiresAt <= now, AncestorExpired)
  }

  function MatchReasons(child: Token, parent: Token): set<Reason> {
    When(child.escrow != parent.escrow, EscrowMismatch)
    + When(!SameText(child.issuer, parent.subject), IssuerMismatch)
    + When(child.expiresAt > parent.expiresAt, ExpiryViolation)
  }

  /** Everything the walk wants of the step from a token to its parent. */
  ghost predicate LinkSound(child: Token, parent: Token, now: int) {
    && parent.canonical && parent.revoked.None? && parent.expiresAt > now
    && child.escrow == parent.escrow && SameText(child.issuer, parent.subject)
    && child.expiresAt <= parent.expiresAt
    && Decodes(child) && Decodes(parent) && ScopeShrinks(child, parent)
  }

  lemma StandingIsExact(parent: Token, now: int)
    ensures StandingReasons(parent, now) == {} <==> parent.canonical && parent.revoked.None? && parent.expiresAt > now
  {
    var reasons := StandingReasons(parent, now);
    assert AncestorNonCanonical in reasons <==> !parent.canonical;
    assert AncestorRevoked in reasons <==> parent.revoked.Some?;
    assert AncestorExpired in reasons <==> parent.expiresAt <= now;
  }

  lemma MatchIsExact(child: Token, parent: Token)
    ensures MatchReasons(child, parent) == {} <==>
      child.escrow == parent.escrow && SameText(child.issuer, parent.subject) && child.expiresAt <= parent.expiresAt
  {
    var reasons := MatchReasons(child, parent);
    assert EscrowMismatch in reasons <==> child.escrow != parent.escrow;
    assert IssuerMismatch in reasons <==> !SameText(child.issuer, parent.subject);
    assert ExpiryViolation in reasons <==> child.expiresAt > parent.expiresAt;
  }

  lemma UnionIsEmpty(a: set<Reason>, b: set<Reason>, c: set<Reason>)
    ensures a + b + c == {} <==> a == {} && b == {} && c == {}
  {
    assert a <= a + b + c && b <= a + b + c && c <= a + b + c;
  }

  lemma SoundLinkHasNoReasons(child: Token, parent: Token, now: int)
    ensures LinkReasons(child, parent, now) == Report({}) <==> LinkSound(child, parent, now)
  {
    if Decodes(child) && Decodes(parent) {
      StandingIsExact(parent, now);
      MatchIsExact(child, parent);
      var shrinks := ScopeShrinks(child, parent);
      UnionIsEmpty(StandingReasons(parent, now), MatchReasons(child, parent), When(!shrinks, ScopeViolation));
      assert ScopeViolation in When(!shrinks, ScopeViolation) <==> !shrinks;
    }
  }

  // ---- the walk

  function Join(a: Outcome, b: Outcome): Outcome {
    if a.Error? || b.Error? then Error else Report(a.reasons + b.reasons)
  }

  /** What the walk up from a token reports, the tokens seen so far not to be met again. */
  function WalkFrom(tokens: Tokens, current: string, seen: set<string>, now: int): Outcome
    requires current in tokens
    decreases tokens.Keys - seen
  {
    var parent := tokens[current].parent;
    if parent == "" then Report({})
    else if parent !in tokens then Report({MissingAncestor})
    else if parent in seen then Report({LineageCycle})
    else Join(LinkReasons(tokens[current], tokens[parent], now), WalkFrom(tokens, parent, seen + {parent}, now))
  }

  function OwnReasons(t: Token, e: Escrow, now: int): set<Reason> {
    When(t.revoked.Some?, Revoked) + When(t.expiresAt <= now, Expired) + When(!t.canonical, NonCanonical)
    + (if e.frozen then {EscrowFrozen} else When(Inactive(e), EscrowInactive))
  }

  /** What Introspect reports on a presented id and secret. */
  function Introspection(tokens: Tokens, escrows: Escrows, id: string, secret: string, now: int): Outcome {
    if id !in tokens || tokens[id].secret != secret || tokens[id].escrow !in escrows then Error
    else Join(Report(OwnReasons(tokens[id], escrows[tokens[id].escrow], now)), WalkFrom(tokens, id, {id}, now))
  }

  /** Both scopes, decoded and compared. */
  method CheckScope(child: Token, parent: Token) returns (shrinks: Option<bool>)
    ensures shrinks == ScopeVerdict(child, parent)
  {
    if child.ops.None? || parent.ops.None? || child.resources.None? || parent.resources.None? { return None; }
    var childOps := CanonicalizeItems(child.ops.value);
    var parentOps := CanonicalizeItems(parent.ops.value);
    var childResources := CanonicalizeItems(child.resources.value);
    var parentResources := CanonicalizeItems(parent.resources.value);
    var opsShrink := CheckSubset(childOps, parentOps);
    var resourcesShrink := CheckSubset(childResources, parentResources);
    return Some(opsShrink && resourcesShrink);
  }

  method CheckStanding(parent: Token, now: int) returns (reasons: set<Reason>)
    ensures reasons == StandingReasons(parent, now)
  {
    reasons := {};
    if !parent.canonical { reasons := reasons + {AncestorNonCanonical}; }
    if parent.revoked.Some? { reasons := reasons + {AncestorRevoked}; }
    if parent.expiresAt <= now { reasons := reasons + {AncestorExpired}; }
  }

  method CheckMatch(child: Token, parent: Token) returns (reasons: set<Reason>)
    ensures reasons == MatchReasons(child, parent)
  {
    reasons := {};
    if child.escrow != parent.escrow { reasons := reasons + {EscrowMismatch}; }
    var sameText := SameText(child.issuer, parent.subject);
    if !sameText { reasons := reasons + {IssuerMismatch}; }
    if child.expiresAt > parent.expiresAt { reasons := reasons + {ExpiryViolation}; }
  }

  /** One step of the walk, each test in turn. */
  method CheckLink(child: Token, parent: Token, now: int) returns (r: Outcome)
    ensures r == LinkReasons(child, parent, now)
  {
    var standing := CheckStanding(parent, now);
    var mismatches := CheckMatch(child, parent);
    var reasons := standing + mismatches;
    var shrinks := CheckScope(child, parent);
    r := ReportLink(reasons, shrinks);
  }

  method ReportLink(reasons: set<Reason>, shrinks: Option<bool>) returns (r: Outcome)
    ensures r == LinkReport(reasons, shrinks)
  {
    if shrinks.None? { return Error; }
    assert reasons + {} == reasons;
    return Report(if !shrinks.value then reasons + {ScopeViolation} else reasons);
  }

  /** validateChain's loop: it ends on every table, cyclic ones included. */
  method WalkUp(tokens: Tokens, leaf: string, now: int) returns (r: Outcome)
    requires leaf in tokens
    ensures r == WalkFrom(tokens, leaf, {leaf}, now)
  {
    var reasons: set<Reason> := {};
    var seen := {leaf};
    var current := leaf;
    while tokens[current].parent != ""
      invariant current in tokens
      invariant WalkFrom(tokens, leaf, {leaf}, now) == Join(Report(reasons), WalkFrom(tokens, current, seen, now))
      decreases tokens.Keys - seen
    {
      var parent := tokens[current].parent;
      if parent !in tokens { return Report(reasons + {MissingAncestor}); }
      if parent in seen { return Report(reasons + {LineageCycle}); }
      var link := CheckLink(tokens[current], tokens[parent], now);
      if link.Error? { return Error; }
      JoinIsAssociative(Report(reasons), link, WalkFrom(tokens, parent, seen + {parent}, now));
      seen := seen + {parent};
      reasons := reasons + link.reasons;
      current := parent;
    }
    return Report(reasons);
  }

  lemma JoinIsAssociative(a: Outcome, b: Outcome, c: Outcome)
    ensures Join(Join(a, b), c) == Join(a, Join(b, c))
  {
    if !a.Error? && !b.Error? && !c.Error? {
      assert a.reasons + b.reasons + c.reasons == a.reasons + (b.reasons + c.reasons);
    }
  }

  /** Introspect. */
  method Introspect(tokens: Tokens, escrows: Escrows, id: string, secret: string, now: int) returns (r: Outcome)
    ensures r == Introspection(tokens, escrows, id, secret, now)
  {
    if id !in tokens { return Error; }
    var t := tokens[id];
    if t.secret != secret { return Error; }
    var reasons: set<Reason> := {};
    if t.revoked.Some? { reasons := reasons + {Revoked}; }
    if t.expiresAt <= now { reasons := reasons + {Expired}; }
    if !t.canonical { reasons := reasons + {NonCanonical}; }
    if t.escrow !in escrows { return Error; }
    var e := escrows[t.escrow];
    if e.frozen { reasons := reasons + {EscrowFrozen}; }
    else if Inactive(e) { reasons := reasons + {EscrowInactive}; }
    assert reasons == OwnReasons(t, e, now);
    var walk := WalkUp(tokens, id, now);
    if walk.Error? { return Error; }
    return Report(reasons + walk.reasons);
  }

  // ---- lineages

  /** A way up from a token to a root. */
  ghost predicate Lineage(tokens: Tokens, p: seq<string>) {
    && p != [] && p[0] in tokens
    && if tokens[p[0]].parent == "" then |p| == 1
       else |p| > 1 && p[1] == tokens[p[0]].parent && p[1] in tokens && Lineage(tokens, p[1..])
  }

  /** Every step of the lineage is sound. */
  ghost predicate SoundLineage(tokens: Tokens, p: seq<string>, now: int)
    requires Lineage(tokens, p)
  {
    |p| == 1 || (LinkSound(tokens[p[0]], tokens[p[1]], now) && SoundLineage(tokens, p[1..], now))
  }

  ghost predicate SoundFrom(tokens: Tokens, p: seq<string>, id: string, now: int) {
    Lineage(tokens, p) && p[0] == id && SoundLineage(tokens, p, now)
  }

  /** A live token: canonical, unrevoked, unexpired, in a live escrow, and so are all its ancestors, each
      step to the next of them sound. */
  ghost predicate Active(tokens: Tokens, escrows: Escrows, id: string, now: int) {
    && id in tokens && tokens[id].canonical && tokens[id].revoked.None? && tokens[id].expiresAt > now
    && tokens[id].escrow in escrows && !Inactive(escrows[tokens[id].escrow])
    && exists p :: SoundFrom(tokens, p, id, now)
  }

  lemma {:induction false} LineageIsUnique(tokens: Tokens, p: seq<string>, q: seq<string>)
    requires Lineage(tokens, p) && Lineage(tokens, q) && p[0] == q[0]
    ensures p == q
    decreases |p|
  {
    if tokens[p[0]].parent != "" {
      LineageIsUnique(tokens, p[1..], q[1..]);
      assert p == [p[0]] + p[1..] && q == [q[0]] + q[1..];
    }
  }

  lemma {:induction false} LineageSuffix(tokens: Tokens, p: seq<string>, k: nat)
    requires Lineage(tokens, p) && k < |p|
    ensures Lineage(tokens, p[k..])
    decreases k
  {
    if k > 0 {
      LineageSuffix(tokens, p[1..], k - 1);
      assert p[1..][k - 1..] == p[k..];
    }
  }

  /** A lineage that reaches a root meets no token twice. */
  lemma LineageIsDistinct(tokens: Tokens, p: seq<string>)
    requires Lineage(tokens, p)
    ensures Distinct(p)
  {
    forall i, j | 0 <= i < j < |p| ensures p[i] != p[j] {
      LineageSuffix(tokens, p, i);
      LineageSuffix(tokens, p, j);
      if p[i] == p[j] { LineageIsUnique(tokens, p[i..], p[j..]); }
    }
  }

  /** On a lineage the walk reports nothing exactly when every step is sound. */
  lemma {:induction false} WalkOnLineage(tokens: Tokens, p: seq<string>, seen: set<string>, now: int)
    requires Lineage(tokens, p) && forall i :: 1 <= i < |p| ==> p[i] !in seen
    ensures WalkFrom(tokens, p[0], seen, now) == Report({}) <==> SoundLineage(tokens, p, now)
    decreases |p|
  {
    if |p| > 1 {
      LineageIsDistinct(tokens, p);
      forall i | 1 <= i < |p[1..]| ensures p[1..][i] !in seen + {p[1]} {
        assert p[1..][i] == p[i + 1] && p[1] != p[i + 1];
      }
      WalkOnLineage(tokens, p[1..], seen + {p[1]}, now);
      SoundLinkHasNoReasons(tokens[p[0]], tokens[p[1]], now);
      JoinIsEmpty(LinkReasons(tokens[p[0]], tokens[p[1]], now), WalkFrom(tokens, p[1], seen + {p[1]}, now));
    }
  }

  lemma JoinIsEmpty(a: Outcome, b: Outcome)
    ensures Join(a, b) == Report({}) <==> a == Report({}) && b == Report({})
  {
    if !a.Error? && !b.Error? { assert a.reasons <= a.reasons + b.reasons && b.reasons <= a.reasons + b.reasons; }
  }

  /** A walk that reports nothing has reached a root. */
  lemma {:induction false} SilentWalkReachesRoot(tokens: Tokens, current: string, seen: set<string>, now: int)
    returns (p: seq<string>)
    requires current in tokens && WalkFrom(tokens, current, seen, now) == Report({})
    ensures Lineage(tokens, p) && p[0] == current && forall i :: 1 <= i < |p| ==> p[i] !in seen
    decreases tokens.Keys - seen
  {
    var parent := tokens[current].parent;
    if parent == "" {
      p := [current];
    } else {
      JoinIsEmpty(LinkReasons(tokens[current], tokens[parent], now), WalkFrom(tokens, parent, seen + {parent}, now));
      var q := SilentWalkReachesRoot(tokens, parent, seen + {parent}, now);
      p := [current] + q;
      assert p[1..] == q;
    }
  }

  /** Introspection reports a token active, with no reason against it, exactly when it is. */
  lemma ReportsActiveExactly(tokens: Tokens, escrows: Escrows, id: string, secret: string, now: int)
    ensures Introspection(tokens, escrows, id, secret, now) == Report({})
      <==> Active(tokens, escrows, id, now) && tokens[id].secret == secret
  {
    if id in tokens && tokens[id].secret == secret && tokens[id].escrow in escrows {
      var own, walk := OwnReasons(tokens[id], escrows[tokens[id].escrow], now), WalkFrom(tokens, id, {id}, now);
      OwnReasonsAreExact(tokens[id], escrows[tokens[id].escrow], now);
      JoinIsEmpty(Report(own), walk);
      if walk == Report({}) {
        var p := SilentWalkReachesRoot(tokens, id, {id}, now);
        WalkOnLineage(tokens, p, {id}, now);
        assert SoundFrom(tokens, p, id, now);
      }
      if p :| SoundFrom(tokens, p, id, now) {
        LineageIsDistinct(tokens, p);
        WalkOnLineage(tokens, p, {id}, now);
      }
    }
  }

  lemma OwnReasonsAreExact(t: Token, e: Escrow, now: int)
    ensures OwnReasons(t, e, now) == {} <==> t.canonical && t.revoked.None? && t.expiresAt > now && !Inactive(e)
  {
    var own := OwnReasons(t, e, now);
    assert Revoked in own <==> t.revoked.Some?;
    assert Expired in own <==> t.expiresAt <= now;
    assert NonCanonical in own <==> !t.canonical;
    assert EscrowFrozen in own <==> e.frozen;
    assert EscrowInactive in own <==> !e.frozen && Inactive(e);
  }

  // ---- attenuation

  /** The operations a token grants. */
  ghost function Ops(t: Token): set<string> {
    if t.ops.Some? then Members(Canonicalize(t.ops.value)) else {}
  }

  ghost function Resources(t: Token): set<string> {
    if t.resources.Some? then Members(Canonicalize(t.resources.value)) else {}
  }

  /** A token grants no more than another, in the same escrow and no longer. */
  ghost predicate Within(t: Token, u: Token) {
    Ops(t) <= Ops(u) && Resources(t) <= Resources(u) && t.expiresAt <= u.expiresAt && t.escrow == u.escrow
  }

  lemma SoundLinkIsWithin(child: Token, parent: Token, now: int)
    requires LinkSound(child, parent, now)
    ensures Within(child, parent)
  {
    CanonicalListsTheNames(child.ops.value);
    CanonicalListsTheNames(parent.ops.value);
    CanonicalListsTheNames(child.resources.value);
    CanonicalListsTheNames(parent.resources.value);
    SubsetIsInclusion(Canonicalize(child.ops.value), Canonicalize(parent.ops.value));
    SubsetIsInclusion(Canonicalize(child.resources.value), Canonicalize(parent.resources.value));
  }

  /** Along a sound lineage a token is within every ancestor, and every ancestor is unrevoked, unexpired
      and canonical. */
  lemma {:induction false} AncestorsBound(tokens: Tokens, p: seq<string>, k: nat, now: int)
    requires Lineage(tokens, p) && SoundLineage(tokens, p, now) && 0 < k < |p|
    ensures p[k] in tokens && Within(tokens[p[0]], tokens[p[k]])
    ensures tokens[p[k]].canonical && tokens[p[k]].revoked.None? && tokens[p[k]].expiresAt > now
    decreases k
  {
    SoundLinkIsWithin(tokens[p[0]], tokens[p[1]], now);
    if k > 1 {
      AncestorsBound(tokens, p[1..], k - 1, now);
      assert p[1..][k - 1] == p[k];
    }
  }

  /** An active token grants a subset of what each of its ancestors grants, and expires no later; its
      ancestors are active too. */
  lemma ActiveTokensAttenuate(tokens: Tokens, escrows: Escrows, id: string, p: seq<string>, k: nat, now: int)
    requires Active(tokens, escrows, id, now) && Lineage(tokens, p) && p[0] == id && 0 < k < |p|
    ensures p[k] in tokens && Within(tokens[id], tokens[p[k]])
    ensures Active(tokens, escrows, p[k], now)
  {
    var q :| SoundFrom(tokens, q, id, now);
    LineageIsUnique(tokens, p, q);
    AncestorsBound(tokens, p, k, now);
    SoundSuffix(tokens, p, k, now);
    assert SoundFrom(tokens, p[k..], p[k], now);
  }

  lemma {:induction false} SoundSuffix(tokens: Tokens, p: seq<string>, k: nat, now: int)
    requires Lineage(tokens, p) && SoundLineage(tokens, p, now) && k < |p|
    ensures Lineage(tokens, p[k..]) && SoundLineage(tokens, p[k..], now)
    decreases k
  {
    if k > 0 {
      SoundSuffix(tokens, p[1..], k - 1, now);
      assert p[1..][k - 1..] == p[k..];
    }
  }
}
