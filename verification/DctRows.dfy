/** The tokens that Mint and Delegate issue, column by column, for exactly which requests, and that every token of a
    run is one of them. */
module DctRows {
  import opened Common
  import opened Text
  import opened Dct
  import opened DctStore
  import opened DctRuns

  // ---- names

  /** The name is an item in lower case without surrounding space, and not blank. */
  ghost predicate NameIn(v: string, items: seq<string>) {
    v != "" && exists i :: 0 <= i < |items| && v == TrimSpace(ToLower(items[i]))
  }

  /** The list has exactly the names of the items. */
  ghost predicate Lists(list: Option<seq<string>>, items: seq<string>) {
    list.Some? && forall v :: v in list.value <==> NameIn(v, items)
  }

  lemma CleanedAt(items: seq<string>, i: nat)
    requires i < |items|
    ensures |CleanAll(items)| == |items| && CleanAll(items)[i] == TrimSpace(ToLower(items[i]))
  {
  }

  lemma CleanedOf(v: string, items: seq<string>)
    ensures v in CleanAll(items) <==> exists i :: 0 <= i < |items| && v == TrimSpace(ToLower(items[i]))
  {
    var all := CleanAll(items);
    if v in all {
      var i :| 0 <= i < |all| && all[i] == v;
      CleanedAt(items, i);
    }
    if exists i :: 0 <= i < |items| && v == TrimSpace(ToLower(items[i])) {
      var i :| 0 <= i < |items| && v == TrimSpace(ToLower(items[i]));
      CleanedAt(items, i);
      assert all[i] in all;
    }
  }

  lemma NamesOf(v: string, items: seq<string>)
    ensures v in Canonicalize(items) <==> NameIn(v, items)
  {
    CanonicalListsTheNames(items);
    CleanedOf(v, items);
  }

  lemma CanonicalLists(items: seq<string>)
    ensures Lists(Some(Canonicalize(items)), items)
  {
    forall v ensures v in Canonicalize(items) <==> NameIn(v, items) { NamesOf(v, items); }
  }

  ghost predicate SomeName(items: seq<string>) {
    exists v :: NameIn(v, items)
  }

  lemma NoNamesNoList(items: seq<string>)
    ensures Canonicalize(items) != [] <==> SomeName(items)
  {
    if Canonicalize(items) != [] {
      NamesOf(Canonicalize(items)[0], items);
      assert Canonicalize(items)[0] in Canonicalize(items);
    }
    if v :| NameIn(v, items) { NamesOf(v, items); }
  }

  /** What a token grants: the names in its lists. */
  lemma GrantsItsNames(t: Token, v: string)
    ensures v in Ops(t) <==> t.ops.Some? && NameIn(v, t.ops.value)
    ensures v in Resources(t) <==> t.resources.Some? && NameIn(v, t.resources.value)
  {
    if t.ops.Some? { NamesOf(v, t.ops.value); }
    if t.resources.Some? { NamesOf(v, t.resources.value); }
  }

  // ---- Mint

  /** The columns of a token that Mint issues for the request. */
  ghost predicate MintedFor(row: Token, escrow: int, r: Request, secret: string) {
    && row.secret == secret && row.parent == "" && row.escrow == escrow && row.depth == 0 && row.canonical
    && row.subject == ToLower(r.subject)
    && row.issuer == ToLower(if TrimSpace(r.issuer) != "" then r.issuer else r.subject)
    && Lists(row.ops, r.ops) && Lists(row.resources, r.resources) && row.expiresAt == r.expiresAt && row.revoked == None
  }

  /** The escrow takes part: it is not frozen and not settled, refunded, cancelled or resolved. */
  predicate Operating(escrows: Escrows, escrow: int) {
    && escrow in escrows && !escrows[escrow].frozen
    && !escrows[escrow].status.Settled? && !escrows[escrow].status.Refunded?
    && !escrows[escrow].status.CancelledEscrow? && !escrows[escrow].status.Resolved?
  }

  /** The requests that Mint grants. */
  ghost predicate MintGranted(escrows: Escrows, escrow: int, r: Request, allowed: bool, now: int) {
    && escrow > 0 && TrimSpace(r.subject) != "" && SomeName(r.ops) && SomeName(r.resources)
    && 0 < r.expiresAt && now < r.expiresAt && allowed && Operating(escrows, escrow)
  }

  lemma MintGrantsExactly(escrows: Escrows, escrow: int, r: Request, secret: string, allowed: bool, now: int)
    ensures CheckMint(escrows, escrow, r, secret, allowed, now).Some?
      <==> MintGranted(escrows, escrow, r, allowed, now)
  {
    NoNamesNoList(r.ops);
    NoNamesNoList(r.resources);
  }

  /** Mint grants exactly those requests, and the token has the request's columns: operations from its operations,
      resources from its resources, the subject as issuer where none is named. */
  lemma MintIssues(escrows: Escrows, escrow: int, r: Request, secret: string, allowed: bool, now: int)
    ensures var row := CheckMint(escrows, escrow, r, secret, allowed, now);
      && (row.Some? <==> MintGranted(escrows, escrow, r, allowed, now))
      && (row.Some? ==> MintedFor(row.value, escrow, r, secret))
  {
    MintGrantsExactly(escrows, escrow, r, secret, allowed, now);
    CanonicalLists(r.ops);
    CanonicalLists(r.resources);
  }

  // ---- Delegate

  /** The columns of a token that Delegate issues for the request, below its parent. */
  ghost predicate DelegatedFor(row: Token, parentId: string, parent: Token, r: Request, secret: string) {
    && row.secret == secret && row.parent == parentId && row.escrow == parent.escrow && row.depth == parent.depth + 1
    && row.canonical && row.subject == ToLower(r.subject)
    && row.issuer == (if TrimSpace(r.issuer) != "" then ToLower(r.issuer)
                      else if TrimSpace(parent.subject) != "" then ToLower(parent.subject) else "")
    && Lists(row.ops, r.ops) && Lists(row.resources, r.resources) && row.expiresAt == r.expiresAt && row.revoked == None
  }

  /** The items name nothing that the others do not. */
  ghost predicate Narrower(items: seq<string>, others: seq<string>) {
    forall v :: NameIn(v, items) ==> NameIn(v, others)
  }

  /** And some of what the others name is missing. */
  ghost predicate Drops(items: seq<string>, others: seq<string>) {
    exists v :: NameIn(v, others) && !NameIn(v, items)
  }

  /** The request asks for no more than the parent has, and for less of something. */
  ghost predicate AsksForLess(r: Request, parent: Token)
    requires Decodes(parent)
  {
    && Narrower(r.ops, parent.ops.value) && Narrower(r.resources, parent.resources.value)
    && r.expiresAt <= parent.expiresAt
    && (Drops(r.ops, parent.ops.value) || Drops(r.resources, parent.resources.value)
        || r.expiresAt < parent.expiresAt)
  }

  ghost predicate DelegationGranted(tokens: Tokens, escrows: Escrows, parentId: string, parentSecret: string,
                                    r: Request, allowed: bool, now: int) {
    && Active(tokens, escrows, parentId, now) && tokens[parentId].secret == parentSecret && allowed
    && TrimSpace(r.subject) != "" && Decodes(tokens[parentId]) && SomeName(r.ops) && SomeName(r.resources)
    && now < r.expiresAt && AsksForLess(r, tokens[parentId])
  }

  lemma SubsetNarrows(items: seq<string>, others: seq<string>)
    ensures IsSubset(Canonicalize(items), Canonicalize(others)) <==> Narrower(items, others)
    ensures Narrower(items, others) ==>
      (|Canonicalize(items)| < |Canonicalize(others)| <==> Drops(items, others))
  {
    var a, b := Canonicalize(items), Canonicalize(others);
    CanonicalListsTheNames(items);
    CanonicalListsTheNames(others);
    SubsetIsInclusion(a, b);
    forall v ensures (v in a <==> NameIn(v, items)) && (v in b <==> NameIn(v, others)) {
      NamesOf(v, items);
      NamesOf(v, others);
    }
    assert Members(a) <= Members(b) <==> Narrower(items, others) by {
      assert forall v :: v in Members(a) <==> v in a;
      assert forall v :: v in Members(b) <==> v in b;
    }
    if Narrower(items, others) { ShorterDrops(items, others); }
  }

  lemma ShorterDrops(items: seq<string>, others: seq<string>)
    requires Narrower(items, others) && IsSubset(Canonicalize(items), Canonicalize(others))
    ensures |Canonicalize(items)| < |Canonicalize(others)| <==> Drops(items, others)
  {
    var a, b := Canonicalize(items), Canonicalize(others);
    CanonicalListsTheNames(items);
    CanonicalListsTheNames(others);
    SubsetIsInclusion(a, b);
    if v :| NameIn(v, others) && !NameIn(v, items) {
      NamesOf(v, items);
      NamesOf(v, others);
      assert v in Members(b) && v !in Members(a);
    }
    if v :| v in Members(b) && v !in Members(a) {
      NamesOf(v, items);
      NamesOf(v, others);
    }
  }

  lemma StrictlyAsksForLess(r: Request, parent: Token)
    requires Decodes(parent)
    ensures StrictAttenuation(Canonicalize(r.ops), Canonicalize(parent.ops.value), Canonicalize(r.resources),
                              Canonicalize(parent.resources.value), r.expiresAt, parent.expiresAt)
      <==> AsksForLess(r, parent)
  {
    SubsetNarrows(r.ops, parent.ops.value);
    SubsetNarrows(r.resources, parent.resources.value);
  }

  /** Delegate grants exactly the requests of an active parent's holder that ask for no more than the parent has and
      for less of something, and the token has the request's columns. */
  lemma DelegateIssues(tokens: Tokens, escrows: Escrows, parentId: string, parentSecret: string, r: Request,
                       secret: string, allowed: bool, now: int)
    ensures var row := CheckDelegate(tokens, escrows, parentId, parentSecret, r, secret, allowed, now);
      && (row.Some? <==> DelegationGranted(tokens, escrows, parentId, parentSecret, r, allowed, now))
      && (row.Some? ==> parentId in tokens && DelegatedFor(row.value, parentId, tokens[parentId], r, secret))
  {
    ReportsActiveExactly(tokens, escrows, parentId, parentSecret, now);
    if Active(tokens, escrows, parentId, now) && Decodes(tokens[parentId]) {
      StrictlyAsksForLess(r, tokens[parentId]);
      NoNamesNoList(r.ops);
      NoNamesNoList(r.resources);
      CanonicalLists(r.ops);
      CanonicalLists(r.resources);
    }
  }

  // ---- every token of a run

  /** The step grants the request that the new token answers. */
  ghost predicate Issues(before: State, a: Action, id: string, row: Token) {
    match a
    case Mint(newId, escrow, r, secret, allowed) =>
      newId == id && MintGranted(before.escrows, escrow, r, allowed, before.now) && MintedFor(row, escrow, r, secret)
    case Delegate(newId, parentId, parentSecret, r, secret, allowed) =>
      && newId == id
      && DelegationGranted(before.tokens, before.escrows, parentId, parentSecret, r, allowed, before.now)
      && parentId in before.tokens && DelegatedFor(row, parentId, before.tokens[parentId], r, secret)
    case _ => false
  }

  /** Some step of the schedule does, in the state that the steps before it lead to. */
  ghost predicate Issued(schedule: seq<Action>, id: string, row: Token) {
    && schedule != []
    && var init, last := schedule[..|schedule| - 1], schedule[|schedule| - 1];
       Issued(init, id, row) || Issues(Exec(Start, init), last, id, row)
  }

  /** A granted request waits for its insert under its new id; a refused one leaves no trace. */
  lemma MintWaitsExactly(s: State, id: string, escrow: int, r: Request, secret: string, allowed: bool)
    requires id != "" && id !in s.tokens && id !in s.pending
    ensures var t := Step(s, Mint(id, escrow, r, secret, allowed));
      if MintGranted(s.escrows, escrow, r, allowed, s.now)
      then id in t.pending && t == s.(pending := s.pending[id := t.pending[id]])
           && MintedFor(t.pending[id], escrow, r, secret)
      else t == s
  {
    MintIssues(s.escrows, escrow, r, secret, allowed, s.now);
  }

  lemma DelegationWaitsExactly(s: State, id: string, parentId: string, parentSecret: string, r: Request, secret: string,
                               allowed: bool)
    requires id != "" && id !in s.tokens && id !in s.pending
    ensures var t := Step(s, Delegate(id, parentId, parentSecret, r, secret, allowed));
      if DelegationGranted(s.tokens, s.escrows, parentId, parentSecret, r, allowed, s.now)
      then id in t.pending && t == s.(pending := s.pending[id := t.pending[id]]) && parentId in s.tokens
           && DelegatedFor(t.pending[id], parentId, s.tokens[parentId], r, secret)
      else t == s
  {
    DelegateIssues(s.tokens, s.escrows, parentId, parentSecret, r, secret, allowed, s.now);
  }

  lemma NewRowIsIssued(s: State, a: Action, id: string)
    requires id in Step(s, a).pending && id !in s.pending
    ensures Issues(s, a, id, Step(s, a).pending[id])
  {
    match a
    case Mint(_, escrow, r, secret, allowed) => MintIssues(s.escrows, escrow, r, secret, allowed, s.now);
    case Delegate(_, parentId, parentSecret, r, secret, allowed) =>
      DelegateIssues(s.tokens, s.escrows, parentId, parentSecret, r, secret, allowed, s.now);
    case _ =>
  }

  lemma AwaitKeepsRows(s: State, other: string, row: Option<Token>, id: string)
    requires id in s.pending
    ensures id in Await(s, other, row).pending && Await(s, other, row).pending[id] == s.pending[id]
  {
  }

  lemma RowsStay(s: State, a: Action, id: string)
    requires id in s.pending && id in Step(s, a).pending
    ensures Step(s, a).pending[id] == s.pending[id]
  {
    match a
    case Mint(other, escrow, r, secret, allowed) =>
      AwaitKeepsRows(s, other, CheckMint(s.escrows, escrow, r, secret, allowed, s.now), id);
    case Delegate(other, parentId, parentSecret, r, secret, allowed) =>
      var row := CheckDelegate(s.tokens, s.escrows, parentId, parentSecret, r, secret, allowed, s.now);
      AwaitKeepsRows(s, other, row, id);
    case _ =>
  }

  lemma NewTokenWasPending(s: State, a: Action, id: string)
    requires id in Step(s, a).tokens && id !in s.tokens
    ensures id in s.pending && Step(s, a).tokens[id] == s.pending[id]
  {
  }

  /** Every row of a run, waiting or inserted, was issued by a mint or a delegation of the run that was granted then,
      and has that request's columns still, but for its revocation. */
  lemma {:induction false} RowsAreIssued(schedule: seq<Action>, id: string)
    ensures var s := Exec(Start, schedule);
      && (id in s.tokens ==> Issued(schedule, id, s.tokens[id].(revoked := None)))
      && (id in s.pending ==> s.pending[id].revoked.None? && Issued(schedule, id, s.pending[id]))
  {
    if schedule != [] {
      var init, a := schedule[..|schedule| - 1], schedule[|schedule| - 1];
      var s := Exec(Start, init);
      RowsAreIssued(init, id);
      if id in Step(s, a).pending { PendingIsIssued(schedule, id); }
      if id in s.tokens {
        StepExtends(s, a);
        assert SameButRevoked(s.tokens[id], Step(s, a).tokens[id]);
      } else if id in Step(s, a).tokens {
        NewTokenWasPending(s, a, id);
      }
    }
  }

  lemma PendingIsIssued(schedule: seq<Action>, id: string)
    requires schedule != []
    requires var s := Exec(Start, schedule[..|schedule| - 1]);
      id in s.pending ==> s.pending[id].revoked.None? && Issued(schedule[..|schedule| - 1], id, s.pending[id])
    requires id in Exec(Start, schedule).pending
    ensures var s := Exec(Start, schedule); s.pending[id].revoked.None? && Issued(schedule, id, s.pending[id])
  {
    var s, a := Exec(Start, schedule[..|schedule| - 1]), schedule[|schedule| - 1];
    if id in s.pending {
      RowsStay(s, a, id);
    } else {
      NewRowIsIssued(s, a, id);
    }
  }
}
