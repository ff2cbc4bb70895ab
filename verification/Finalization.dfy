/** From stored decomposition nodes to RFQs: leaves, their validation, the RFQ each leaf asks for, and
    the transaction that links them. Row ids are positions in their tables. */
module Finalization {
  import opened Common
  import opened Text
  import opened Decomposition

  // ---- leaves

  predicate IsLeaf(nodes: seq<Node>, id: nat) {
    forall n :: n in nodes ==> n.parent != Some(id)
  }

  function LeavesAmong(nodes: seq<Node>, some: seq<Node>): seq<Node> {
    if some == [] then []
    else
      var last := some[|some| - 1];
      LeavesAmong(nodes, some[..|some| - 1]) + if IsLeaf(nodes, last.id) then [last] else []
  }

  function Leaves(nodes: seq<Node>): seq<Node> { LeavesAmong(nodes, nodes) }

  lemma {:induction false} LeavesHas(nodes: seq<Node>, some: seq<Node>, n: Node)
    ensures n in LeavesAmong(nodes, some) <==> n in some && IsLeaf(nodes, n.id)
  {
    if some != [] {
      var init, last := some[..|some| - 1], some[|some| - 1];
      LeavesHas(nodes, init, n);
      assert some == init + [last];
    }
  }

  function ChildrenCounted(counts: map<nat, nat>, id: nat): nat {
    if id in counts then counts[id] else 0
  }

  /** leafNodes: count children by parent, then keep the nodes that have none. */
  method LeafNodes(nodes: seq<Node>) returns (leaves: seq<Node>)
    ensures leaves == Leaves(nodes)
  {
    var counts: map<nat, nat> := map[];
    for i := 0 to |nodes|
      invariant forall id: nat :: ChildrenCounted(counts, id) == 0 <==> IsLeaf(nodes[..i], id)
    {
      ghost var before := counts;
      if nodes[i].parent.Some? {
        var id := nodes[i].parent.value;
        counts := counts[id := ChildrenCounted(counts, id) + 1];
      }
      forall id: nat ensures ChildrenCounted(counts, id) == 0 <==> IsLeaf(nodes[..i + 1], id) {
        assert nodes[..i + 1] == nodes[..i] + [nodes[i]];
        assert ChildrenCounted(before, id) == 0 <==> IsLeaf(nodes[..i], id);
      }
    }
    assert nodes[..|nodes|] == nodes;
    leaves := [];
    for i := 0 to |nodes|
      invariant leaves == LeavesAmong(nodes, nodes[..i])
    {
      assert nodes[..i + 1][..i] == nodes[..i];
      if ChildrenCounted(counts, nodes[i].id) == 0 { leaves := leaves + [nodes[i]]; }
    }
  }

  /** The node that a stored node hangs below. */
  lemma ParentNode(inputs: map<string, SubTask>, nodes: seq<Node>, tempIds: seq<string>, first: nat, i: nat)
    returns (j: nat)
    requires Planted(inputs, nodes, tempIds, first) && i < |nodes| && inputs[tempIds[i]].parent != ""
    ensures j < i && tempIds[j] == inputs[tempIds[i]].parent && nodes[i].parent == Some(first + j)
  {
    assert HangsBelow(inputs, nodes, tempIds, i);
    j :| 0 <= j < i && tempIds[j] == inputs[tempIds[i]].parent && nodes[i].parent == Some(nodes[j].id);
  }

  lemma NamedAsParent(inputs: map<string, SubTask>, nodes: seq<Node>, tempIds: seq<string>, first: nat, k: nat, i: nat)
    requires Planted(inputs, nodes, tempIds, first) && k < |nodes| && i < |nodes|
    requires inputs[tempIds[i]].parent == tempIds[k] != ""
    ensures nodes[i].parent == Some(nodes[k].id)
  {
    var j := ParentNode(inputs, nodes, tempIds, first, i);
    assert j == k;
  }

  lemma HasChildNode(inputs: map<string, SubTask>, nodes: seq<Node>, tempIds: seq<string>, first: nat, k: nat, i: nat)
    requires Planted(inputs, nodes, tempIds, first) && k < |nodes| && i < |nodes|
    requires nodes[i].parent == Some(nodes[k].id)
    ensures tempIds[i] in inputs && inputs[tempIds[i]].parent == tempIds[k]
  {
    assert HangsBelow(inputs, nodes, tempIds, i);
    var j := ParentNode(inputs, nodes, tempIds, first, i);
  }

  /** A stored node is a leaf exactly when no sub-task named it as its parent. */
  lemma LeafMeansNobodysParent(inputs: map<string, SubTask>, nodes: seq<Node>, tempIds: seq<string>, first: nat, k: nat)
    requires Forest(inputs, nodes, tempIds, first) && k < |nodes| && tempIds[k] != ""
    ensures IsLeaf(nodes, nodes[k].id) <==> forall id :: id in inputs ==> inputs[id].parent != tempIds[k]
  {
    forall id | id in inputs && inputs[id].parent == tempIds[k] ensures !IsLeaf(nodes, nodes[k].id) {
      var i :| 0 <= i < |tempIds| && tempIds[i] == id;
      NamedAsParent(inputs, nodes, tempIds, first, k, i);
      assert nodes[i] in nodes;
    }
    forall i | 0 <= i < |nodes| && nodes[i].parent == Some(nodes[k].id)
      ensures tempIds[i] in inputs && inputs[tempIds[i]].parent == tempIds[k]
    {
      HasChildNode(inputs, nodes, tempIds, first, k, i);
    }
  }

  /** A stored decomposition has a leaf: its last node. */
  lemma LastNodeIsLeaf(inputs: map<string, SubTask>, nodes: seq<Node>, tempIds: seq<string>, first: nat)
    requires Forest(inputs, nodes, tempIds, first) && nodes != []
    ensures nodes[|nodes| - 1] in Leaves(nodes)
  {
    var last := nodes[|nodes| - 1];
    forall n | n in nodes ensures n.parent != Some(last.id) {
      var i :| 0 <= i < |nodes| && nodes[i] == n;
      assert HangsBelow(inputs, nodes, tempIds, i);
    }
    LeavesHas(nodes, nodes, last);
  }

  // ---- validation

  datatype Kind = Untyped | Optimistic | UnitTest | QuorumVote | ZkProof | Unsupported

  /** The verification type a text names. */
  function KindOf(verification: string): Kind {
    if verification == "" then Untyped
    else if verification == "optimistic" then Optimistic
    else if verification == "unit_test" then UnitTest
    else if verification == "quorum" then QuorumVote
    else if verification == "zk_proof" then ZkProof
    else Unsupported
  }

  datatype Issue = NoVerificationType(node: nat) | NeedsMoreWork(node: nat) | NoCircuit(node: nat)

  function Field(details: map<string, string>, key: string): string {
    if key in details then TrimSpace(details[key]) else ""
  }

  function IssuesOf(n: Node): seq<Issue> {
    (if KindOf(n.verification) == Untyped then [NoVerificationType(n.id)] else [])
    + (if n.needsMoreWork then [NeedsMoreWork(n.id)] else [])
    + if KindOf(n.verification) == ZkProof && Field(n.details, "circuit_id") == "" then [NoCircuit(n.id)] else []
  }

  function Collect(leaves: seq<Node>, found: Node -> seq<Issue>): seq<Issue> {
    if leaves == [] then [] else Collect(leaves[..|leaves| - 1], found) + found(leaves[|leaves| - 1])
  }

  function Issues(leaves: seq<Node>): seq<Issue> { Collect(leaves, IssuesOf) }

  /** The three tests on a leaf. */
  method ValidateLeaf(n: Node) returns (issues: seq<Issue>)
    ensures issues == IssuesOf(n)
  {
    issues := [];
    if n.verification == "" { issues := issues + [NoVerificationType(n.id)]; }
    if n.needsMoreWork { issues := issues + [NeedsMoreWork(n.id)]; }
    if n.verification == "zk_proof" && Field(n.details, "circuit_id") == "" { issues := issues + [NoCircuit(n.id)]; }
  }

  /** validateLeafNodes. */
  method ValidateLeafNodes(nodes: seq<Node>) returns (issues: seq<Issue>)
    ensures issues == Issues(Leaves(nodes))
  {
    var leaves := LeafNodes(nodes);
    issues := [];
    for i := 0 to |leaves|
      invariant issues == Issues(leaves[..i])
    {
      var found := ValidateLeaf(leaves[i]);
      issues := issues + found;
      assert leaves[..i + 1][..i] == leaves[..i];
    }
    assert leaves[..|leaves|] == leaves;
  }

  /** The node names a circuit. */
  predicate HasCircuit(n: Node) {
    "circuit_id" in n.details && TrimSpace(n.details["circuit_id"]) != ""
  }

  /** What a leaf needs to become an RFQ: a type, no more work, and a circuit for a proof. */
  predicate Settleable(n: Node) {
    n.verification != "" && !n.needsMoreWork && (n.verification == "zk_proof" ==> HasCircuit(n))
  }

  /** The type that a text names. */
  lemma KindsAreNamed(v: string)
    ensures KindOf(v) == Untyped <==> v == ""
    ensures KindOf(v) == Optimistic <==> v == "optimistic"
    ensures KindOf(v) == UnitTest <==> v == "unit_test"
    ensures KindOf(v) == QuorumVote <==> v == "quorum"
    ensures KindOf(v) == ZkProof <==> v == "zk_proof"
  {
  }

  lemma NoIssueMeansSettleable(n: Node)
    ensures IssuesOf(n) == [] <==> Settleable(n)
  {
    KindsAreNamed(n.verification);
  }

  lemma {:induction false} NothingCollected(leaves: seq<Node>, found: Node -> seq<Issue>, settled: Node -> bool)
    requires forall n :: found(n) == [] <==> settled(n)
    ensures Collect(leaves, found) == [] <==> forall i :: 0 <= i < |leaves| ==> settled(leaves[i])
  {
    if leaves != [] {
      var init, last := leaves[..|leaves| - 1], leaves[|leaves| - 1];
      NothingCollected(init, found, settled);
      assert forall i :: 0 <= i < |init| ==> leaves[i] == init[i];
    }
  }

  lemma NoIssuesMeansSettleable(leaves: seq<Node>)
    ensures Issues(leaves) == [] <==> forall i :: 0 <= i < |leaves| ==> Settleable(leaves[i])
  {
    forall n ensures IssuesOf(n) == [] <==> Settleable(n) { NoIssueMeansSettleable(n); }
    NothingCollected(leaves, IssuesOf, Settleable);
  }

  // ---- the RFQ of a leaf

  /** What the caller of FinalizeDecomposition supplies; terms are passed on unchanged. */
  datatype Params = Params(buyer: string, token: string, terms: string, panel: seq<string>, quorum: int)

  datatype Requirements =
    | Plain(verificationType: string, artifacts: seq<string>)
    | Quorum(panel: seq<string>, quorum: int)
    | Circuit(circuitId: string, zkVerifier: string)

  datatype RfqParams = RfqParams(
    title: string,
    buyer: string,
    token: string,
    terms: string,
    verifier: string,
    requirements: Requirements,
    serviceTier: int,
    sealed: bool)

  datatype BuildError = MissingType | MissingPanel | BadQuorum | MissingCircuit | UnsupportedType

  datatype Built = Ok(params: RfqParams) | Err(error: BuildError)

  const ZERO_ADDRESS := "0x0000000000000000000000000000000000000000"

  function NormalizeToken(token: string): string {
    var t := TrimSpace(token);
    if t == "" || ToLower(t) == ToLower(ZERO_ADDRESS) then "" else t
  }

  /** buildRFQParamsForLeaf. */
  function BuildRfqParams(n: Node, p: Params): Built {
    var verification := TrimSpace(n.verification);
    BuildFor(KindOf(verification), verification, n, p)
  }

  function BuildFor(kind: Kind, verification: string, n: Node, p: Params): Built {
    if kind == Untyped then Err(MissingType)
    else if (kind == QuorumVote || kind == ZkProof) && p.panel == [] then Err(MissingPanel)
    else match kind
      case Optimistic => Ok(OpenRfq(n, p, verification, []))
      case UnitTest => Ok(OpenRfq(n, p, verification, ["unit_test_log"]))
      case QuorumVote =>
        if p.quorum <= 0 || p.quorum > |p.panel| then Err(BadQuorum)
        else Ok(SealedRfq(n, p, Quorum(p.panel, p.quorum)))
      case ZkProof =>
        if Field(n.details, "circuit_id") == "" then Err(MissingCircuit)
        else Ok(SealedRfq(n, p, Circuit(Field(n.details, "circuit_id"), Field(n.details, "zk_verifier"))))
      case _ => Err(UnsupportedType)
  }

  function OpenRfq(n: Node, p: Params, kind: string, artifacts: seq<string>): RfqParams {
    RfqParams(n.title, p.buyer, NormalizeToken(p.token), p.terms, "", Plain(kind, artifacts), 0, false)
  }

  function SealedRfq(n: Node, p: Params, requirements: Requirements): RfqParams
    requires p.panel != []
  {
    RfqParams(n.title, p.buyer, NormalizeToken(p.token), p.terms, p.panel[0], requirements, 1, true)
  }

  /** The verifier panel the caller supplies is enough for the leaf. */
  predicate PanelSuits(n: Node, p: Params) {
    && (n.verification == "quorum" ==> 0 < p.quorum <= |p.panel|)
    && (n.verification == "zk_proof" ==> p.panel != [])
  }

  // ---- the RFQ of a leaf, column by column

  /** No token: blank, or the address zero in either case of its x. */
  predicate NoToken(t: string) {
    t == "" || (|t| == 42 && t[0] == '0' && (t[1] == 'x' || t[1] == 'X') && forall i :: 2 <= i < 42 ==> t[i] == '0')
  }

  /** What the leaf's verification type requires: artifacts, the caller's panel and quorum, or the leaf's circuit. */
  predicate Requires(r: Requirements, verification: string, n: Node, p: Params) {
    || (verification == "optimistic" && r == Plain("optimistic", []))
    || (verification == "unit_test" && r == Plain("unit_test", ["unit_test_log"]))
    || (verification == "quorum" && r == Quorum(p.panel, p.quorum) && 0 < p.quorum <= |p.panel|)
    || (verification == "zk_proof" && HasCircuit(n)
        && r == Circuit(TrimSpace(n.details["circuit_id"]),
                        if "zk_verifier" in n.details then TrimSpace(n.details["zk_verifier"]) else ""))
  }

  /** The mode, tier and verifier of the type: sealed, of tier 1 and with the panel's first verifier for a quorum or a
      proof, and open, of tier 0 and with none otherwise. */
  predicate Procured(r: RfqParams, verification: string, p: Params) {
    if verification == "quorum" || verification == "zk_proof"
    then r.sealed && r.serviceTier == 1 && p.panel != [] && r.verifier == p.panel[0]
    else !r.sealed && r.serviceTier == 0 && r.verifier == ""
  }

  /** The RFQ is the one the leaf asks for on the caller's terms. */
  predicate AskedBy(r: RfqParams, n: Node, p: Params) {
    && r.title == n.title && r.buyer == p.buyer && r.terms == p.terms
    && r.token == (if NoToken(TrimSpace(p.token)) then "" else TrimSpace(p.token))
    && Procured(r, TrimSpace(n.verification), p)
    && Requires(r.requirements, TrimSpace(n.verification), n, p)
  }

  /** The leaves that become RFQs on the caller's terms. */
  predicate Buildable(n: Node, p: Params) {
    var verification := TrimSpace(n.verification);
    || verification == "optimistic" || verification == "unit_test"
    || (verification == "quorum" && 0 < p.quorum <= |p.panel|)
    || (verification == "zk_proof" && p.panel != [] && HasCircuit(n))
  }

  lemma ZeroAddressLowered()
    ensures |ZERO_ADDRESS| == 42 && ZERO_ADDRESS[0] == '0' && ZERO_ADDRESS[1] == 'x'
    ensures forall i :: 2 <= i < 42 ==> ZERO_ADDRESS[i] == '0'
    ensures ToLower(ZERO_ADDRESS) == ZERO_ADDRESS
  {
  }

  lemma ZeroIsNoToken(t: string)
    requires ToLower(t) == ToLower(ZERO_ADDRESS)
    ensures NoToken(t)
  {
    ZeroAddressLowered();
    forall i | 0 <= i < 42 ensures LowerChar(t[i]) == ZERO_ADDRESS[i] { assert ToLower(t)[i] == ZERO_ADDRESS[i]; }
  }

  lemma NoTokenIsZero(t: string)
    requires NoToken(t) && t != ""
    ensures ToLower(t) == ToLower(ZERO_ADDRESS)
  {
    ZeroAddressLowered();
    assert forall i :: 0 <= i < 42 ==> ToLower(t)[i] == ZERO_ADDRESS[i];
  }

  lemma TokenIsNormal(token: string)
    ensures NormalizeToken(token) == if NoToken(TrimSpace(token)) then "" else TrimSpace(token)
  {
    var t := TrimSpace(token);
    if ToLower(t) == ToLower(ZERO_ADDRESS) { ZeroIsNoToken(t); }
    if NoToken(t) && t != "" { NoTokenIsZero(t); }
  }

  /** The RFQ of the kind, as it is built. */
  lemma BuiltForKind(kind: Kind, v: string, n: Node, p: Params)
    ensures var r := BuildFor(kind, v, n, p);
      && (r.Ok? <==> kind == Optimistic || kind == UnitTest || (kind == QuorumVote && 0 < p.quorum <= |p.panel|)
                     || (kind == ZkProof && p.panel != [] && HasCircuit(n)))
      && (r.Ok? ==> && r.params.title == n.title && r.params.buyer == p.buyer && r.params.terms == p.terms
                    && r.params.token == NormalizeToken(p.token))
  {
  }

  lemma BuiltExactly(n: Node, p: Params)
    ensures BuildRfqParams(n, p).Ok? <==> Buildable(n, p)
  {
    var v := TrimSpace(n.verification);
    KindsAreNamed(v);
    BuiltForKind(KindOf(v), v, n, p);
  }

  lemma OpenLeaf(v: string, n: Node, p: Params)
    requires v == "optimistic" || v == "unit_test"
    ensures var r := BuildFor(KindOf(v), v, n, p);
      r.Ok? && Procured(r.params, v, p) && Requires(r.params.requirements, v, n, p)
  {
  }

  lemma QuorumLeaf(v: string, n: Node, p: Params)
    requires v == "quorum" && 0 < p.quorum <= |p.panel|
    ensures var r := BuildFor(KindOf(v), v, n, p);
      r.Ok? && Procured(r.params, v, p) && Requires(r.params.requirements, v, n, p)
  {
  }

  lemma ProofLeaf(v: string, n: Node, p: Params)
    requires v == "zk_proof" && p.panel != [] && HasCircuit(n)
    ensures var r := BuildFor(KindOf(v), v, n, p);
      r.Ok? && Procured(r.params, v, p) && Requires(r.params.requirements, v, n, p)
  {
  }

  /** buildRFQParamsForLeaf answers exactly the leaves that can be built, and with the RFQ they ask for. */
  lemma BuiltAsAsked(n: Node, p: Params)
    ensures var r := BuildRfqParams(n, p);
      && (r.Ok? <==> Buildable(n, p))
      && (r.Ok? ==> AskedBy(r.params, n, p))
  {
    var v := TrimSpace(n.verification);
    TokenIsNormal(p.token);
    BuiltExactly(n, p);
    BuiltForKind(KindOf(v), v, n, p);
    if v == "optimistic" || v == "unit_test" { OpenLeaf(v, n, p); }
    else if v == "quorum" && 0 < p.quorum <= |p.panel| { QuorumLeaf(v, n, p); }
    else if v == "zk_proof" && p.panel != [] && HasCircuit(n) { ProofLeaf(v, n, p); }
  }

  lemma TypesAreTexts(v: string)
    requires v in VERIFICATION_TYPES
    ensures v == "" || v == "optimistic" || v == "unit_test" || v == "quorum" || v == "zk_proof"
  {
  }

  lemma TextsHaveNoEnds(v: string)
    requires v == "" || v == "optimistic" || v == "unit_test" || v == "quorum" || v == "zk_proof"
    ensures v == [] || (!IsSpace(v[0]) && !IsSpace(v[|v| - 1]))
  {
  }

  lemma TypesAreTrimmed(v: string)
    requires v in VERIFICATION_TYPES
    ensures TrimSpace(v) == v
  {
    TypesAreTexts(v);
    TextsHaveNoEnds(v);
    TrimmedIsFixed(v);
  }

  lemma OnlyThePanel(n: Node, p: Params, v: string)
    requires Settleable(n) && n.verification == v == TrimSpace(v)
    requires v == "" || v == "optimistic" || v == "unit_test" || v == "quorum" || v == "zk_proof"
    ensures Buildable(n, p) <==> PanelSuits(n, p)
  {
  }

  /** A valid leaf becomes an RFQ exactly when the panel suits it: only its panel can stand in its way. */
  lemma ValidLeafBuilds(n: Node, p: Params)
    requires Settleable(n) && n.verification in VERIFICATION_TYPES
    ensures BuildRfqParams(n, p).Ok? <==> PanelSuits(n, p)
  {
    BuiltExactly(n, p);
    assert Buildable(n, p) <==> PanelSuits(n, p) by {
      TypesAreTrimmed(n.verification);
      TypesAreTexts(n.verification);
      OnlyThePanel(n, p, n.verification);
    }
  }

  // ---- the tables and the finalizing transaction

  datatype Status = Draft | Valid | Finalized
  datatype Decomp = Decomp(buyer: string, status: Status, rfqs: seq<nat>)
  datatype Row = Row(decomp: nat, node: Node)
  datatype Rfq = Rfq(params: RfqParams)
  datatype Db = Db(decomps: seq<Decomp>, rows: seq<Row>, rfqs: seq<Rfq>)

  /** A leaf to link, with the RFQ it asks for. */
  datatype Order = Order(leaf: nat, params: RfqParams)

  datatype Linked = Linked(db: Db, ids: seq<nat>)

  /** Create and link one RFQ: the leaf must exist and not be linked yet. */
  function LinkOne(db: Db, o: Order): Option<Db> {
    if o.leaf < |db.rows| && db.rows[o.leaf].node.rfq == None then
      var row := db.rows[o.leaf];
      Some(db.(rfqs := db.rfqs + [Rfq(o.params)],
               rows := db.rows[o.leaf := row.(node := row.node.(rfq := Some(|db.rfqs|)))]))
    else None
  }

  /** The first n orders; refused is the order whose RFQ the bidding service turns down, if any. */
  function LinkFirst(db: Db, orders: seq<Order>, n: nat, refused: Option<nat>): (r: Option<Linked>)
    requires n <= |orders|
    ensures r.Some? ==> r.value.db.decomps == db.decomps && |r.value.ids| == n
  {
    if n == 0 then Some(Linked(db, []))
    else match LinkFirst(db, orders, n - 1, refused)
      case None => None
      case Some(done) =>
        if refused == Some(n - 1) then None
        else match LinkOne(done.db, orders[n - 1])
          case None => None
          case Some(next) => Some(Linked(next, done.ids + [|done.db.rfqs|]))
  }

  /** The transaction: claim the decomposition, link every leaf, record the RFQ ids; or change nothing. */
  function FinalizeTx(db: Db, d: nat, orders: seq<Order>, refused: Option<nat>): (Db, Option<seq<nat>>) {
    if d >= |db.decomps| || db.decomps[d].status != Valid then (db, None)
    else
      var claimed := db.(decomps := db.decomps[d := db.decomps[d].(status := Finalized, rfqs := [])]);
      match LinkFirst(claimed, orders, |orders|, refused)
      case None => (db, None)
      case Some(done) =>
        (done.db.(decomps := done.db.decomps[d := done.db.decomps[d].(rfqs := done.ids)]), Some(done.ids))
  }

  lemma {:induction false} FailureSticks(db: Db, orders: seq<Order>, n: nat, m: nat, refused: Option<nat>)
    requires n <= m <= |orders| && LinkFirst(db, orders, n, refused).None?
    ensures LinkFirst(db, orders, m, refused).None?
  {
    if n < m { FailureSticks(db, orders, n, m - 1, refused); }
  }

  /** The tables, with the transaction written out statement by statement. */
  class Store {
    var decomps: seq<Decomp>
    var rows: seq<Row>
    var rfqs: seq<Rfq>

    constructor ()
      ensures Tables() == Db([], [], [])
    {
      decomps, rows, rfqs := [], [], [];
    }

    function Tables(): Db
      reads this
    {
      Db(decomps, rows, rfqs)
    }

    /** UpdateDecompositionStatusIfCurrent. */
    method SetStatusIfCurrent(d: nat, expected: Status, status: Status, ids: seq<nat>) returns (affected: bool)
      modifies this`decomps
      ensures affected <==> d < |old(decomps)| && old(decomps)[d].status == expected
      ensures decomps == if affected then old(decomps)[d := old(decomps)[d].(status := status, rfqs := ids)]
                         else old(decomps)
    {
      affected := d < |decomps| && decomps[d].status == expected;
      if affected { decomps := decomps[d := decomps[d].(status := status, rfqs := ids)]; }
    }

    method CreateRfq(params: RfqParams) returns (id: nat)
      modifies this`rfqs
      ensures id == |old(rfqs)| && rfqs == old(rfqs) + [Rfq(params)]
    {
      id := |rfqs|;
      rfqs := rfqs + [Rfq(params)];
    }

    /** UpdateDecompositionNodeRFQ: only where there is no RFQ yet. */
    method LinkRfq(leaf: nat, rfq: nat) returns (affected: bool)
      modifies this`rows
      ensures affected <==> leaf < |old(rows)| && old(rows)[leaf].node.rfq == None
      ensures rows == if affected
                      then old(rows)[leaf := old(rows)[leaf].(node := old(rows)[leaf].node.(rfq := Some(rfq)))]
                      else old(rows)
    {
      affected := leaf < |rows| && rows[leaf].node.rfq == None;
      if affected { rows := rows[leaf := rows[leaf].(node := rows[leaf].node.(rfq := Some(rfq)))]; }
    }

    method Rollback(d: seq<Decomp>, r: seq<Row>, q: seq<Rfq>)
      modifies this
      ensures Tables() == Db(d, r, q)
    {
      decomps, rows, rfqs := d, r, q;
    }

    /** Create the RFQ of one leaf and link it. */
    method LinkLeaf(o: Order) returns (ok: bool, id: nat)
      modifies this`rfqs, this`rows
      ensures id == |old(rfqs)|
      ensures ok <==> LinkOne(old(Tables()), o).Some?
      ensures ok ==> Tables() == LinkOne(old(Tables()), o).value
    {
      id := CreateRfq(o.params);
      ok := LinkRfq(o.leaf, id);
    }

    /** FinalizeDecomposition from the start of its transaction. */
    method FinalizeDecomposition(d: nat, orders: seq<Order>, refused: Option<nat>) returns (ids: Option<seq<nat>>)
      modifies this
      ensures (Tables(), ids) == FinalizeTx(old(Tables()), d, orders, refused)
    {
      var oldDecomps, oldRows, oldRfqs := decomps, rows, rfqs;
      var claimed := SetStatusIfCurrent(d, Valid, Finalized, []);
      if !claimed { return None; }
      ghost var start := Tables();
      var linked: seq<nat> := [];
      for i := 0 to |orders|
        invariant LinkFirst(start, orders, i, refused) == Some(Linked(Tables(), linked))
        invariant decomps == start.decomps
      {
        if refused == Some(i) {
          FailureSticks(start, orders, i + 1, |orders|, refused);
          Rollback(oldDecomps, oldRows, oldRfqs);
          return None;
        }
        var ok, id := LinkLeaf(orders[i]);
        if !ok {
          FailureSticks(start, orders, i + 1, |orders|, refused);
          Rollback(oldDecomps, oldRows, oldRfqs);
          return None;
        }
        linked := linked + [id];
      }
      var recorded := SetStatusIfCurrent(d, Finalized, Finalized, linked);
      return Some(linked);
    }
  }
}
