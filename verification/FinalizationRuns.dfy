/** Decompositions over any interleaving of creations and finalizations. A finalization first reads
    the decomposition and prepares its RFQs, and later runs its transaction; anything may happen in
    between, and the bidding service may refuse any RFQ. */
module FinalizationRuns {
  import opened Common
  import opened Sorting
  import opened Text
  import opened Decomposition
  import opened Finalization

  // ---- what a finalization reads

  /** A stored node without its link, which finalization does not look at. */
  function Unlinked(row: Row): Node { row.node.(rfq := None) }

  /** The nodes of a decomposition. */
  function NodesOf(rows: seq<Row>, d: nat): seq<Node> {
    if rows == [] then []
    else
      var last := rows[|rows| - 1];
      NodesOf(rows[..|rows| - 1], d) + if last.decomp == d then [Unlinked(last)] else []
  }

  predicate ShallowerFirst(a: Node, b: Node) {
    if a.depth == b.depth then a.id <= b.id else a.depth < b.depth
  }

  /** Its leaves, in the order of their depth and id. */
  function OrderedLeaves(rows: seq<Row>, d: nat): seq<Node> {
    Sort(ShallowerFirst, Leaves(NodesOf(rows, d)))
  }

  /** The RFQs of the leaves; none if some leaf cannot become one. */
  function BuildAll(leaves: seq<Node>, build: Node -> Built): Option<seq<Order>> {
    if leaves == [] then Some([])
    else
      var leaf := leaves[|leaves| - 1];
      var orders, built := BuildAll(leaves[..|leaves| - 1], build), build(leaf);
      if orders.Some? && built.Ok? then Some(orders.value + [Order(leaf.id, built.params)]) else None
  }

  /** FinalizeDecomposition up to its transaction. */
  function Prepare(db: Db, d: nat, p: Params): Option<seq<Order>> {
    if d >= |db.decomps| || db.decomps[d].status != Valid then None
    else if TrimSpace(p.buyer) == "" || ToLower(db.decomps[d].buyer) != ToLower(p.buyer) then None
    else if OrderedLeaves(db.rows, d) == [] then None
    else BuildAll(OrderedLeaves(db.rows, d), n => BuildRfqParams(n, p))
  }

  // ---- runs

  datatype Caller = Prepared(d: nat, p: Params, orders: seq<Order>) | Finished(d: nat, ids: Option<seq<nat>>)

  datatype State = State(db: Db, callers: map<nat, Caller>)

  const Start := State(Db([], [], []), map[])

  datatype Action =
    | Create(buyer: string, inputs: map<string, SubTask>, nodes: seq<Node>, tempIds: seq<string>)
    | Load(caller: nat, d: nat, p: Params)
    | Commit(caller: nat, refused: Option<nat>)

  /** What CreateDecomposition may store: the outcome of a successful worklist. */
  ghost predicate Creatable(db: Db, a: Action)
    requires a.Create?
  {
    && a.nodes != [] && "" !in a.inputs
    && Forest(a.inputs, a.nodes, a.tempIds, |db.rows|)
    && forall id :: id in a.inputs ==> Supported(a.inputs[id])
  }

  function AsRows(nodes: seq<Node>, d: nat): seq<Row> {
    seq(|nodes|, i requires 0 <= i < |nodes| => Row(d, nodes[i]))
  }

  function CreateStep(db: Db, buyer: string, nodes: seq<Node>): Db {
    var status := if Issues(Leaves(nodes)) == [] then Valid else Draft;
    db.(decomps := db.decomps + [Decomp(buyer, status, [])], rows := db.rows + AsRows(nodes, |db.decomps|))
  }

  function LoadStep(s: State, caller: nat, d: nat, p: Params): State {
    match Prepare(s.db, d, p)
    case None => s.(callers := s.callers[caller := Finished(d, None)])
    case Some(orders) => s.(callers := s.callers[caller := Prepared(d, p, orders)])
  }

  function CommitStep(s: State, caller: nat, d: nat, orders: seq<Order>, refused: Option<nat>): State {
    var (db, ids) := FinalizeTx(s.db, d, orders, refused);
    State(db, s.callers[caller := Finished(d, ids)])
  }

  ghost function Step(s: State, a: Action): State {
    match a
    case Create(buyer, _, nodes, _) => if Creatable(s.db, a) then s.(db := CreateStep(s.db, buyer, nodes)) else s
    case Load(caller, d, p) => if caller in s.callers then s else LoadStep(s, caller, d, p)
    case Commit(caller, refused) =>
      if caller in s.callers && s.callers[caller].Prepared?
      then CommitStep(s, caller, s.callers[caller].d, s.callers[caller].orders, refused)
      else s
  }

  ghost function Exec(s: State, schedule: seq<Action>): State {
    if schedule == [] then s
    else Step(Exec(s, schedule[..|schedule| - 1]), schedule[|schedule| - 1])
  }

  /** The step finalizes decomposition d: a transaction commits. */
  ghost predicate Finalizes(s: State, a: Action, d: nat) {
    && a.Commit? && a.caller in s.callers && s.callers[a.caller].Prepared? && s.callers[a.caller].d == d
    && FinalizeTx(s.db, d, s.callers[a.caller].orders, a.refused).1.Some?
  }

  ghost function Finalizations(s: State, schedule: seq<Action>, d: nat): nat {
    if schedule == [] then 0
    else
      var init, last := schedule[..|schedule| - 1], schedule[|schedule| - 1];
      Finalizations(s, init, d) + if Finalizes(Exec(s, init), last, d) then 1 else 0
  }

  // ---- at most one finalization commits

  ghost predicate IsFinalized(db: Db, d: nat) {
    d < |db.decomps| && db.decomps[d].status == Finalized
  }

  lemma FinalizedStays(s: State, a: Action, d: nat)
    ensures IsFinalized(s.db, d) ==> IsFinalized(Step(s, a).db, d) && !Finalizes(s, a, d)
    ensures Finalizes(s, a, d) ==> IsFinalized(Step(s, a).db, d)
  {
  }

  lemma FailedCommitFinalizesNothing(db: Db, d: nat, orders: seq<Order>, refused: Option<nat>, e: nat)
    requires !IsFinalized(db, e) && (d == e ==> FinalizeTx(db, d, orders, refused).1.None?)
    ensures !IsFinalized(FinalizeTx(db, d, orders, refused).0, e)
  {
  }

  lemma CreatingFinalizesNothing(db: Db, buyer: string, nodes: seq<Node>, d: nat)
    requires !IsFinalized(db, d)
    ensures !IsFinalized(CreateStep(db, buyer, nodes), d)
  {
  }

  lemma OnlyCommitsFinalize(s: State, a: Action, d: nat)
    requires !IsFinalized(s.db, d) && !Finalizes(s, a, d)
    ensures !IsFinalized(Step(s, a).db, d)
  {
    match a
    case Create(buyer, _, nodes, _) => CreatingFinalizesNothing(s.db, buyer, nodes, d);
    case Load(_, _, _) =>
    case Commit(caller, refused) =>
      if caller in s.callers && s.callers[caller].Prepared? {
        var c := s.callers[caller];
        FailedCommitFinalizesNothing(s.db, c.d, c.orders, refused, d);
      }
  }

  /** Of any number of concurrent finalizations of a decomposition at most one commits, and it is finalized exactly
      when one has. */
  lemma {:induction false} AtMostOneFinalization(s: State, schedule: seq<Action>, d: nat)
    ensures Finalizations(s, schedule, d) + (if IsFinalized(s.db, d) then 1 else 0) <= 1
    ensures IsFinalized(Exec(s, schedule).db, d) <==> Finalizations(s, schedule, d) == 1 || IsFinalized(s.db, d)
  {
    if schedule != [] {
      var init, last := schedule[..|schedule| - 1], schedule[|schedule| - 1];
      AtMostOneFinalization(s, init, d);
      var t := Exec(s, init);
      FinalizedStays(t, last, d);
      if !IsFinalized(t.db, d) && !Finalizes(t, last, d) { OnlyCommitsFinalize(t, last, d); }
    }
  }

  // ---- what linking does

  ghost predicate LinkedTo(db: Db, i: nat, r: nat) {
    i < |db.rows| && db.rows[i].node.rfq == Some(r)
  }

  ghost predicate LeafOf(orders: seq<Order>, n: nat, i: nat) {
    exists k :: 0 <= k < n <= |orders| && orders[k].leaf == i
  }

  function Ordered(orders: seq<Order>): seq<Rfq> {
    seq(|orders|, k requires 0 <= k < |orders| => Rfq(orders[k].params))
  }

  /** after is before with the first n orders created and linked, and nothing else changed. */
  ghost predicate LinksExactly(before: Db, after: Db, orders: seq<Order>, n: nat)
    requires n <= |orders|
  {
    && after.decomps == before.decomps
    && |after.rows| == |before.rows|
    && after.rfqs == before.rfqs + Ordered(orders[..n])
    && (forall i {:trigger after.rows[i]} :: 0 <= i < |before.rows| ==>
          Unlinked(after.rows[i]) == Unlinked(before.rows[i]) && after.rows[i].decomp == before.rows[i].decomp)
    && (forall k :: 0 <= k < n ==> LinkedTo(after, orders[k].leaf, |before.rfqs| + k))
    && (forall i: nat {:trigger LeafOf(orders, n, i)} ::
          i < |before.rows| && !LeafOf(orders, n, i) ==> after.rows[i] == before.rows[i])
  }

  /** The orders are for different leaves, none of them linked. */
  ghost predicate Fresh(db: Db, orders: seq<Order>) {
    && (forall j, k :: 0 <= j < k < |orders| ==> orders[j].leaf != orders[k].leaf)
    && (forall k :: 0 <= k < |orders| ==> orders[k].leaf < |db.rows| && db.rows[orders[k].leaf].node.rfq == None)
  }

  ghost predicate Refuses(refused: Option<nat>, n: nat) {
    refused.Some? && refused.value < n
  }

  /** The ids are those of the new rows, in order. */
  ghost predicate ConsecutiveFrom(ids: seq<nat>, first: nat) {
    forall k :: 0 <= k < |ids| ==> ids[k] == first + k
  }

  lemma {:induction false} IdsAreConsecutive(db: Db, orders: seq<Order>, n: nat, refused: Option<nat>)
    requires n <= |orders| && LinkFirst(db, orders, n, refused).Some?
    ensures var r := LinkFirst(db, orders, n, refused).value;
      |r.db.rfqs| == |db.rfqs| + n && ConsecutiveFrom(r.ids, |db.rfqs|)
  {
    if n > 0 { IdsAreConsecutive(db, orders, n - 1, refused); }
  }

  lemma {:induction false} LinkingSucceeds(db: Db, orders: seq<Order>, n: nat, refused: Option<nat>)
    requires n <= |orders| && Fresh(db, orders)
    ensures var r := LinkFirst(db, orders, n, refused);
      if Refuses(refused, n) then r == None else r.Some? && LinksExactly(db, r.value.db, orders, n)
  {
    if n > 0 {
      LinkingSucceeds(db, orders, n - 1, refused);
      if !Refuses(refused, n) { LinkingOneMore(db, LinkFirst(db, orders, n - 1, refused).value.db, orders, n); }
    }
  }

  lemma LinkingOneMore(db: Db, mid: Db, orders: seq<Order>, n: nat)
    requires 0 < n <= |orders| && Fresh(db, orders) && LinksExactly(db, mid, orders, n - 1)
    ensures var r := LinkOne(mid, orders[n - 1]); r.Some? && LinksExactly(db, r.value, orders, n)
  {
    var o := orders[n - 1];
    assert !LeafOf(orders, n - 1, o.leaf);
    assert Ordered(orders[..n]) == Ordered(orders[..n - 1]) + [Rfq(o.params)];
    var after := LinkOne(mid, o).value;
    forall i | 0 <= i < |db.rows| && !LeafOf(orders, n, i) ensures after.rows[i] == db.rows[i] {
      assert o.leaf != i && !LeafOf(orders, n - 1, i);
    }
    forall k | 0 <= k < n ensures LinkedTo(after, orders[k].leaf, |db.rfqs| + k) {
      if k < n - 1 { assert LinkedTo(mid, orders[k].leaf, |db.rfqs| + k); }
    }
  }

  // ---- the leaves of a decomposition

  ghost predicate RowsOk(db: Db) {
    forall i :: 0 <= i < |db.rows| ==> db.rows[i].node.id == i && db.rows[i].decomp < |db.decomps|
  }

  /** The node is the row of its id, and belongs to the decomposition. */
  ghost predicate RowOf(rows: seq<Row>, d: nat, n: Node) {
    n.id < |rows| && rows[n.id].decomp == d && n == Unlinked(rows[n.id])
  }

  lemma {:induction false} NodesOfAre(rows: seq<Row>, d: nat)
    requires forall i :: 0 <= i < |rows| ==> rows[i].node.id == i
    ensures Distinct(NodesOf(rows, d))
    ensures forall n :: n in NodesOf(rows, d) <==> RowOf(rows, d, n)
  {
    if rows != [] {
      var init, last := rows[..|rows| - 1], rows[|rows| - 1];
      NodesOfAre(init, d);
      forall n ensures n in NodesOf(rows, d) <==> RowOf(rows, d, n) {
        assert n in NodesOf(init, d) <==> RowOf(init, d, n);
      }
      assert Unlinked(last) !in NodesOf(init, d) by { assert !RowOf(init, d, Unlinked(last)); }
    }
  }

  lemma {:induction false} LeavesAreDistinct(nodes: seq<Node>, some: seq<Node>)
    requires Distinct(some)
    ensures Distinct(LeavesAmong(nodes, some))
  {
    if some != [] {
      var init, last := some[..|some| - 1], some[|some| - 1];
      LeavesAreDistinct(nodes, init);
      LeavesHas(nodes, init, last);
    }
  }

  /** Row i is a leaf of decomposition d. */
  ghost predicate IsLeafRow(rows: seq<Row>, d: nat, i: nat) {
    i < |rows| && rows[i].decomp == d && IsLeaf(NodesOf(rows, d), i)
  }

  lemma OrderedLeavesAre(rows: seq<Row>, d: nat)
    requires forall i :: 0 <= i < |rows| ==> rows[i].node.id == i
    ensures Distinct(OrderedLeaves(rows, d))
    ensures forall n :: n in OrderedLeaves(rows, d) <==> RowOf(rows, d, n) && IsLeafRow(rows, d, n.id)
  {
    var nodes := NodesOf(rows, d);
    NodesOfAre(rows, d);
    LeavesAreDistinct(nodes, nodes);
    SortKeepsDistinct(ShallowerFirst, Leaves(nodes));
    SameMembers(Leaves(nodes), OrderedLeaves(rows, d));
    forall n ensures n in OrderedLeaves(rows, d) <==> RowOf(rows, d, n) && IsLeafRow(rows, d, n.id) {
      LeavesHas(nodes, nodes, n);
    }
  }

  lemma {:induction false} NodesOfIgnoresLinks(rows: seq<Row>, other: seq<Row>, d: nat)
    requires |rows| == |other|
    requires forall i :: 0 <= i < |rows| ==>
               Unlinked(rows[i]) == Unlinked(other[i]) && rows[i].decomp == other[i].decomp
    ensures NodesOf(rows, d) == NodesOf(other, d)
  {
    if rows != [] { NodesOfIgnoresLinks(rows[..|rows| - 1], other[..|other| - 1], d); }
  }

  lemma OneMoreNode(rows: seq<Row>, n: Node, d: nat, e: nat)
    requires n.rfq == None
    ensures NodesOf(rows + [Row(e, n)], d) == NodesOf(rows, d) + if d == e then [n] else []
  {
    var all := rows + [Row(e, n)];
    assert all[..|all| - 1] == rows && Unlinked(Row(e, n)) == n;
  }

  lemma {:induction false} NodesOfAppended(rows: seq<Row>, nodes: seq<Node>, d: nat, e: nat)
    requires forall i :: 0 <= i < |nodes| ==> nodes[i].rfq == None
    ensures NodesOf(rows + AsRows(nodes, e), d) == NodesOf(rows, d) + if d == e then nodes else []
    decreases |nodes|
  {
    if nodes == [] {
      assert rows + AsRows(nodes, e) == rows;
    } else {
      var init, last := nodes[..|nodes| - 1], nodes[|nodes| - 1];
      NodesOfAppended(rows, init, d, e);
      assert rows + AsRows(nodes, e) == rows + AsRows(init, e) + [Row(e, last)];
      OneMoreNode(rows + AsRows(init, e), last, d, e);
      assert nodes == init + [last];
    }
  }

  lemma {:induction false} NoRowsNoNodes(rows: seq<Row>, d: nat)
    requires forall i :: 0 <= i < |rows| ==> rows[i].decomp != d
    ensures NodesOf(rows, d) == []
  {
    if rows != [] { NoRowsNoNodes(rows[..|rows| - 1], d); }
  }

  // ---- the invariant

  /** Whether an RFQ is what a node asks for on a caller's terms, for the decomposition of some buyer. The invariant
      leaves open what a node asks for: any answer that buildRFQParamsForLeaf meets is kept. */
  type Wanted = (RfqParams, Node, Params, string) -> bool

  /** The caller names the buyer of the decomposition, in whatever case. */
  predicate NamesBuyer(p: Params, buyer: string) {
    TrimSpace(p.buyer) != "" && ToLower(p.buyer) == ToLower(buyer)
  }

  ghost predicate MetByBuilding(asks: Wanted) {
    forall n: Node, p: Params, buyer: string {:trigger asks(BuildRfqParams(n, p).params, n, p, buyer)} ::
      BuildRfqParams(n, p).Ok? && NamesBuyer(p, buyer) ==> asks(BuildRfqParams(n, p).params, n, p, buyer)
  }

  /** What a caller has prepared: for each leaf, in order, the RFQ that it asks for on the caller's terms. */
  ghost predicate OrdersFor(asks: Wanted, db: Db, d: nat, orders: seq<Order>, p: Params)
    requires d < |db.decomps|
  {
    Matches(asks, OrderedLeaves(db.rows, d), orders, p, db.decomps[d].buyer)
  }

  ghost predicate Matches(asks: Wanted, leaves: seq<Node>, orders: seq<Order>, p: Params, buyer: string) {
    |orders| == |leaves|
    && forall k :: 0 <= k < |orders| ==> orders[k].leaf == leaves[k].id && asks(orders[k].params, leaves[k], p, buyer)
  }

  ghost predicate NoLinks(db: Db, d: nat) {
    forall i :: 0 <= i < |db.rows| && db.rows[i].decomp == d ==> db.rows[i].node.rfq == None
  }

  /** The leaf is linked to the RFQ that it asks for on the caller's terms. */
  ghost predicate Settled(asks: Wanted, db: Db, leaf: Node, r: nat, p: Params, buyer: string) {
    LinkedTo(db, leaf.id, r) && r < |db.rfqs| && asks(db.rfqs[r].params, leaf, p, buyer)
  }

  /** The leaves of the decomposition are linked in order to the RFQs that it lists, all on one caller's terms. */
  ghost predicate SettledBy(asks: Wanted, db: Db, d: nat, p: Params)
    requires d < |db.decomps|
  {
    var leaves, ids := OrderedLeaves(db.rows, d), db.decomps[d].rfqs;
    |ids| == |leaves| && forall k :: 0 <= k < |ids| ==> Settled(asks, db, leaves[k], ids[k], p, db.decomps[d].buyer)
  }

  ghost predicate InnerUnlinked(db: Db, d: nat) {
    forall i :: 0 <= i < |db.rows| && db.rows[i].decomp == d && !IsLeafRow(db.rows, d, i) ==>
                  db.rows[i].node.rfq == None
  }

  /** A decomposition that is not finalized has no RFQ; the leaves of a finalized one have the RFQs that some caller
      asked for, and none of its inner nodes is linked. */
  ghost predicate DecompOk(asks: Wanted, db: Db, d: nat)
    requires d < |db.decomps|
  {
    if db.decomps[d].status != Finalized then db.decomps[d].rfqs == [] && NoLinks(db, d)
    else (exists p :: SettledBy(asks, db, d, p)) && InnerUnlinked(db, d)
  }

  /** A decomposition has a leaf, and it is no draft exactly when each of its leaves can be settled. */
  ghost predicate ValidOk(db: Db, d: nat)
    requires d < |db.decomps|
  {
    && OrderedLeaves(db.rows, d) != []
    && (forall n :: n in OrderedLeaves(db.rows, d) ==> n.verification in VERIFICATION_TYPES)
    && (db.decomps[d].status != Draft <==> forall n :: n in OrderedLeaves(db.rows, d) ==> Settleable(n))
  }

  ghost predicate HasNode(db: Db, r: nat) {
    exists i: nat :: LinkedTo(db, i, r)
  }

  /** Every RFQ belongs to exactly one node. */
  ghost predicate LinksAreOneToOne(db: Db) {
    && (forall i: nat, r: nat :: LinkedTo(db, i, r) ==> r < |db.rfqs|)
    && (forall i: nat, j: nat, r: nat :: LinkedTo(db, i, r) && LinkedTo(db, j, r) ==> i == j)
    && (forall r: nat :: r < |db.rfqs| ==> HasNode(db, r))
  }

  ghost predicate CallerOk(asks: Wanted, s: State, c: Caller) {
    c.Prepared? ==>
      c.d < |s.db.decomps| && OrdersFor(asks, s.db, c.d, c.orders, c.p)
  }

  ghost predicate CallersOk(asks: Wanted, s: State) {
    forall t :: t in s.callers ==> CallerOk(asks, s, s.callers[t])
  }

  ghost predicate DecompsOk(asks: Wanted, db: Db) {
    forall d :: 0 <= d < |db.decomps| ==> DecompOk(asks, db, d) && ValidOk(db, d)
  }

  ghost predicate Inv(asks: Wanted, s: State) {
    RowsOk(s.db) && DecompsOk(asks, s.db) && LinksAreOneToOne(s.db) && CallersOk(asks, s)
  }

  // ---- preparing

  lemma {:induction false} BuildAllBuilds(leaves: seq<Node>, build: Node -> Built)
    ensures var orders := BuildAll(leaves, build);
      && (orders.Some? <==> forall k :: 0 <= k < |leaves| ==> build(leaves[k]).Ok?)
      && (orders.Some? ==> |orders.value| == |leaves|)
      && (orders.Some? ==> forall k :: 0 <= k < |leaves| ==>
            orders.value[k].leaf == leaves[k].id && build(leaves[k]) == Ok(orders.value[k].params))
  {
    if leaves != [] {
      var init := leaves[..|leaves| - 1];
      BuildAllBuilds(init, build);
      assert forall k :: 0 <= k < |init| ==> init[k] == leaves[k];
    }
  }

  lemma PrepareGivesOrders(asks: Wanted, db: Db, d: nat, p: Params)
    requires Prepare(db, d, p).Some? && MetByBuilding(asks)
    ensures d < |db.decomps| && OrdersFor(asks, db, d, Prepare(db, d, p).value, p)
  {
    var leaves, build := OrderedLeaves(db.rows, d), (n: Node) => BuildRfqParams(n, p);
    BuildAllBuilds(leaves, build);
    var orders := Prepare(db, d, p).value;
    forall k | 0 <= k < |orders| ensures asks(orders[k].params, leaves[k], p, db.decomps[d].buyer) {
      assert build(leaves[k]) == BuildRfqParams(leaves[k], p);
    }
  }

  lemma LoadKeepsInv(asks: Wanted, s: State, caller: nat, d: nat, p: Params)
    requires MetByBuilding(asks) && Inv(asks, s)
    ensures Inv(asks, LoadStep(s, caller, d, p))
  {
    var t := LoadStep(s, caller, d, p);
    forall k | k in t.callers ensures CallerOk(asks, t, t.callers[k]) {
      if k == caller {
        if Prepare(s.db, d, p).Some? { PrepareGivesOrders(asks, s.db, d, p); }
      } else {
        assert CallerOk(asks, s, s.callers[k]);
      }
    }
  }

  // ---- creating

  /** What creation adds: unlinked nodes with consecutive ids, at least one of them a leaf. */
  ghost predicate NewNodes(first: nat, nodes: seq<Node>) {
    && (forall k :: 0 <= k < |nodes| ==> nodes[k].id == first + k && nodes[k].rfq == None)
    && (forall k :: 0 <= k < |nodes| ==> nodes[k].verification in VERIFICATION_TYPES)
    && Leaves(nodes) != []
  }

  lemma CreatableIsNew(db: Db, a: Action)
    requires a.Create? && Creatable(db, a)
    ensures NewNodes(|db.rows|, a.nodes)
  {
    forall k | 0 <= k < |a.nodes| ensures a.nodes[k].rfq == None && a.nodes[k].verification in VERIFICATION_TYPES {
      assert CopiesInput(a.inputs[a.tempIds[k]], a.nodes[k]) && Supported(a.inputs[a.tempIds[k]]);
    }
    LastNodeIsLeaf(a.inputs, a.nodes, a.tempIds, |db.rows|);
  }

  lemma CreateAppends(db: Db, buyer: string, nodes: seq<Node>, d: nat)
    requires NewNodes(|db.rows|, nodes) && RowsOk(db) && d <= |db.decomps|
    ensures NodesOf(CreateStep(db, buyer, nodes).rows, d) == if d == |db.decomps| then nodes else NodesOf(db.rows, d)
  {
    NodesOfAppended(db.rows, nodes, d, |db.decomps|);
    if d == |db.decomps| { NoRowsNoNodes(db.rows, d); }
  }

  lemma CreateKeepsSettled(asks: Wanted, db: Db, buyer: string, nodes: seq<Node>, d: nat, p: Params)
    requires d < |db.decomps| && SettledBy(asks, db, d, p)
    requires OrderedLeaves(CreateStep(db, buyer, nodes).rows, d) == OrderedLeaves(db.rows, d)
    ensures SettledBy(asks, CreateStep(db, buyer, nodes), d, p)
  {
    var after, leaves, ids := CreateStep(db, buyer, nodes), OrderedLeaves(db.rows, d), db.decomps[d].rfqs;
    var owner := db.decomps[d].buyer;
    forall k | 0 <= k < |ids| ensures Settled(asks, after, leaves[k], ids[k], p, owner) {
      assert Settled(asks, db, leaves[k], ids[k], p, owner);
    }
  }

  lemma CreateKeepsDecomp(asks: Wanted, db: Db, buyer: string, nodes: seq<Node>, d: nat)
    requires NewNodes(|db.rows|, nodes) && RowsOk(db) && d < |db.decomps| && DecompOk(asks, db, d) && ValidOk(db, d)
    ensures var after := CreateStep(db, buyer, nodes); DecompOk(asks, after, d) && ValidOk(after, d)
  {
    CreateAppends(db, buyer, nodes, d);
    var after := CreateStep(db, buyer, nodes);
    assert OrderedLeaves(after.rows, d) == OrderedLeaves(db.rows, d);
    if db.decomps[d].status == Finalized {
      var p :| SettledBy(asks, db, d, p);
      CreateKeepsSettled(asks, db, buyer, nodes, d, p);
      forall i | 0 <= i < |after.rows| && after.rows[i].decomp == d && !IsLeafRow(after.rows, d, i)
        ensures after.rows[i].node.rfq == None
      {
        assert i < |db.rows| && !IsLeafRow(db.rows, d, i);
      }
    }
  }

  lemma LeavesAreSettleable(nodes: seq<Node>, ordered: seq<Node>)
    requires multiset(ordered) == multiset(Leaves(nodes))
    ensures Issues(Leaves(nodes)) == [] <==> forall n :: n in ordered ==> Settleable(n)
    ensures forall n :: n in ordered ==> n in nodes
  {
    SameMembers(Leaves(nodes), ordered);
    NoIssuesMeansSettleable(Leaves(nodes));
    forall n | n in ordered ensures n in nodes { LeavesHas(nodes, nodes, n); }
  }

  lemma CreatedIsSettleable(db: Db, buyer: string, nodes: seq<Node>)
    requires NewNodes(|db.rows|, nodes) && RowsOk(db)
    ensures ValidOk(CreateStep(db, buyer, nodes), |db.decomps|)
  {
    var d, after := |db.decomps|, CreateStep(db, buyer, nodes);
    CreateAppends(db, buyer, nodes, d);
    LeavesAreSettleable(nodes, OrderedLeaves(after.rows, d));
    SameMembers(Leaves(nodes), OrderedLeaves(after.rows, d));
  }

  lemma CreateKeepsLinks(db: Db, buyer: string, nodes: seq<Node>)
    requires NewNodes(|db.rows|, nodes) && LinksAreOneToOne(db)
    ensures LinksAreOneToOne(CreateStep(db, buyer, nodes))
  {
    var after := CreateStep(db, buyer, nodes);
    forall i: nat, r: nat ensures LinkedTo(after, i, r) <==> LinkedTo(db, i, r) {}
    forall r: nat | r < |db.rfqs| ensures HasNode(after, r) {
      assert HasNode(db, r);
      var i: nat :| LinkedTo(db, i, r);
      assert LinkedTo(after, i, r);
    }
  }

  lemma CreateKeepsCaller(asks: Wanted, s: State, buyer: string, nodes: seq<Node>, c: Caller)
    requires NewNodes(|s.db.rows|, nodes) && RowsOk(s.db) && CallerOk(asks, s, c)
    ensures CallerOk(asks, s.(db := CreateStep(s.db, buyer, nodes)), c)
  {
    if c.Prepared? { CreateAppends(s.db, buyer, nodes, c.d); }
  }

  lemma CreateKeepsDecomps(asks: Wanted, db: Db, buyer: string, nodes: seq<Node>)
    requires NewNodes(|db.rows|, nodes) && RowsOk(db) && DecompsOk(asks, db)
    ensures DecompsOk(asks, CreateStep(db, buyer, nodes))
  {
    var after := CreateStep(db, buyer, nodes);
    forall d | 0 <= d < |after.decomps| ensures DecompOk(asks, after, d) && ValidOk(after, d) {
      if d < |db.decomps| {
        CreateKeepsDecomp(asks, db, buyer, nodes, d);
      } else {
        CreatedIsSettleable(db, buyer, nodes);
        CreatedIsUnlinked(db, buyer, nodes);
      }
    }
  }

  lemma CreatedIsUnlinked(db: Db, buyer: string, nodes: seq<Node>)
    requires NewNodes(|db.rows|, nodes) && RowsOk(db)
    ensures NoLinks(CreateStep(db, buyer, nodes), |db.decomps|) && RowsOk(CreateStep(db, buyer, nodes))
  {
  }

  lemma CreateKeepsInv(asks: Wanted, s: State, buyer: string, nodes: seq<Node>)
    requires NewNodes(|s.db.rows|, nodes) && Inv(asks, s)
    ensures Inv(asks, s.(db := CreateStep(s.db, buyer, nodes)))
  {
    CreateKeepsLinks(s.db, buyer, nodes);
    CreateKeepsDecomps(asks, s.db, buyer, nodes);
    CreatedIsUnlinked(s.db, buyer, nodes);
    var t := s.(db := CreateStep(s.db, buyer, nodes));
    forall k | k in s.callers ensures CallerOk(asks, t, s.callers[k]) {
      CreateKeepsCaller(asks, s, buyer, nodes, s.callers[k]);
    }
  }

  // ---- committing

  /** The orders of a caller whose decomposition is not finalized are for unlinked leaves. */
  lemma PreparedIsFresh(asks: Wanted, s: State, c: Caller)
    requires Inv(asks, s) && c.Prepared? && CallerOk(asks, s, c) && s.db.decomps[c.d].status != Finalized
    ensures Fresh(s.db, c.orders)
  {
    var leaves := OrderedLeaves(s.db.rows, c.d);
    OrderedLeavesAre(s.db.rows, c.d);
    assert DecompOk(asks, s.db, c.d);
    forall k | 0 <= k < |c.orders| ensures RowOf(s.db.rows, c.d, leaves[k]) && c.orders[k].leaf == leaves[k].id {
      assert leaves[k] in leaves;
    }
    forall j, k | 0 <= j < k < |c.orders| ensures c.orders[j].leaf != c.orders[k].leaf {
      assert RowOf(s.db.rows, c.d, leaves[j]) && RowOf(s.db.rows, c.d, leaves[k]) && leaves[j] != leaves[k];
    }
  }

  /** The state after a committed finalization. */
  ghost predicate Committed(before: Db, after: Db, d: nat, orders: seq<Order>) {
    && d < |before.decomps| && before.decomps[d].status == Valid
    && LinksExactly(before, after.(decomps := before.decomps), orders, |orders|)
    && |after.decomps| == |before.decomps|
    && (forall e :: 0 <= e < |before.decomps| && e != d ==> after.decomps[e] == before.decomps[e])
    && after.decomps[d].status == Finalized && after.decomps[d].buyer == before.decomps[d].buyer
    && |after.decomps[d].rfqs| == |orders|
    && forall k :: 0 <= k < |orders| ==> after.decomps[d].rfqs[k] == |before.rfqs| + k
  }

  /** The transaction commits exactly when the decomposition is still valid and no RFQ is refused;
      otherwise it changes nothing. */
  lemma FinalizeOutcome(db: Db, d: nat, orders: seq<Order>, refused: Option<nat>)
    requires d < |db.decomps| && (db.decomps[d].status == Valid ==> Fresh(db, orders))
    ensures var (after, ids) := FinalizeTx(db, d, orders, refused);
      && (ids.Some? <==> db.decomps[d].status == Valid && !Refuses(refused, |orders|))
      && (if ids.Some? then Committed(db, after, d, orders) else after == db)
  {
    if db.decomps[d].status == Valid {
      var claimed := db.(decomps := db.decomps[d := db.decomps[d].(status := Finalized, rfqs := [])]);
      assert Fresh(claimed, orders);
      LinkingSucceeds(claimed, orders, |orders|, refused);
      if !Refuses(refused, |orders|) {
        var done := LinkFirst(claimed, orders, |orders|, refused).value;
        IdsAreConsecutive(claimed, orders, |orders|, refused);
        LinksOnTop(db, claimed, done.db, orders);
      }
    }
  }

  /** What linking does to the rows and the RFQs does not depend on the decompositions. */
  lemma LinksOnTop(db: Db, claimed: Db, done: Db, orders: seq<Order>)
    requires claimed == db.(decomps := claimed.decomps) && LinksExactly(claimed, done, orders, |orders|)
    ensures LinksExactly(db, done.(decomps := db.decomps), orders, |orders|)
  {
    var after := done.(decomps := db.decomps);
    forall k | 0 <= k < |orders| ensures LinkedTo(after, orders[k].leaf, |db.rfqs| + k) {
      assert LinkedTo(done, orders[k].leaf, |claimed.rfqs| + k);
    }
  }

  lemma CommitKeepsNodes(before: Db, after: Db, d: nat, orders: seq<Order>, e: nat)
    requires Committed(before, after, d, orders) && RowsOk(before)
    ensures NodesOf(after.rows, e) == NodesOf(before.rows, e) && RowsOk(after)
  {
    NodesOfIgnoresLinks(before.rows, after.rows, e);
    forall i | 0 <= i < |after.rows| ensures after.rows[i].node.id == i && after.rows[i].decomp < |after.decomps| {
      assert Unlinked(after.rows[i]) == Unlinked(before.rows[i]);
    }
  }

  lemma OrderedIsLeafRow(asks: Wanted, db: Db, d: nat, orders: seq<Order>, p: Params, i: nat)
    requires RowsOk(db) && d < |db.decomps| && OrdersFor(asks, db, d, orders, p) && LeafOf(orders, |orders|, i)
    ensures IsLeafRow(db.rows, d, i)
  {
    OrderedLeavesAre(db.rows, d);
    var k :| 0 <= k < |orders| && orders[k].leaf == i;
    assert OrderedLeaves(db.rows, d)[k] in OrderedLeaves(db.rows, d);
  }

  lemma CommitLinksLeaf(before: Db, after: Db, d: nat, orders: seq<Order>, k: nat)
    requires Committed(before, after, d, orders) && k < |orders|
    ensures var r := after.decomps[d].rfqs[k];
      LinkedTo(after, orders[k].leaf, r) && r < |after.rfqs| && after.rfqs[r].params == orders[k].params
  {
    assert LinkedTo(after.(decomps := before.decomps), orders[k].leaf, |before.rfqs| + k);
    assert Ordered(orders[..|orders|])[k] == Rfq(orders[k].params);
  }

  lemma CommitLeavesInner(asks: Wanted, before: Db, after: Db, d: nat, orders: seq<Order>, p: Params, i: nat)
    requires Committed(before, after, d, orders) && RowsOk(before) && OrdersFor(asks, before, d, orders, p)
    requires i < |before.rows| && !IsLeafRow(before.rows, d, i)
    ensures after.rows[i] == before.rows[i]
  {
    if LeafOf(orders, |orders|, i) { OrderedIsLeafRow(asks, before, d, orders, p, i); }
  }

  lemma CommitSettles(asks: Wanted, before: Db, after: Db, d: nat, orders: seq<Order>, p: Params)
    requires Committed(before, after, d, orders) && RowsOk(before) && OrdersFor(asks, before, d, orders, p)
    ensures SettledBy(asks, after, d, p)
  {
    CommitKeepsNodes(before, after, d, orders, d);
    var leaves, ids := OrderedLeaves(after.rows, d), after.decomps[d].rfqs;
    forall k | 0 <= k < |orders| ensures Settled(asks, after, leaves[k], ids[k], p, before.decomps[d].buyer) {
      CommitLinksLeaf(before, after, d, orders, k);
    }
  }

  lemma CommitLinksDecomp(asks: Wanted, before: Db, after: Db, d: nat, orders: seq<Order>, p: Params)
    requires Committed(before, after, d, orders) && RowsOk(before) && OrdersFor(asks, before, d, orders, p)
    requires DecompOk(asks, before, d)
    ensures DecompOk(asks, after, d)
  {
    CommitSettles(asks, before, after, d, orders, p);
    CommitKeepsNodes(before, after, d, orders, d);
    forall i | 0 <= i < |after.rows| && after.rows[i].decomp == d && !IsLeafRow(after.rows, d, i)
      ensures after.rows[i].node.rfq == None
    {
      CommitLeavesInner(asks, before, after, d, orders, p, i);
    }
  }

  lemma CommitLeavesRow(asks: Wanted, before: Db, after: Db, d: nat, orders: seq<Order>, p: Params, i: nat)
    requires Committed(before, after, d, orders) && RowsOk(before) && OrdersFor(asks, before, d, orders, p)
    requires i < |before.rows| && before.rows[i].decomp != d
    ensures after.rows[i] == before.rows[i]
  {
    if LeafOf(orders, |orders|, i) { OrderedIsLeafRow(asks, before, d, orders, p, i); }
  }

  lemma CommitKeepsSettled(asks: Wanted, before: Db, after: Db, d: nat, orders: seq<Order>, p: Params, e: nat,
                           q: Params)
    requires Committed(before, after, d, orders) && RowsOk(before) && OrdersFor(asks, before, d, orders, p)
    requires e < |before.decomps| && e != d && SettledBy(asks, before, e, q)
    ensures SettledBy(asks, after, e, q)
  {
    var leaves, ids := OrderedLeaves(before.rows, e), before.decomps[e].rfqs;
    CommitKeepsNodes(before, after, d, orders, e);
    OrderedLeavesAre(before.rows, e);
    forall k | 0 <= k < |ids| ensures Settled(asks, after, leaves[k], ids[k], q, before.decomps[e].buyer) {
      assert leaves[k] in leaves && Settled(asks, before, leaves[k], ids[k], q, before.decomps[e].buyer);
      CommitLeavesRow(asks, before, after, d, orders, p, leaves[k].id);
    }
  }

  lemma CommitKeepsOthers(asks: Wanted, before: Db, after: Db, d: nat, orders: seq<Order>, p: Params, e: nat)
    requires Committed(before, after, d, orders) && RowsOk(before) && OrdersFor(asks, before, d, orders, p)
    requires e < |before.decomps| && e != d && DecompOk(asks, before, e)
    ensures DecompOk(asks, after, e)
  {
    CommitKeepsNodes(before, after, d, orders, e);
    forall i | 0 <= i < |before.rows| && before.rows[i].decomp == e ensures after.rows[i] == before.rows[i] {
      CommitLeavesRow(asks, before, after, d, orders, p, i);
    }
    if before.decomps[e].status == Finalized {
      var q :| SettledBy(asks, before, e, q);
      CommitKeepsSettled(asks, before, after, d, orders, p, e, q);
      forall i | 0 <= i < |after.rows| && after.rows[i].decomp == e && !IsLeafRow(after.rows, e, i)
        ensures after.rows[i].node.rfq == None
      {
        assert after.rows[i] == before.rows[i] && !IsLeafRow(before.rows, e, i);
      }
    }
  }

  /** A link after the commit is an old one, or that of an ordered leaf. */
  lemma LinkIsOldOrOrdered(before: Db, after: Db, d: nat, orders: seq<Order>, i: nat, r: nat)
    requires Committed(before, after, d, orders) && LinksAreOneToOne(before) && LinkedTo(after, i, r)
    ensures if r < |before.rfqs| then LinkedTo(before, i, r)
            else r - |before.rfqs| < |orders| && i == orders[r - |before.rfqs|].leaf
  {
    if LeafOf(orders, |orders|, i) {
      var k :| 0 <= k < |orders| && orders[k].leaf == i;
      assert LinkedTo(after.(decomps := before.decomps), orders[k].leaf, |before.rfqs| + k);
    } else {
      assert LinkedTo(before, i, r);
    }
  }

  lemma OldLinkStays(before: Db, after: Db, d: nat, orders: seq<Order>, i: nat, r: nat)
    requires Committed(before, after, d, orders) && Fresh(before, orders) && LinkedTo(before, i, r)
    ensures LinkedTo(after, i, r)
  {
    assert !LeafOf(orders, |orders|, i);
  }

  lemma CommitKeepsLinks(before: Db, after: Db, d: nat, orders: seq<Order>)
    requires Committed(before, after, d, orders) && LinksAreOneToOne(before) && Fresh(before, orders)
    ensures LinksAreOneToOne(after)
  {
    var base := |before.rfqs|;
    forall i: nat, r: nat | LinkedTo(after, i, r)
      ensures r < |after.rfqs| && if r < base then LinkedTo(before, i, r) else i == orders[r - base].leaf
    {
      LinkIsOldOrOrdered(before, after, d, orders, i, r);
    }
    forall r: nat | r < |after.rfqs| ensures HasNode(after, r) {
      if r < base {
        assert HasNode(before, r);
        var i: nat :| LinkedTo(before, i, r);
        OldLinkStays(before, after, d, orders, i, r);
      } else {
        assert LinkedTo(after.(decomps := before.decomps), orders[r - base].leaf, base + (r - base));
        assert LinkedTo(after, orders[r - base].leaf, r);
      }
    }
  }

  lemma CommitIsFreshOrNothing(asks: Wanted, s: State, a: Action)
    requires Inv(asks, s) && a.Commit? && a.caller in s.callers && s.callers[a.caller].Prepared?
    ensures var c, t := s.callers[a.caller], Step(s, a);
      CallerOk(asks, s, c) && (t.db == s.db || (Committed(s.db, t.db, c.d, c.orders) && Fresh(s.db, c.orders)))
  {
    var c := s.callers[a.caller];
    assert CallerOk(asks, s, c);
    if s.db.decomps[c.d].status == Valid { PreparedIsFresh(asks, s, c); }
    FinalizeOutcome(s.db, c.d, c.orders, a.refused);
  }

  lemma CommitKeepsCallers(asks: Wanted, s: State, a: Action)
    requires Inv(asks, s) && a.Commit? && a.caller in s.callers && s.callers[a.caller].Prepared?
    ensures var t := Step(s, a); forall k :: k in t.callers ==> CallerOk(asks, t, t.callers[k])
  {
    var c, t := s.callers[a.caller], Step(s, a);
    CommitIsFreshOrNothing(asks, s, a);
    forall k | k in t.callers ensures CallerOk(asks, t, t.callers[k]) {
      if k != a.caller {
        assert CallerOk(asks, s, s.callers[k]);
        if t.db != s.db && s.callers[k].Prepared? { CommitKeepsNodes(s.db, t.db, c.d, c.orders, s.callers[k].d); }
      }
    }
  }

  lemma CommitKeepsInv(asks: Wanted, s: State, a: Action)
    requires Inv(asks, s) && a.Commit? && a.caller in s.callers && s.callers[a.caller].Prepared?
    ensures Inv(asks, Step(s, a))
  {
    var c, t := s.callers[a.caller], Step(s, a);
    assert CallerOk(asks, s, c);
    CommitIsFreshOrNothing(asks, s, a);
    if t.db != s.db {
      CommitKeepsLinks(s.db, t.db, c.d, c.orders);
      CommitKeepsNodes(s.db, t.db, c.d, c.orders, c.d);
      forall e | 0 <= e < |t.db.decomps| ensures DecompOk(asks, t.db, e) && ValidOk(t.db, e) {
        CommitKeepsNodes(s.db, t.db, c.d, c.orders, e);
        assert DecompOk(asks, s.db, e) && ValidOk(s.db, e);
        if e == c.d { CommitLinksDecomp(asks, s.db, t.db, c.d, c.orders, c.p); }
        else { CommitKeepsOthers(asks, s.db, t.db, c.d, c.orders, c.p, e); }
      }
    }
    CommitKeepsCallers(asks, s, a);
  }

  lemma {:induction false} InvAlways(asks: Wanted, schedule: seq<Action>)
    requires MetByBuilding(asks)
    ensures Inv(asks, Exec(Start, schedule))
  {
    if schedule != [] {
      var s, a := Exec(Start, schedule[..|schedule| - 1]), schedule[|schedule| - 1];
      InvAlways(asks, schedule[..|schedule| - 1]);
      if a.Create? && Creatable(s.db, a) {
        CreatableIsNew(s.db, a);
        CreateKeepsInv(asks, s, a.buyer, a.nodes);
      }
      else if a.Load? && a.caller !in s.callers { LoadKeepsInv(asks, s, a.caller, a.d, a.p); }
      else if a.Commit? && a.caller in s.callers && s.callers[a.caller].Prepared? { CommitKeepsInv(asks, s, a); }
    }
  }

  // ---- what callers get

  /** No node of the decomposition hangs below row i. */
  ghost predicate NobodysParent(rows: seq<Row>, d: nat, i: nat) {
    forall j :: 0 <= j < |rows| && rows[j].decomp == d ==> rows[j].node.parent != Some(i)
  }

  lemma LeafRowMeans(rows: seq<Row>, d: nat, i: nat)
    requires forall j :: 0 <= j < |rows| ==> rows[j].node.id == j
    ensures IsLeafRow(rows, d, i) <==> i < |rows| && rows[i].decomp == d && NobodysParent(rows, d, i)
  {
    var nodes := NodesOf(rows, d);
    NodesOfAre(rows, d);
    if IsLeaf(nodes, i) {
      forall j | 0 <= j < |rows| && rows[j].decomp == d ensures rows[j].node.parent != Some(i) {
        assert RowOf(rows, d, Unlinked(rows[j]));
      }
    }
    if NobodysParent(rows, d, i) {
      forall n | n in nodes ensures n.parent != Some(i) { assert RowOf(rows, d, n); }
    }
  }

  /** The RFQ is the one that the node asks for on the terms of the caller, who named the buyer. */
  predicate Asks(r: RfqParams, n: Node, p: Params, buyer: string) {
    NamesBuyer(p, buyer) && AskedBy(r, n, p)
  }

  lemma AsksIsMet()
    ensures MetByBuilding(Asks)
  {
    forall n: Node, p: Params, buyer: string | BuildRfqParams(n, p).Ok? && NamesBuyer(p, buyer)
      ensures Asks(BuildRfqParams(n, p).params, n, p, buyer)
    {
      BuiltAsAsked(n, p);
    }
  }

  lemma InvHolds(schedule: seq<Action>)
    ensures Inv(Asks, Exec(Start, schedule))
  {
    AsksIsMet();
    InvAlways(Asks, schedule);
  }

  /** In every run a node has an RFQ exactly when it is a leaf of a finalized decomposition, and then
      an RFQ of its own that asks for what the leaf needs. */
  lemma LinkedExactlyTheLeaves(schedule: seq<Action>, i: nat)
    requires i < |Exec(Start, schedule).db.rows|
    ensures var db := Exec(Start, schedule).db; var d := db.rows[i].decomp;
      && d < |db.decomps|
      && (db.rows[i].node.rfq.Some? <==> db.decomps[d].status == Finalized && NobodysParent(db.rows, d, i))
      && (forall r: nat :: LinkedTo(db, i, r) ==>
            r < |db.rfqs| && exists p :: Asks(db.rfqs[r].params, Unlinked(db.rows[i]), p, db.decomps[d].buyer))
      && (forall r: nat, j: nat :: LinkedTo(db, i, r) && LinkedTo(db, j, r) ==> i == j)
  {
    InvHolds(schedule);
    var db := Exec(Start, schedule).db;
    var d := db.rows[i].decomp;
    assert DecompOk(Asks, db, d);
    LeafRowMeans(db.rows, d, i);
    if IsFinalized(db, d) && IsLeafRow(db.rows, d, i) {
      var p :| SettledBy(Asks, db, d, p);
      LeafIsSettled(Asks, db, d, i, p);
    }
  }

  lemma LeafIsSettled(asks: Wanted, db: Db, d: nat, i: nat, p: Params)
    requires RowsOk(db) && d < |db.decomps| && SettledBy(asks, db, d, p) && IsLeafRow(db.rows, d, i)
    ensures db.rows[i].node.rfq.Some?
    ensures var r := db.rows[i].node.rfq.value;
      r < |db.rfqs| && asks(db.rfqs[r].params, Unlinked(db.rows[i]), p, db.decomps[d].buyer)
  {
    var leaves, n := OrderedLeaves(db.rows, d), Unlinked(db.rows[i]);
    OrderedLeavesAre(db.rows, d);
    assert RowOf(db.rows, d, n) && n in leaves;
    var k :| 0 <= k < |leaves| && leaves[k] == n;
    assert Settled(asks, db, leaves[k], db.decomps[d].rfqs[k], p, db.decomps[d].buyer);
  }

  lemma RanksByDepth()
    ensures Ranks(ShallowerFirst)
  {
  }

  /** A finalized decomposition lists an RFQ for each leaf, shallower leaves before deeper ones and then by id, all of
      them on the terms of one caller that named its buyer. */
  lemma OneCallersTerms(schedule: seq<Action>, d: nat) returns (p: Params)
    requires IsFinalized(Exec(Start, schedule).db, d)
    ensures var db := Exec(Start, schedule).db; var leaves, ids := OrderedLeaves(db.rows, d), db.decomps[d].rfqs;
      && |ids| == |leaves|
      && (forall k :: 0 <= k < |ids| ==> Settled(Asks, db, leaves[k], ids[k], p, db.decomps[d].buyer))
      && (forall j, k :: 0 <= j < k < |leaves| ==>
            leaves[j].depth < leaves[k].depth || (leaves[j].depth == leaves[k].depth && leaves[j].id < leaves[k].id))
  {
    InvHolds(schedule);
    var db := Exec(Start, schedule).db;
    assert DecompOk(Asks, db, d);
    p :| SettledBy(Asks, db, d, p);
    LeavesInOrder(db.rows, d);
  }

  lemma LeavesInOrder(rows: seq<Row>, d: nat)
    requires forall i :: 0 <= i < |rows| ==> rows[i].node.id == i
    ensures var leaves := OrderedLeaves(rows, d);
      forall j, k :: 0 <= j < k < |leaves| ==>
        leaves[j].depth < leaves[k].depth || (leaves[j].depth == leaves[k].depth && leaves[j].id < leaves[k].id)
  {
    var leaves := OrderedLeaves(rows, d);
    RanksByDepth();
    SortSorts(ShallowerFirst, Leaves(NodesOf(rows, d)));
    OrderedLeavesAre(rows, d);
    forall j, k | 0 <= j < k < |leaves|
      ensures ShallowerFirst(leaves[j], leaves[k]) && leaves[j].id != leaves[k].id
    {
      assert leaves[j] in leaves && leaves[k] in leaves;
      assert RowOf(rows, d, leaves[j]) && RowOf(rows, d, leaves[k]);
    }
  }

  /** In every run a decomposition is a draft exactly when one of its leaves has no type, is flagged for more work or
      is to be proved without a circuit. */
  lemma DraftExactly(schedule: seq<Action>, d: nat)
    requires d < |Exec(Start, schedule).db.decomps|
    ensures var db := Exec(Start, schedule).db;
      db.decomps[d].status == Draft <==>
        exists i: nat :: i < |db.rows| && db.rows[i].decomp == d && NobodysParent(db.rows, d, i)
                         && !Settleable(db.rows[i].node)
  {
    InvHolds(schedule);
    var db := Exec(Start, schedule).db;
    var leaves := OrderedLeaves(db.rows, d);
    assert DecompOk(Asks, db, d) && ValidOk(db, d);
    OrderedLeavesAre(db.rows, d);
    forall i: nat | i < |db.rows| && db.rows[i].decomp == d && NobodysParent(db.rows, d, i)
      ensures Unlinked(db.rows[i]) in leaves
    {
      LeafRowMeans(db.rows, d, i);
      assert RowOf(db.rows, d, Unlinked(db.rows[i]));
    }
    forall n | n in leaves ensures RowOf(db.rows, d, n) && NobodysParent(db.rows, d, n.id) {
      LeafRowMeans(db.rows, d, n.id);
    }
  }

  /** Every RFQ these finalizations create belongs to exactly one leaf: none is orphaned. */
  lemma NoOrphanedRfq(schedule: seq<Action>, r: nat)
    requires r < |Exec(Start, schedule).db.rfqs|
    ensures HasNode(Exec(Start, schedule).db, r)
  {
    InvHolds(schedule);
  }

  /** The finalizations that get as far as their transaction. */
  ghost predicate Preparable(db: Db, d: nat, p: Params) {
    && d < |db.decomps| && db.decomps[d].status == Valid && NamesBuyer(p, db.decomps[d].buyer)
    && forall k :: 0 <= k < |OrderedLeaves(db.rows, d)| ==> PanelSuits(OrderedLeaves(db.rows, d)[k], p)
  }

  lemma BuildAllExactly(leaves: seq<Node>, build: Node -> Built, suits: Node -> bool)
    requires forall k :: 0 <= k < |leaves| ==> (build(leaves[k]).Ok? <==> suits(leaves[k]))
    ensures BuildAll(leaves, build).Some? <==> forall k :: 0 <= k < |leaves| ==> suits(leaves[k])
  {
    BuildAllBuilds(leaves, build);
  }

  lemma LeavesBuildExactly(leaves: seq<Node>, p: Params)
    requires forall n :: n in leaves ==> Settleable(n) && n.verification in VERIFICATION_TYPES
    ensures BuildAll(leaves, n => BuildRfqParams(n, p)).Some? <==>
      forall k :: 0 <= k < |leaves| ==> PanelSuits(leaves[k], p)
  {
    forall k | 0 <= k < |leaves| ensures BuildRfqParams(leaves[k], p).Ok? <==> PanelSuits(leaves[k], p) {
      assert leaves[k] in leaves;
      ValidLeafBuilds(leaves[k], p);
    }
    BuildAllExactly(leaves, n => BuildRfqParams(n, p), n => PanelSuits(n, p));
  }

  lemma PreparedExactly(s: State, d: nat, p: Params)
    requires d < |s.db.decomps| ==> ValidOk(s.db, d)
    ensures Prepare(s.db, d, p).Some? <==> Preparable(s.db, d, p)
  {
    if d < |s.db.decomps| && s.db.decomps[d].status == Valid {
      LeavesBuildExactly(OrderedLeaves(s.db.rows, d), p);
    }
  }

  /** A finalization is prepared, with the RFQs its leaves ask for on the caller's terms, exactly when its
      decomposition is valid, the caller names the buyer and its panel suits every leaf; otherwise it is over. */
  lemma ValidIsPrepared(schedule: seq<Action>, caller: nat, d: nat, p: Params)
    requires caller !in Exec(Start, schedule).callers
    ensures var s := Exec(Start, schedule); var t := Step(s, Load(caller, d, p));
      && t.db == s.db && caller in t.callers
      && if Preparable(s.db, d, p)
         then && t.callers[caller].Prepared? && t.callers[caller].d == d && t.callers[caller].p == p
              && OrdersFor(Asks, s.db, d, t.callers[caller].orders, p)
         else t.callers[caller] == Finished(d, None)
  {
    InvHolds(schedule);
    var s := Exec(Start, schedule);
    assert d < |s.db.decomps| ==> DecompOk(Asks, s.db, d) && ValidOk(s.db, d);
    PreparedExactly(s, d, p);
    AsksIsMet();
    if Prepare(s.db, d, p).Some? { PrepareGivesOrders(Asks, s.db, d, p); }
  }

  lemma CommitOutcome(asks: Wanted, s: State, caller: nat, refused: Option<nat>)
    requires Inv(asks, s) && caller in s.callers && s.callers[caller].Prepared?
    ensures var c := s.callers[caller]; var (after, ids) := FinalizeTx(s.db, c.d, c.orders, refused);
      && c.d < |s.db.decomps|
      && (ids.Some? <==> s.db.decomps[c.d].status == Valid && !Refuses(refused, |c.orders|))
      && if ids.None? then after == s.db
         else && c.d < |after.decomps| && after.decomps[c.d].status == Finalized
              && after.decomps[c.d].rfqs == ids.value && SettledBy(asks, after, c.d, c.p)
  {
    var c := s.callers[caller];
    assert CallerOk(asks, s, c);
    if s.db.decomps[c.d].status == Valid { PreparedIsFresh(asks, s, c); }
    FinalizeOutcome(s.db, c.d, c.orders, refused);
    var (after, ids) := FinalizeTx(s.db, c.d, c.orders, refused);
    if ids.Some? { CommitSettles(asks, s.db, after, c.d, c.orders, c.p); }
  }

  /** In every run a prepared finalization commits exactly when nobody has finalized the decomposition
      since and no RFQ is refused, and then its leaves have their RFQs on its caller's terms; otherwise its
      transaction leaves no trace. */
  lemma PreparedCommitsUnlessOvertaken(schedule: seq<Action>, caller: nat, refused: Option<nat>)
    requires var s := Exec(Start, schedule); caller in s.callers && s.callers[caller].Prepared?
    ensures var s := Exec(Start, schedule);
      var c, t := s.callers[caller], Step(s, Commit(caller, refused));
      && c.d < |s.db.decomps| && caller in t.callers && t.callers[caller].Finished?
      && var ids := t.callers[caller].ids;
         && (ids.Some? <==> s.db.decomps[c.d].status == Valid && !Refuses(refused, |c.orders|))
         && if ids.None? then t.db == s.db
            else && c.d < |t.db.decomps| && t.db.decomps[c.d].status == Finalized
                 && t.db.decomps[c.d].rfqs == ids.value && SettledBy(Asks, t.db, c.d, c.p)
  {
    InvHolds(schedule);
    CommitOutcome(Asks, Exec(Start, schedule), caller, refused);
  }
}
