/** Turning a decomposition proposal into stored nodes: the checks on the proposal and the worklist
    that creates each sub-task after its parent.

    Verification details are the JSON object's fields, each as text; none stands for a value that
    cannot be marshalled. Node ids are the database's consecutive ids. */
module Decomposition {
  import opened Common
  import opened Text

  datatype SubTask = SubTask(
    tempId: string,
    parent: string,
    title: string,
    verification: string,
    delegate: string,
    details: Option<map<string, string>>,
    needsMoreWork: bool)

  datatype Node = Node(
    id: nat,
    parent: Option<nat>,
    title: string,
    verification: string,
    delegate: string,
    details: map<string, string>,
    depth: nat,
    needsMoreWork: bool,
    rfq: Option<nat>)

  // ---- the proposal

  const VERIFICATION_TYPES: set<string> := {"", "optimistic", "quorum", "zk_proof", "unit_test"}
  const DELEGATE_PREFERENCES: set<string> := {"", "human", "ai", "any"}

  function Normalized(t: SubTask): SubTask {
    t.(tempId := TrimSpace(t.tempId),
       parent := TrimSpace(t.parent),
       verification := TrimSpace(t.verification),
       delegate := ToLower(TrimSpace(t.delegate)))
  }

  function Normalize(tasks: seq<SubTask>): seq<SubTask> {
    seq(|tasks|, i requires 0 <= i < |tasks| => Normalized(tasks[i]))
  }

  /** Some sub-task names the id as its parent. */
  ghost predicate HasChild(tasks: seq<SubTask>, id: string) {
    id != "" && exists t :: t in tasks && t.parent == id
  }

  predicate Supported(t: SubTask) {
    t.verification in VERIFICATION_TYPES && t.delegate in DELEGATE_PREFERENCES
  }

  ghost predicate WellFormed(tasks: seq<SubTask>, t: SubTask) {
    && t.tempId != ""
    && Supported(t)
    && (t.delegate != "" ==> !HasChild(tasks, t.tempId))
  }

  /** The first n sub-tasks are well formed. */
  ghost predicate WellFormedUpTo(tasks: seq<SubTask>, n: nat)
    requires n <= |tasks|
  {
    n == 0 || (WellFormedUpTo(tasks, n - 1) && WellFormed(tasks, tasks[n - 1]))
  }

  lemma {:induction false} WellFormedUpToMeans(tasks: seq<SubTask>, n: nat)
    requires n <= |tasks|
    ensures WellFormedUpTo(tasks, n) <==> forall i :: 0 <= i < n ==> WellFormed(tasks, tasks[i])
  {
    if n > 0 { WellFormedUpToMeans(tasks, n - 1); }
  }

  function Ids(tasks: seq<SubTask>): (ids: seq<string>)
    ensures |ids| == |tasks| && forall i :: 0 <= i < |tasks| ==> ids[i] == tasks[i].tempId
  {
    if tasks == [] then [] else Ids(tasks[..|tasks| - 1]) + [tasks[|tasks| - 1].tempId]
  }

  /** The sub-tasks by id. */
  function ById(tasks: seq<SubTask>): map<string, SubTask> {
    if tasks == [] then map[]
    else var last := tasks[|tasks| - 1]; ById(tasks[..|tasks| - 1])[last.tempId := last]
  }

  ghost predicate KnownParents(tasks: seq<SubTask>) {
    forall t :: t in tasks && t.parent != "" ==> t.parent in Ids(tasks)
  }

  /** The checks before anything is written, on the normalised sub-tasks. */
  ghost predicate Acceptable(tasks: seq<SubTask>) {
    && tasks != []
    && WellFormedUpTo(tasks, |tasks|)
    && Distinct(Ids(tasks))
    && KnownParents(tasks)
  }

  function ParentOf(inputs: map<string, SubTask>, id: string): string {
    if id in inputs then inputs[id].parent else ""
  }

  /** Every parent is itself a sub-task. */
  ghost predicate ClosedUpwards(inputs: map<string, SubTask>) {
    forall id {:trigger ParentOf(inputs, id)} :: ParentOf(inputs, id) != "" ==> ParentOf(inputs, id) in inputs
  }

  /** What the worklist may rely on. */
  ghost predicate Proposal(order: seq<string>, inputs: map<string, SubTask>) {
    && "" !in inputs
    && (forall id :: id in inputs <==> id in order)
    && Distinct(order)
    && (forall id :: id in inputs ==> inputs[id].tempId == id)
    && ClosedUpwards(inputs)
  }

  lemma {:induction false} ByIdHasIds(tasks: seq<SubTask>)
    ensures forall id :: id in ById(tasks) <==> id in Ids(tasks)
    ensures forall id :: id in ById(tasks) ==> ById(tasks)[id].tempId == id && ById(tasks)[id] in tasks
  {
    if tasks != [] {
      var init, last := tasks[..|tasks| - 1], tasks[|tasks| - 1];
      ByIdHasIds(init);
      assert tasks == init + [last];
      forall id ensures id in ById(tasks) <==> id in Ids(tasks) {
        assert id in Ids(tasks) <==> id in Ids(init) || id == last.tempId;
      }
    }
  }

  lemma {:induction false} ByIdFinds(tasks: seq<SubTask>, t: SubTask)
    requires Distinct(Ids(tasks)) && t in tasks
    ensures t.tempId in ById(tasks) && ById(tasks)[t.tempId] == t
  {
    var init, last := tasks[..|tasks| - 1], tasks[|tasks| - 1];
    assert tasks == init + [last];
    assert Ids(init) == Ids(tasks)[..|init|];
    if t != last {
      var i :| 0 <= i < |init| && init[i] == t;
      assert Ids(tasks)[i] != Ids(tasks)[|init|];
      ByIdFinds(init, t);
    }
  }

  function ChildCount(counts: map<string, nat>, id: string): nat {
    if id in counts then counts[id] else 0
  }

  method CountChildren(tasks: seq<SubTask>) returns (counts: map<string, nat>)
    ensures forall id :: ChildCount(counts, id) > 0 <==> HasChild(tasks, id)
  {
    counts := map[];
    for i := 0 to |tasks|
      invariant forall id :: ChildCount(counts, id) > 0 <==> HasChild(tasks[..i], id)
    {
      var parent := tasks[i].parent;
      ghost var before := counts;
      if parent != "" { counts := counts[parent := ChildCount(counts, parent) + 1]; }
      OneMoreChild(tasks, i, before, counts);
    }
    assert tasks[..|tasks|] == tasks;
  }

  lemma OneMoreChild(tasks: seq<SubTask>, i: nat, before: map<string, nat>, after: map<string, nat>)
    requires i < |tasks| && forall id :: ChildCount(before, id) > 0 <==> HasChild(tasks[..i], id)
    requires after == if tasks[i].parent == "" then before
                      else before[tasks[i].parent := ChildCount(before, tasks[i].parent) + 1]
    ensures forall id :: ChildCount(after, id) > 0 <==> HasChild(tasks[..i + 1], id)
  {
    assert tasks[..i + 1] == tasks[..i] + [tasks[i]];
    forall id ensures ChildCount(after, id) > 0 <==> HasChild(tasks[..i + 1], id) {
      assert ChildCount(before, id) > 0 <==> HasChild(tasks[..i], id);
    }
  }

  /** The checks on one sub-task: its id is set and new, its types are supported, and only a leaf has
      a delegate preference. */
  method Admit(tasks: seq<SubTask>, t: SubTask, counts: map<string, nat>, inputs: map<string, SubTask>)
    returns (ok: bool)
    requires forall id :: ChildCount(counts, id) > 0 <==> HasChild(tasks, id)
    ensures ok <==> WellFormed(tasks, t) && t.tempId !in inputs
  {
    if t.tempId == "" { return false; }
    if t.tempId in inputs { return false; }
    if !Supported(t) { return false; }
    return t.delegate == "" || ChildCount(counts, t.tempId) == 0;
  }

  /** The first loop: check each sub-task and index it by its id. */
  method IndexTasks(tasks: seq<SubTask>) returns (ok: bool, order: seq<string>, inputs: map<string, SubTask>)
    ensures ok <==> WellFormedUpTo(tasks, |tasks|) && Distinct(Ids(tasks))
    ensures ok ==> order == Ids(tasks) && inputs == ById(tasks)
  {
    order, inputs := [], map[];
    var counts := CountChildren(tasks);
    for i := 0 to |tasks|
      invariant WellFormedUpTo(tasks, i)
      invariant order == Ids(tasks[..i]) && inputs == ById(tasks[..i]) && Distinct(order)
    {
      ByIdHasIds(tasks[..i]);
      ok := Admit(tasks, tasks[i], counts, inputs);
      if !ok {
        if tasks[i].tempId in inputs {
          Repeated(tasks, i);
        } else {
          WellFormedUpToMeans(tasks, |tasks|);
        }
        return;
      }
      assert tasks[..i + 1][..i] == tasks[..i];
      inputs := inputs[tasks[i].tempId := tasks[i]];
      order := order + [tasks[i].tempId];
    }
    assert tasks[..|tasks|] == tasks;
    return true, order, inputs;
  }

  lemma Repeated(tasks: seq<SubTask>, i: nat)
    requires i < |tasks| && tasks[i].tempId in Ids(tasks[..i])
    ensures !Distinct(Ids(tasks))
  {
    var j :| 0 <= j < i && Ids(tasks[..i])[j] == tasks[i].tempId;
    assert Ids(tasks)[j] == Ids(tasks)[i];
  }

  /** The second loop: every parent must be among the sub-tasks. */
  method CheckParents(inputs: map<string, SubTask>) returns (missing: Option<string>)
    ensures missing.None? ==> ClosedUpwards(inputs)
    ensures missing.Some? ==> missing.value in inputs
    ensures missing.Some? ==> ParentOf(inputs, missing.value) != "" && ParentOf(inputs, missing.value) !in inputs
  {
    var left := inputs.Keys;
    while left != {}
      invariant left <= inputs.Keys
      invariant forall id {:trigger ParentOf(inputs, id)} ::
        id !in left && ParentOf(inputs, id) != "" ==> ParentOf(inputs, id) in inputs
      decreases left
    {
      var id :| id in left;
      left := left - {id};
      if inputs[id].parent != "" && inputs[id].parent !in inputs { return Some(id); }
    }
    return None;
  }

  /** The checks on a proposal: it passes exactly when it is acceptable, and is then indexed by id. */
  method CheckProposal(tasks: seq<SubTask>) returns (ok: bool, order: seq<string>, inputs: map<string, SubTask>)
    ensures ok <==> Acceptable(tasks)
    ensures ok ==> order == Ids(tasks) && inputs == ById(tasks) && Proposal(order, inputs)
  {
    if |tasks| == 0 { return false, [], map[]; }
    ok, order, inputs := IndexTasks(tasks);
    if !ok { return; }
    var missing := CheckParents(inputs);
    ByIdHasIds(tasks);
    if missing.Some? {
      assert !KnownParents(tasks);
      return false, order, inputs;
    }
    forall t | t in tasks && t.parent != "" ensures t.parent in Ids(tasks) {
      ByIdFinds(tasks, t);
      assert ParentOf(inputs, t.tempId) == t.parent;
    }
    NoBlankId(tasks);
  }

  lemma NoBlankId(tasks: seq<SubTask>)
    requires WellFormedUpTo(tasks, |tasks|)
    ensures "" !in ById(tasks)
  {
    WellFormedUpToMeans(tasks, |tasks|);
    ByIdHasIds(tasks);
  }

  // ---- the parent relation

  /** The n-th ancestor. */
  function Up(inputs: map<string, SubTask>, id: string, n: nat): string {
    if n == 0 then id else ParentOf(inputs, Up(inputs, id, n - 1))
  }

  /** Some sub-task is an ancestor of itself. */
  ghost predicate Cyclic(inputs: map<string, SubTask>) {
    exists id: string, n: nat :: n > 0 && id in inputs && Up(inputs, id, n) == id
  }

  /** The id is n steps below a root. */
  ghost predicate AtDepth(inputs: map<string, SubTask>, id: string, n: nat)
    decreases n
  {
    id in inputs && if n == 0 then inputs[id].parent == ""
                    else inputs[id].parent != "" && AtDepth(inputs, inputs[id].parent, n - 1)
  }

  ghost predicate Rooted(inputs: map<string, SubTask>, id: string) {
    exists n: nat :: AtDepth(inputs, id, n)
  }

  lemma {:induction false} UpAdds(inputs: map<string, SubTask>, id: string, i: nat, k: nat)
    ensures Up(inputs, Up(inputs, id, i), k) == Up(inputs, id, i + k)
  {
    if k > 0 { UpAdds(inputs, id, i, k - 1); }
  }

  lemma {:induction false} DepthIsUnique(inputs: map<string, SubTask>, id: string, n: nat, m: nat)
    requires AtDepth(inputs, id, n) && AtDepth(inputs, id, m)
    ensures n == m
    decreases n
  {
    if n > 0 && m > 0 { DepthIsUnique(inputs, inputs[id].parent, n - 1, m - 1); }
  }

  lemma {:induction false} ClimbingFromDepth(inputs: map<string, SubTask>, id: string, n: nat, m: nat)
    requires AtDepth(inputs, id, n) && "" !in inputs
    ensures if m <= n then AtDepth(inputs, Up(inputs, id, m), n - m) else Up(inputs, id, m) == ""
    decreases m
  {
    if m > 0 { ClimbingFromDepth(inputs, id, n, m - 1); }
  }

  /** Where every sub-task hangs below a root there is no cycle. */
  lemma RootedMeansAcyclic(inputs: map<string, SubTask>)
    requires "" !in inputs && forall id :: id in inputs ==> Rooted(inputs, id)
    ensures !Cyclic(inputs)
  {
    forall id: string, m: nat | m > 0 && id in inputs ensures Up(inputs, id, m) != id {
      var n: nat :| AtDepth(inputs, id, n);
      ClimbingFromDepth(inputs, id, n, m);
      if Up(inputs, id, m) == id && m <= n { DepthIsUnique(inputs, id, n, n - m); }
    }
  }

  /** Sub-tasks that all wait for one another contain a cycle. */
  lemma StuckMeansCyclic(inputs: map<string, SubTask>, waiting: set<string>)
    requires waiting != {} && waiting <= inputs.Keys
    requires forall id {:trigger ParentOf(inputs, id)} :: id in waiting ==> ParentOf(inputs, id) in waiting
    ensures Cyclic(inputs)
  {
    var id :| id in waiting;
    var walk := seq(|waiting| + 1, i requires i >= 0 => Up(inputs, id, i));
    forall i: nat ensures Up(inputs, id, i) in waiting { StaysWaiting(inputs, waiting, id, i); }
    if Distinct(walk) {
      DistinctIsNoLonger(walk, waiting);
    } else {
      var i, j :| 0 <= i < j < |walk| && walk[i] == walk[j];
      UpAdds(inputs, id, i, j - i);
      assert Up(inputs, walk[i], j - i) == walk[i];
    }
  }

  lemma {:induction false} StaysWaiting(inputs: map<string, SubTask>, waiting: set<string>, id: string, i: nat)
    requires id in waiting && forall x {:trigger ParentOf(inputs, x)} :: x in waiting ==> ParentOf(inputs, x) in waiting
    ensures Up(inputs, id, i) in waiting
  {
    if i > 0 { StaysWaiting(inputs, waiting, id, i - 1); }
  }

  // ---- the worklist

  datatype Outcome = Created | CycleDetected | BadDetails(tempId: string)

  /** The parent link and depth of a node: a root has neither, and any other node hangs one step
      below the node of its parent, which was created before it. */
  ghost predicate HangsBelow(inputs: map<string, SubTask>, nodes: seq<Node>, tempIds: seq<string>, k: nat)
    requires k < |nodes| == |tempIds| && tempIds[k] in inputs
  {
    var parent := inputs[tempIds[k]].parent;
    if parent == "" then nodes[k].parent == None && nodes[k].depth == 0
    else exists j :: 0 <= j < k && tempIds[j] == parent && nodes[k].parent == Some(nodes[j].id)
                     && nodes[k].depth == nodes[j].depth + 1
  }

  ghost predicate CopiesInput(t: SubTask, n: Node) {
    && n.title == t.title && n.verification == t.verification && n.delegate == t.delegate
    && t.details == Some(n.details) && n.needsMoreWork == t.needsMoreWork && n.rfq == None
  }

  /** Nodes created so far, the k-th of them for tempIds[k]: each once, after its parent. */
  ghost predicate Planted(inputs: map<string, SubTask>, nodes: seq<Node>, tempIds: seq<string>, first: nat) {
    && |nodes| == |tempIds| && Distinct(tempIds)
    && (forall k :: 0 <= k < |nodes| ==> tempIds[k] in inputs && nodes[k].id == first + k)
    && (forall k :: 0 <= k < |nodes| ==> CopiesInput(inputs[tempIds[k]], nodes[k]))
    && (forall k :: 0 <= k < |nodes| ==> HangsBelow(inputs, nodes, tempIds, k))
    && (forall k :: 0 <= k < |nodes| ==> AtDepth(inputs, tempIds[k], nodes[k].depth))
  }

  /** The whole proposal is stored. */
  ghost predicate Forest(inputs: map<string, SubTask>, nodes: seq<Node>, tempIds: seq<string>, first: nat) {
    Planted(inputs, nodes, tempIds, first) && forall id :: id in inputs ==> id in tempIds
  }

  /** nodeByTempID: the node created for each id. */
  ghost predicate Registered(nodes: seq<Node>, tempIds: seq<string>, nodeOf: map<string, Node>)
    requires |nodes| == |tempIds|
  {
    && (forall k :: 0 <= k < |nodes| ==> tempIds[k] in nodeOf && nodeOf[tempIds[k]] == nodes[k])
    && (forall id :: id in nodeOf ==> id in tempIds)
  }

  lemma StillHangs(inputs: map<string, SubTask>, nodes: seq<Node>, tempIds: seq<string>, k: nat, n: Node, id: string)
    requires k < |nodes| == |tempIds| && tempIds[k] in inputs && HangsBelow(inputs, nodes, tempIds, k)
    ensures HangsBelow(inputs, nodes + [n], tempIds + [id], k)
  {
    var parent := inputs[tempIds[k]].parent;
    if parent != "" {
      var j :| 0 <= j < k && tempIds[j] == parent && nodes[k].parent == Some(nodes[j].id)
               && nodes[k].depth == nodes[j].depth + 1;
      assert (tempIds + [id])[j] == tempIds[j] && (nodes + [n])[j] == nodes[j];
    }
  }

  lemma NewNodeHangs(inputs: map<string, SubTask>, nodes: seq<Node>, tempIds: seq<string>, nodeOf: map<string, Node>,
                     first: nat, id: string, n: Node)
    requires Planted(inputs, nodes, tempIds, first) && Registered(nodes, tempIds, nodeOf)
    requires id in inputs
    requires inputs[id].parent == "" ==> n.parent == None && n.depth == 0
    requires inputs[id].parent != "" ==> inputs[id].parent in nodeOf
    requires inputs[id].parent != "" ==> n.parent == Some(nodeOf[inputs[id].parent].id)
    requires inputs[id].parent != "" ==> n.depth == nodeOf[inputs[id].parent].depth + 1
    ensures HangsBelow(inputs, nodes + [n], tempIds + [id], |nodes|) && AtDepth(inputs, id, n.depth)
  {
    if inputs[id].parent != "" {
      var j :| 0 <= j < |tempIds| && tempIds[j] == inputs[id].parent;
      assert (tempIds + [id])[j] == tempIds[j] && (nodes + [n])[j] == nodes[j] && nodeOf[tempIds[j]] == nodes[j];
      assert AtDepth(inputs, tempIds[j], nodes[j].depth);
    }
  }

  lemma Plant(inputs: map<string, SubTask>, nodes: seq<Node>, tempIds: seq<string>, nodeOf: map<string, Node>,
              first: nat, id: string, n: Node)
    requires Planted(inputs, nodes, tempIds, first) && Registered(nodes, tempIds, nodeOf)
    requires id in inputs && id !in nodeOf && n.id == first + |nodes| && CopiesInput(inputs[id], n)
    requires inputs[id].parent == "" ==> n.parent == None && n.depth == 0
    requires inputs[id].parent != "" ==> inputs[id].parent in nodeOf
    requires inputs[id].parent != "" ==> n.parent == Some(nodeOf[inputs[id].parent].id)
    requires inputs[id].parent != "" ==> n.depth == nodeOf[inputs[id].parent].depth + 1
    ensures Planted(inputs, nodes + [n], tempIds + [id], first)
    ensures Registered(nodes + [n], tempIds + [id], nodeOf[id := n])
  {
    var moreNodes, moreIds := nodes + [n], tempIds + [id];
    forall k | 0 <= k < |tempIds| ensures tempIds[k] != id {
      assert tempIds[k] in nodeOf;
    }
    forall k | 0 <= k < |moreNodes| ensures HangsBelow(inputs, moreNodes, moreIds, k) {
      if k < |nodes| { StillHangs(inputs, nodes, tempIds, k, n, id); }
      else { NewNodeHangs(inputs, nodes, tempIds, nodeOf, first, id, n); }
    }
    NewNodeHangs(inputs, nodes, tempIds, nodeOf, first, id, n);
  }

  lemma PlantedIsRooted(inputs: map<string, SubTask>, nodes: seq<Node>, tempIds: seq<string>, first: nat)
    requires Forest(inputs, nodes, tempIds, first) && "" !in inputs
    ensures !Cyclic(inputs)
  {
    forall id | id in inputs ensures Rooted(inputs, id) {
      var k :| 0 <= k < |tempIds| && tempIds[k] == id;
      assert AtDepth(inputs, tempIds[k], nodes[k].depth);
    }
    RootedMeansAcyclic(inputs);
  }

  /** The pending sub-tasks among those listed all wait for a pending parent. */
  ghost predicate AllWait(inputs: map<string, SubTask>, pending: map<string, SubTask>, listed: seq<string>) {
    forall id {:trigger ParentOf(inputs, id)} :: id in listed && id in pending ==> ParentOf(inputs, id) in pending
  }

  lemma OneMoreWaits(inputs: map<string, SubTask>, pending: map<string, SubTask>, order: seq<string>, i: nat)
    requires i < |order| && (order[i] in pending ==> ParentOf(inputs, order[i]) in pending)
    ensures AllWait(inputs, pending, order[..i]) ==> AllWait(inputs, pending, order[..i + 1])
  {
    assert order[..i + 1] == order[..i] + [order[i]];
  }

  ghost predicate AllMarshal(inputs: map<string, SubTask>) {
    forall id :: id in inputs ==> inputs[id].details.Some?
  }

  /** The state of the worklist: what is pending, and the nodes created for the rest. */
  ghost predicate Worklist(inputs: map<string, SubTask>, first: nat, pending: map<string, SubTask>,
                           nodeOf: map<string, Node>, nodes: seq<Node>, tempIds: seq<string>) {
    && (forall id :: id in pending ==> id in inputs && pending[id] == inputs[id])
    && (forall id :: id in inputs <==> id in pending || id in nodeOf)
    && pending.Keys !! nodeOf.Keys
    && Planted(inputs, nodes, tempIds, first)
    && Registered(nodes, tempIds, nodeOf)
  }

  /** One sub-task of a pass whose parent, if any, has its node: create its node. */
  method CreateNode(inputs: map<string, SubTask>, first: nat, ghost pending: map<string, SubTask>, t: SubTask,
                    ghost nodeOf: map<string, Node>, nodes: seq<Node>, ghost tempIds: seq<string>,
                    parentNode: Option<Node>)
    returns (node: Option<Node>)
    requires Worklist(inputs, first, pending, nodeOf, nodes, tempIds)
    requires t.tempId in pending && pending[t.tempId] == t
    requires if t.parent == "" then parentNode == None else t.parent in nodeOf && parentNode == Some(nodeOf[t.parent])
    ensures node.Some? <==> t.details.Some?
    ensures node.Some? ==> Worklist(inputs, first, pending - {t.tempId}, nodeOf[t.tempId := node.value],
                                    nodes + [node.value], tempIds + [t.tempId])
  {
    if t.details.None? { return None; }
    var parent := if parentNode.Some? then Some(parentNode.value.id) else None;
    var depth := if parentNode.Some? then parentNode.value.depth + 1 else 0;
    var n := Node(first + |nodes|, parent, t.title, t.verification, t.delegate, t.details.value, depth,
                  t.needsMoreWork, None);
    Plant(inputs, nodes, tempIds, nodeOf, first, t.tempId, n);
    return Some(n);
  }

  /** One pass over the order: create the node of every pending sub-task whose parent has one.
      A pass that creates none finds every pending sub-task waiting for another. */
  method Pass(order: seq<string>, inputs: map<string, SubTask>, first: nat, todo: map<string, SubTask>,
              known: map<string, Node>, nodesSoFar: seq<Node>, ghost idsSoFar: seq<string>)
    returns (bad: Option<string>, progress: bool, pending: map<string, SubTask>, nodeOf: map<string, Node>,
             nodes: seq<Node>, ghost tempIds: seq<string>)
    requires Proposal(order, inputs) && Worklist(inputs, first, todo, known, nodesSoFar, idsSoFar)
    ensures bad.Some? ==> bad.value in inputs && inputs[bad.value].details.None?
    ensures bad.None? ==> Worklist(inputs, first, pending, nodeOf, nodes, tempIds)
    ensures bad.None? ==> if progress then |pending| < |todo| else pending == todo && AllWait(inputs, todo, order)
  {
    progress, pending, nodeOf, nodes, tempIds := false, todo, known, nodesSoFar, idsSoFar;
    for i := 0 to |order|
      invariant Worklist(inputs, first, pending, nodeOf, nodes, tempIds)
      invariant if progress then |pending| < |todo| else pending == todo && AllWait(inputs, todo, order[..i])
    {
      if order[i] !in pending {
        if !progress { OneMoreWaits(inputs, todo, order, i); }
        continue;
      }
      var t := pending[order[i]];
      var parentNode: Option<Node> := None;
      if t.parent != "" {
        if t.parent !in nodeOf {
          if !progress { OneMoreWaits(inputs, todo, order, i); }
          continue;
        }
        parentNode := Some(nodeOf[t.parent]);
      }
      var node := CreateNode(inputs, first, pending, t, nodeOf, nodes, tempIds, parentNode);
      if node.None? { return Some(t.tempId), progress, pending, nodeOf, nodes, tempIds; }
      Shrinks(pending, t.tempId);
      nodeOf, nodes, tempIds := nodeOf[t.tempId := node.value], nodes + [node.value], tempIds + [t.tempId];
      pending := pending - {t.tempId};
      progress := true;
    }
    assert order[..|order|] == order;
    return None, progress, pending, nodeOf, nodes, tempIds;
  }

  /** The worklist: with details that marshal it succeeds exactly when no sub-task is its own
      ancestor, and then every node is created once, after its parent, at its distance from its root. */
  method CreateNodes(order: seq<string>, inputs: map<string, SubTask>, first: nat)
    returns (outcome: Outcome, nodes: seq<Node>, ghost tempIds: seq<string>)
    requires Proposal(order, inputs)
    ensures outcome.Created? ==> Forest(inputs, nodes, tempIds, first)
    ensures outcome.Created? <==> !Cyclic(inputs) && AllMarshal(inputs)
    ensures outcome.CycleDetected? ==> Cyclic(inputs)
    ensures outcome.BadDetails? ==> outcome.tempId in inputs && inputs[outcome.tempId].details.None?
  {
    var pending := inputs;
    var nodeOf: map<string, Node> := map[];
    nodes, tempIds := [], [];
    while |pending| > 0
      invariant Worklist(inputs, first, pending, nodeOf, nodes, tempIds)
      decreases |pending|
    {
      var bad, progress;
      bad, progress, pending, nodeOf, nodes, tempIds := Pass(order, inputs, first, pending, nodeOf, nodes, tempIds);
      if bad.Some? { return BadDetails(bad.value), nodes, tempIds; }
      if !progress {
        NoProgressMeansCycle(order, inputs, pending);
        return CycleDetected, nodes, tempIds;
      }
    }
    AllPlanted(inputs, pending, nodes, tempIds, nodeOf, first);
    return Created, nodes, tempIds;
  }

  lemma Shrinks(pending: map<string, SubTask>, id: string)
    requires id in pending
    ensures |pending - {id}| < |pending|
  {
    assert (pending - {id}).Keys == pending.Keys - {id};
    assert |pending - {id}| == |(pending - {id}).Keys| && |pending| == |pending.Keys|;
  }

  lemma NoProgressMeansCycle(order: seq<string>, inputs: map<string, SubTask>, pending: map<string, SubTask>)
    requires Proposal(order, inputs) && |pending| > 0 && pending.Keys <= inputs.Keys
    requires AllWait(inputs, pending, order)
    ensures Cyclic(inputs)
  {
    var waiting := pending.Keys;
    assert |waiting| > 0;
    forall id | id in waiting ensures ParentOf(inputs, id) in waiting {
      assert id in order && id in pending;
    }
    StuckMeansCyclic(inputs, waiting);
  }

  lemma AllPlanted(inputs: map<string, SubTask>, pending: map<string, SubTask>, nodes: seq<Node>, tempIds: seq<string>,
                   nodeOf: map<string, Node>, first: nat)
    requires |pending| == 0 && "" !in inputs
    requires forall id :: id in inputs <==> id in pending || id in nodeOf
    requires Planted(inputs, nodes, tempIds, first) && Registered(nodes, tempIds, nodeOf)
    ensures Forest(inputs, nodes, tempIds, first) && !Cyclic(inputs) && AllMarshal(inputs)
  {
    forall id | id in inputs ensures id in tempIds && inputs[id].details.Some? {
      assert id in nodeOf;
      var k :| 0 <= k < |tempIds| && tempIds[k] == id;
      assert CopiesInput(inputs[tempIds[k]], nodes[k]);
    }
    PlantedIsRooted(inputs, nodes, tempIds, first);
  }

  datatype Proposed = Rejected | Failed(outcome: Outcome) | Stored(nodes: seq<Node>)

  /** CreateDecomposition up to its validation: a proposal is stored exactly when it passes the
      checks, its details marshal and its parent relation has no cycle. */
  method Propose(tasks: seq<SubTask>, first: nat) returns (r: Proposed, ghost tempIds: seq<string>)
    ensures r.Rejected? <==> !Acceptable(Normalize(tasks))
    ensures r.Stored? <==>
      var ns := Normalize(tasks); Acceptable(ns) && AllMarshal(ById(ns)) && !Cyclic(ById(ns))
    ensures r.Stored? ==> |r.nodes| == |tasks|
    ensures r.Stored? ==> Forest(ById(Normalize(tasks)), r.nodes, tempIds, first)
  {
    var ns := Normalize(tasks);
    tempIds := [];
    var ok, order, inputs := CheckProposal(ns);
    if !ok { return Rejected, tempIds; }
    var outcome, nodes;
    outcome, nodes, tempIds := CreateNodes(order, inputs, first);
    if !outcome.Created? { return Failed(outcome), tempIds; }
    SameLength(order, tempIds);
    return Stored(nodes), tempIds;
  }

  lemma SameLength(a: seq<string>, b: seq<string>)
    requires Distinct(a) && Distinct(b) && forall x :: x in a <==> x in b
    ensures |a| == |b|
  {
    DistinctIsNoLonger(a, set x | x in b);
    DistinctIsNoLonger(b, set x | x in a);
    CardinalityOf(a);
    CardinalityOf(b);
  }

  lemma {:induction false} CardinalityOf(s: seq<string>)
    ensures |set x | x in s| <= |s|
  {
    if s != [] {
      var init, last := s[..|s| - 1], s[|s| - 1];
      CardinalityOf(init);
      assert s == init + [last];
      assert (set x | x in s) == (set x | x in init) + {last};
    }
  }
}
