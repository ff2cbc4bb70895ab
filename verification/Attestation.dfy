/** Completion-attestation chains: the cycle check and the validation of a whole set of links.

    A link carries the outcome of its own check (schema, times, signature) and its canonical
    message; an empty parent id marks a root. */
module Attestation {
  import opened Common

  datatype Link = Link(
    id: string,
    parent: string,
    from: string,
    to: string,
    childEscrow: Option<int>,
    message: string,
    sound: bool)

  // ---- the parent-child relation

  /** The link ids listed under a parent, in the order of the links. */
  function ChildrenOf(links: seq<Link>, parent: string): seq<string> {
    if links == [] then []
    else
      var last := links[|links| - 1];
      ChildrenOf(links[..|links| - 1], parent)
        + if last.parent == parent && parent != "" then [last.id] else []
  }

  ghost predicate Edge(links: seq<Link>, parent: string, child: string) {
    parent != "" && exists l :: l in links && l.parent == parent && l.id == child
  }

  lemma {:induction false} ChildrenAreEdges(links: seq<Link>, parent: string, child: string)
    ensures child in ChildrenOf(links, parent) <==> Edge(links, parent, child)
  {
    if links != [] {
      var init, last := links[..|links| - 1], links[|links| - 1];
      ChildrenAreEdges(init, parent, child);
      assert links == init + [last];
      if l :| l in links && l.parent == parent && l.id == child {
        assert l in init || l == last;
      }
    }
  }

  /** A walk down the relation. */
  ghost predicate IsPath(links: seq<Link>, p: seq<string>) {
    |p| <= 1 || (IsPath(links, p[..|p| - 1]) && Edge(links, p[|p| - 2], p[|p| - 1]))
  }

  ghost predicate IsCycle(links: seq<Link>, p: seq<string>) {
    |p| >= 2 && IsPath(links, p) && p[0] == p[|p| - 1]
  }

  ghost predicate HasCycle(links: seq<Link>) {
    exists p :: IsCycle(links, p)
  }

  ghost predicate OnCycle(links: seq<Link>, id: string) {
    exists p :: IsCycle(links, p) && p[0] == id
  }

  lemma {:induction false} SuffixIsPath(links: seq<Link>, p: seq<string>, k: nat)
    requires IsPath(links, p) && k <= |p|
    ensures IsPath(links, p[k..])
  {
    if k < |p| {
      SuffixIsPath(links, p[..|p| - 1], k);
      assert p[k..][..|p| - k - 1] == p[..|p| - 1][k..];
    }
  }

  lemma StackClosesCycle(links: seq<Link>, stack: seq<string>, id: string)
    requires IsPath(links, stack) && id in stack && Edge(links, stack[|stack| - 1], id)
    ensures OnCycle(links, id)
  {
    var k :| 0 <= k < |stack| && stack[k] == id;
    SuffixIsPath(links, stack, k);
    var p := stack[k..] + [id];
    assert p[..|p| - 1] == stack[k..];
    assert IsCycle(links, p);
  }

  // ---- a finishing order rules cycles out

  /** Each id is finished once, after all its children. */
  ghost predicate Ranked(links: seq<Link>, order: seq<string>) {
    order == [] ||
      var init, last := order[..|order| - 1], order[|order| - 1];
      Ranked(links, init) && last !in init && forall c :: Edge(links, last, c) ==> c in init
  }

  lemma {:induction false} RankedChild(links: seq<Link>, order: seq<string>, i: nat, c: string) returns (k: nat)
    requires Ranked(links, order) && i < |order| && Edge(links, order[i], c)
    ensures k < i && order[k] == c
  {
    var init := order[..|order| - 1];
    if i == |order| - 1 {
      k :| 0 <= k < |init| && init[k] == c;
    } else {
      k := RankedChild(links, init, i, c);
    }
  }

  lemma {:induction false} RankedOnce(links: seq<Link>, order: seq<string>, i: nat, j: nat)
    requires Ranked(links, order) && i < |order| && j < |order| && order[i] == order[j]
    ensures i == j
  {
    var init := order[..|order| - 1];
    if i < |init| && j < |init| {
      RankedOnce(links, init, i, j);
    }
  }

  /** Ranks fall along a path. */
  lemma {:induction false} RanksFall(links: seq<Link>, order: seq<string>, p: seq<string>, i: nat) returns (j: nat)
    requires Ranked(links, order) && IsPath(links, p) && |p| >= 1
    requires i < |order| && p[0] == order[i]
    ensures j <= i && order[j] == p[|p| - 1] && (|p| >= 2 ==> j < i)
    decreases |p|
  {
    if |p| == 1 {
      j := i;
    } else {
      var k := RanksFall(links, order, p[..|p| - 1], i);
      j := RankedChild(links, order, k, p[|p| - 1]);
    }
  }

  /** Once every link is finished there is no cycle. */
  lemma FinishedExcludesCycles(links: seq<Link>, order: seq<string>)
    requires Ranked(links, order) && forall l :: l in links ==> l.id in order
    ensures !HasCycle(links)
  {
    if p :| IsCycle(links, p) {
      assert Edge(links, p[|p| - 2], p[|p| - 1]);
      var i :| 0 <= i < |order| && order[i] == p[0];
      var j := RanksFall(links, order, p, i);
      RankedOnce(links, order, i, j);
    }
  }

  // ---- the depth-first search

  datatype Color = InProgress | Finished

  function Listed(children: map<string, seq<string>>, parent: string): seq<string> {
    if parent in children then children[parent] else []
  }

  ghost predicate Grouped(links: seq<Link>, children: map<string, seq<string>>) {
    forall a {:trigger Listed(children, a)} :: Listed(children, a) == ChildrenOf(links, a)
  }

  predicate Colored(visited: map<string, Color>, id: string, color: Color) {
    id in visited && visited[id] == color
  }

  /** What is finished stays finished, and nothing is forgotten. */
  ghost predicate Advances(before: map<string, Color>, after: map<string, Color>) {
    && before.Keys <= after.Keys
    && forall id :: Colored(before, id, Finished) ==> Colored(after, id, Finished)
  }

  ghost predicate AllFinished(visited: map<string, Color>, ids: seq<string>) {
    forall c :: c in ids ==> Colored(visited, c, Finished)
  }

  /** The colours of a search whose calls in progress are, from the outside in, on the stack, and
      whose finished ids are listed in the order they finished. */
  ghost predicate SearchOk(links: seq<Link>, visited: map<string, Color>, stack: seq<string>, order: seq<string>) {
    && (forall id :: Colored(visited, id, InProgress) <==> id in stack)
    && (forall id :: Colored(visited, id, Finished) <==> id in order)
    && IsPath(links, stack)
    && Ranked(links, order)
  }

  ghost predicate Below(links: seq<Link>, stack: seq<string>, id: string) {
    stack == [] || Edge(links, stack[|stack| - 1], id)
  }

  ghost predicate LinksWithin(links: seq<Link>, universe: set<string>) {
    forall l :: l in links ==> l.id in universe
  }

  lemma ChildIsEdge(links: seq<Link>, parent: string, child: string, universe: set<string>)
    requires child in ChildrenOf(links, parent) && LinksWithin(links, universe)
    ensures Edge(links, parent, child) && child in universe
  {
    ChildrenAreEdges(links, parent, child);
  }

  lemma Enter(links: seq<Link>, visited: map<string, Color>, stack: seq<string>, order: seq<string>, id: string)
    requires SearchOk(links, visited, stack, order) && id !in visited && Below(links, stack, id)
    ensures SearchOk(links, visited[id := InProgress], stack + [id], order) && id !in stack
    ensures Advances(visited, visited[id := InProgress])
  {
    assert (stack + [id])[..|stack|] == stack;
  }

  lemma Leave(links: seq<Link>, visited: map<string, Color>, stack: seq<string>, order: seq<string>, id: string)
    requires SearchOk(links, visited, stack + [id], order) && id !in stack
    requires AllFinished(visited, ChildrenOf(links, id))
    ensures SearchOk(links, visited[id := Finished], stack, order + [id])
    ensures Advances(visited, visited[id := Finished])
  {
    assert id in stack + [id] && Colored(visited, id, InProgress) && id !in order;
    assert (stack + [id])[..|stack|] == stack;
    forall c | Edge(links, id, c) ensures c in order {
      ChildrenAreEdges(links, id, c);
      assert Colored(visited, c, Finished);
    }
    RankedGrows(links, order, id);
    LeaveColors(visited, stack, order, id);
  }

  lemma RankedGrows(links: seq<Link>, order: seq<string>, id: string)
    requires Ranked(links, order) && id !in order && forall c :: Edge(links, id, c) ==> c in order
    ensures Ranked(links, order + [id])
  {
    assert (order + [id])[..|order|] == order;
  }

  lemma LeaveColors(visited: map<string, Color>, stack: seq<string>, order: seq<string>, id: string)
    requires forall x :: Colored(visited, x, InProgress) <==> x in stack + [id]
    requires forall x :: Colored(visited, x, Finished) <==> x in order
    requires id !in stack
    ensures forall x :: Colored(visited[id := Finished], x, InProgress) <==> x in stack
    ensures forall x :: Colored(visited[id := Finished], x, Finished) <==> x in order + [id]
  {
    var after := visited[id := Finished];
    forall x ensures Colored(after, x, InProgress) <==> x in stack {
      assert x in stack + [id] <==> x in stack || x == id;
    }
    forall x ensures Colored(after, x, Finished) <==> x in order + [id] {
      assert Colored(visited, x, Finished) <==> x in order;
    }
  }

  /** The search: the map of visited ids, with its two histories. */
  class Search {
    const links: seq<Link>
    const children: map<string, seq<string>>
    var visited: map<string, Color>
    ghost var stack: seq<string>
    ghost var order: seq<string>

    constructor (links: seq<Link>, children: map<string, seq<string>>)
      ensures this.links == links && this.children == children
      ensures SearchOk(links, visited, stack, order) && stack == [] && order == []
    {
      this.links, this.children, visited := links, children, map[];
      stack, order := [], [];
    }

    /** Mark an id in progress, on entry to its call. */
    method Begin(id: string)
      requires SearchOk(links, visited, stack, order) && id !in visited && Below(links, stack, id)
      modifies this
      ensures SearchOk(links, visited, stack, order) && stack == old(stack) + [id] && id !in old(stack)
      ensures visited == old(visited)[id := InProgress] && Advances(old(visited), visited)
    {
      Enter(links, visited, stack, order, id);
      visited := visited[id := InProgress];
      stack := stack + [id];
    }

    /** Mark an id done, when its call is about to return. */
    method End(id: string, ghost outer: seq<string>)
      requires SearchOk(links, visited, stack, order) && stack == outer + [id] && id !in outer
      requires AllFinished(visited, ChildrenOf(links, id))
      modifies this
      ensures SearchOk(links, visited, stack, order) && stack == outer
      ensures Colored(visited, id, Finished) && Advances(old(visited), visited)
    {
      Leave(links, visited, outer, order, id);
      visited := visited[id := Finished];
      stack := outer;
      order := order + [id];
    }

    /** Visit an id below the calls in progress. Either it ends finished, or there is a cycle. */
    method Visit(id: string, ghost universe: set<string>) returns (cycleAt: Option<string>)
      requires Grouped(links, children) && SearchOk(links, visited, stack, order) && Below(links, stack, id)
      requires id in universe && LinksWithin(links, universe)
      modifies this
      ensures cycleAt.Some? ==> OnCycle(links, cycleAt.value)
      ensures cycleAt.None? ==> SearchOk(links, visited, stack, order) && stack == old(stack)
      ensures cycleAt.None? ==> Colored(visited, id, Finished) && Advances(old(visited), visited)
      decreases universe - visited.Keys
    {
      if Colored(visited, id, InProgress) {
        StackClosesCycle(links, stack, id);
        return Some(id);
      }
      if Colored(visited, id, Finished) { return None; }
      ghost var outer := stack;
      Begin(id);
      assert universe - visited.Keys < universe - old(visited.Keys) by {
        assert id in visited && id in universe && id !in old(visited);
      }
      ghost var entered := visited;
      var ids := Listed(children, id);
      for i := 0 to |ids|
        invariant SearchOk(links, visited, stack, order) && stack == outer + [id]
        invariant Advances(entered, visited) && AllFinished(visited, ids[..i])
      {
        ChildIsEdge(links, id, ids[i], universe);
        ghost var before := visited;
        var below := Visit(ids[i], universe);
        if below.Some? { return below; }
        OneMoreFinished(entered, before, visited, ids, i);
      }
      assert ids[..|ids|] == ids;
      End(id, outer);
      return None;
    }
  }

  lemma OneMoreFinished(entered: map<string, Color>, before: map<string, Color>, after: map<string, Color>,
                        ids: seq<string>, i: nat)
    requires i < |ids| && AllFinished(before, ids[..i]) && Colored(after, ids[i], Finished)
    requires Advances(entered, before) && Advances(before, after)
    ensures AllFinished(after, ids[..i + 1]) && Advances(entered, after)
  {
    forall c | c in ids[..i + 1] ensures Colored(after, c, Finished) {
      assert c in ids[..i] || c == ids[i];
    }
  }

  method GroupByParent(links: seq<Link>) returns (children: map<string, seq<string>>)
    ensures Grouped(links, children)
  {
    children := map[];
    for i := 0 to |links|
      invariant Grouped(links[..i], children)
    {
      var l := links[i];
      ghost var before := children;
      if l.parent != "" {
        children := children[l.parent := Listed(children, l.parent) + [l.id]];
      }
      GroupingGrows(links[..i], l, before, children);
      assert links[..i + 1] == links[..i] + [l];
    }
    assert links[..|links|] == links;
  }

  lemma GroupingGrows(links: seq<Link>, l: Link, before: map<string, seq<string>>, after: map<string, seq<string>>)
    requires Grouped(links, before)
    requires after == if l.parent == "" then before
                      else before[l.parent := Listed(before, l.parent) + [l.id]]
    ensures Grouped(links + [l], after)
  {
    assert (links + [l])[..|links|] == links;
    forall a ensures Listed(after, a) == ChildrenOf(links + [l], a) {
      assert Listed(before, a) == ChildrenOf(links, a);
    }
  }

  /** detectCycles: it reports a cycle exactly when the parent links contain one, at an id that is on one. */
  method DetectCycles(links: seq<Link>) returns (cycleAt: Option<string>)
    ensures cycleAt.Some? <==> HasCycle(links)
    ensures cycleAt.Some? ==> OnCycle(links, cycleAt.value)
  {
    var children := GroupByParent(links);
    var search := new Search(links, children);
    ghost var universe := set l | l in links :: l.id;
    for i := 0 to |links|
      invariant SearchOk(links, search.visited, search.stack, search.order) && search.stack == []
      invariant forall j :: 0 <= j < i ==> Colored(search.visited, links[j].id, Finished)
    {
      assert links[i] in links;
      cycleAt := search.Visit(links[i].id, universe);
      if cycleAt.Some? { return; }
    }
    FinishedExcludesCycles(links, search.order);
    return None;
  }
}
