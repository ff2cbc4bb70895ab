/** Validation of a whole set of completion-attestation links. */
module AttestationChain {
  import opened Common
  import opened Sorting
  import opened Text
  import opened Attestation

  // ---- what a valid chain is

  ghost predicate UniqueIds(links: seq<Link>) {
    forall i, j :: 0 <= i < j < |links| ==> links[i].id != links[j].id
  }

  /** strings.EqualFold on addresses. */
  predicate EqualFold(a: string, b: string) { ToLower(a) == ToLower(b) }

  /** A root, or a link handed on by the receiver of its parent. */
  ghost predicate Attached(links: seq<Link>, l: Link) {
    l.parent == "" || exists p :: p in links && p.id == l.parent && ToLower(l.from) == ToLower(p.to)
  }

  ghost predicate Covers(links: seq<Link>, child: int) {
    exists l :: l in links && l.childEscrow == Some(child)
  }

  /** Every child escrow is covered and, when there are any, nothing else is referenced. */
  ghost predicate ChildrenCovered(links: seq<Link>, childIds: seq<int>) {
    && (forall c :: c in childIds ==> Covers(links, c))
    && (childIds != [] ==> forall c :: Covers(links, c) ==> c in childIds)
  }

  ghost predicate ChainValid(links: seq<Link>, childIds: seq<int>) {
    && UniqueIds(links)
    && (forall l :: l in links ==> l.sound)
    && (forall l :: l in links ==> Attached(links, l))
    && !HasCycle(links)
    && ChildrenCovered(links, childIds)
  }

  function Messages(links: seq<Link>): seq<string> {
    seq(|links|, i requires 0 <= i < |links| => links[i].message)
  }

  /** strings.Join with a newline. */
  function JoinLines(lines: seq<string>): string {
    if lines == [] then "" else if |lines| == 1 then lines[0]
    else JoinLines(lines[..|lines| - 1]) + "\n" + lines[|lines| - 1]
  }

  function RootHash(hash: string -> string, links: seq<Link>): string {
    hash(JoinLines(SortStrings(Messages(links))))
  }

  ghost predicate StrictlyIncreasing(s: seq<int>) {
    forall i, j :: 0 <= i < j < |s| ==> s[i] < s[j]
  }

  // ---- ValidateChain

  datatype Reason =
    | DuplicateLink(id: string)
    | UnsoundLink(id: string)
    | MissingParent(id: string)
    | WrongSender(id: string)
    | CycleAt(id: string)
    | UnknownChild(id: string, child: int)
    | UncoveredChild(child: int)

  datatype ChainResult = ChainResult(
    valid: bool,
    rootHash: string,
    linkCount: nat,
    reasons: seq<Reason>,
    covered: seq<int>)

  /** The reason is true of the links. */
  ghost predicate Justified(links: seq<Link>, childIds: seq<int>, reason: Reason) {
    match reason
    case DuplicateLink(id) => exists i, j :: 0 <= i < j < |links| && links[i].id == id && links[j].id == id
    case UnsoundLink(id) => exists l :: l in links && l.id == id && !l.sound
    case MissingParent(id) =>
      exists l :: l in links && l.id == id && l.parent != "" && forall p :: p in links ==> p.id != l.parent
    case WrongSender(id) =>
      exists l, p :: l in links && l.id == id && l.parent != "" && p in links && p.id == l.parent
                     && ToLower(l.from) != ToLower(p.to)
    case CycleAt(id) => OnCycle(links, id)
    case UnknownChild(id, child) =>
      (exists l :: l in links && l.id == id && l.childEscrow == Some(child)) && childIds != [] && child !in childIds
    case UncoveredChild(child) => child in childIds && !Covers(links, child)
  }

  function Rejected(linkCount: nat, reason: Reason): ChainResult {
    ChainResult(false, "", linkCount, [reason], [])
  }

  /** The first loop: index the links by id, or find two links with one id. */
  method IndexById(links: seq<Link>) returns (byId: map<string, Link>, duplicate: Option<string>)
    ensures duplicate.None? <==> UniqueIds(links)
    ensures duplicate.Some? ==> Justified(links, [], DuplicateLink(duplicate.value))
    ensures duplicate.None? ==> forall l :: l in links <==> l.id in byId && byId[l.id] == l
    ensures duplicate.None? ==> forall id :: id in byId ==> byId[id].id == id
  {
    byId := map[];
    for i := 0 to |links|
      invariant UniqueIds(links[..i])
      invariant forall l :: l in links[..i] <==> l.id in byId && byId[l.id] == l
      invariant forall id :: id in byId ==> byId[id].id == id
    {
      if links[i].id in byId {
        assert byId[links[i].id] in links[..i];
        var j :| 0 <= j < i && links[j] == byId[links[i].id];
        assert links[j].id == links[i].id;
        return byId, Some(links[i].id);
      }
      assert links[..i + 1] == links[..i] + [links[i]];
      byId := byId[links[i].id := links[i]];
    }
    assert links[..|links|] == links;
    return byId, None;
  }

  method CheckEach(links: seq<Link>) returns (bad: Option<Reason>)
    ensures bad.None? <==> forall l :: l in links ==> l.sound
    ensures bad.Some? ==> Justified(links, [], bad.value)
  {
    for i := 0 to |links|
      invariant forall j :: 0 <= j < i ==> links[j].sound
    {
      if !links[i].sound { return Some(UnsoundLink(links[i].id)); }
    }
    return None;
  }

  /** Parent-link integrity. */
  method CheckParents(links: seq<Link>, byId: map<string, Link>) returns (bad: Option<Reason>)
    requires forall l :: l in links <==> l.id in byId && byId[l.id] == l
    requires forall id :: id in byId ==> byId[id].id == id
    ensures bad.None? <==> forall l :: l in links ==> Attached(links, l)
    ensures bad.Some? ==> Justified(links, [], bad.value)
  {
    for i := 0 to |links|
      invariant forall j :: 0 <= j < i ==> Attached(links, links[j])
    {
      var l := links[i];
      assert l in links;
      if l.parent != "" {
        if l.parent !in byId {
          assert !Attached(links, l);
          return Some(MissingParent(l.id));
        }
        var parent := byId[l.parent];
        assert forall p :: p in links && p.id == l.parent ==> p == parent;
        if !EqualFold(l.from, parent.to) {
          assert !Attached(links, l);
          return Some(WrongSender(l.id));
        }
        assert parent in links;
      }
    }
    return None;
  }

  /** The two coverage loops. */
  method CheckChildren(links: seq<Link>, childIds: seq<int>) returns (bad: Option<Reason>, covered: set<int>)
    ensures bad.None? <==> ChildrenCovered(links, childIds)
    ensures bad.Some? ==> Justified(links, childIds, bad.value)
    ensures bad.None? ==> forall c :: c in covered <==> Covers(links, c)
  {
    var known: set<int> := {};
    for i := 0 to |childIds|
      invariant forall c :: c in known <==> c in childIds[..i]
      invariant |known| > 0 <==> i > 0
    {
      assert childIds[..i + 1] == childIds[..i] + [childIds[i]];
      known := known + {childIds[i]};
    }
    assert childIds[..|childIds|] == childIds;
    covered := {};
    for i := 0 to |links|
      invariant forall c :: c in covered <==> Covers(links[..i], c)
      invariant childIds != [] ==> forall c :: c in covered ==> c in childIds
    {
      assert links[..i + 1] == links[..i] + [links[i]];
      if links[i].childEscrow.Some? {
        var child := links[i].childEscrow.value;
        if |known| > 0 && child !in known {
          assert links[i] in links;
          assert Covers(links, child);
          return Some(UnknownChild(links[i].id, child)), covered;
        }
        covered := covered + {child};
      }
    }
    assert links[..|links|] == links;
    for i := 0 to |childIds|
      invariant forall j :: 0 <= j < i ==> childIds[j] in covered
    {
      if childIds[i] !in covered { return Some(UncoveredChild(childIds[i])), covered; }
    }
    return None, covered;
  }

  /** Collect the members of a set, in any order. */
  method Members<T(==)>(s: set<T>) returns (found: seq<T>)
    ensures Distinct(found)
    ensures forall x :: x in found <==> x in s
  {
    var left := s;
    found := [];
    while left != {}
      invariant left <= s && Distinct(found)
      invariant forall x :: x in found <==> x in s && x !in left
      decreases left
    {
      var x :| x in left;
      found := found + [x];
      left := left - {x};
    }
  }

  /** Collect the members of a set and sort them. */
  method SortedMembers(s: set<int>) returns (r: seq<int>)
    ensures StrictlyIncreasing(r)
    ensures forall x :: x in r <==> x in s
  {
    var found := Members(s);
    r := Sort(IntLeq, found);
    SortSorts(IntLeq, found);
    SameMembers(found, r);
    SortKeepsDistinct(IntLeq, found);
  }

  /** What the result says of the links. */
  ghost predicate IsVerdict(links: seq<Link>, childIds: seq<int>, hash: string -> string, r: ChainResult) {
    && r.linkCount == |links|
    && (r.valid <==> links == [] || ChainValid(links, childIds))
    && (if r.valid then r.reasons == [] else |r.reasons| == 1 && Justified(links, childIds, r.reasons[0]))
    && if r.valid && links != [] then
         && r.rootHash == RootHash(hash, links)
         && StrictlyIncreasing(r.covered) && (forall c :: c in r.covered <==> Covers(links, c))
       else r.rootHash == "" && r.covered == []
  }

  /** The hash of the sorted messages. */
  method HashOfAll(links: seq<Link>, hash: string -> string) returns (root: string)
    ensures root == RootHash(hash, links)
  {
    var messages: seq<string> := [];
    for i := 0 to |links|
      invariant messages == Messages(links[..i])
    {
      messages := messages + [links[i].message];
    }
    assert links[..|links|] == links;
    return hash(JoinLines(SortStrings(messages)));
  }

  method ValidateChain(links: seq<Link>, childIds: seq<int>, hash: string -> string) returns (r: ChainResult)
    ensures IsVerdict(links, childIds, hash, r)
    ensures r.valid && links != [] && childIds != [] ==> forall c :: c in r.covered <==> c in childIds
  {
    if |links| == 0 { return ChainResult(true, "", 0, [], []); }
    var byId, duplicate := IndexById(links);
    if duplicate.Some? { return Rejected(|links|, DuplicateLink(duplicate.value)); }
    var bad := CheckEach(links);
    if bad.Some? { return Rejected(|links|, bad.value); }
    bad := CheckParents(links, byId);
    if bad.Some? { return Rejected(|links|, bad.value); }
    var cycleAt := DetectCycles(links);
    if cycleAt.Some? { return Rejected(|links|, CycleAt(cycleAt.value)); }
    var covered: set<int>;
    bad, covered := CheckChildren(links, childIds);
    if bad.Some? { return Rejected(|links|, bad.value); }
    var root := HashOfAll(links, hash);
    var sortedCovered := SortedMembers(covered);
    return ChainResult(true, root, |links|, [], sortedCovered);
  }

  // ---- the order of the links does not matter

  lemma UniqueIdsPermute(links: seq<Link>, perm: seq<Link>)
    requires multiset(links) == multiset(perm) && UniqueIds(links)
    ensures UniqueIds(perm)
  {
    SameMembers(links, perm);
    DistinctByCount(links);
    forall i, j | 0 <= i < j < |perm| ensures perm[i].id != perm[j].id {
      if perm[i] == perm[j] {
        CountedTwice(perm, i, j);
      } else {
        assert perm[i] in links && perm[j] in links;
      }
    }
  }

  lemma {:induction false} PathsPermute(links: seq<Link>, perm: seq<Link>, p: seq<string>)
    requires forall l :: l in links <==> l in perm
    ensures IsPath(links, p) ==> IsPath(perm, p)
    decreases |p|
  {
    if |p| > 1 { PathsPermute(links, perm, p[..|p| - 1]); }
  }

  lemma TakeOut<T>(s: seq<T>, x: T) returns (k: nat)
    requires x in s
    ensures k < |s| && s[k] == x
    ensures s == s[..k] + [x] + s[k + 1..]
    ensures multiset(s[..k] + s[k + 1..]) == multiset(s) - multiset{x}
  {
    k :| 0 <= k < |s| && s[k] == x;
    assert s == s[..k] + [x] + s[k + 1..];
    assert multiset(s) == multiset(s[..k]) + multiset{x} + multiset(s[k + 1..]);
  }

  lemma MessagesSplit(left: seq<Link>, l: Link, right: seq<Link>)
    ensures multiset(Messages(left + [l] + right)) == multiset{l.message} + multiset(Messages(left + right))
  {
    assert Messages(left + [l] + right) == Messages(left) + [l.message] + Messages(right);
    assert Messages(left + right) == Messages(left) + Messages(right);
  }

  lemma DropFirst<T>(s: seq<T>)
    requires s != []
    ensures s == [] + [s[0]] + s[1..] && [] + s[1..] == s[1..]
    ensures multiset(s[1..]) == multiset(s) - multiset{s[0]}
  {
    assert s == [s[0]] + s[1..];
  }

  lemma OneMoreMessage(rest: seq<Link>, left: seq<Link>, l: Link, right: seq<Link>)
    requires multiset(Messages([] + rest)) == multiset(Messages(left + right))
    ensures multiset(Messages([] + [l] + rest)) == multiset(Messages(left + [l] + right))
  {
    MessagesSplit([], l, rest);
    MessagesSplit(left, l, right);
  }

  lemma {:induction false} MessagesPermute(links: seq<Link>, perm: seq<Link>)
    requires multiset(links) == multiset(perm)
    ensures multiset(Messages(links)) == multiset(Messages(perm))
    decreases |links|
  {
    SameMembers(links, perm);
    if links != [] {
      var l, rest := links[0], links[1..];
      DropFirst(links);
      var k := TakeOut(perm, l);
      MessagesPermute(rest, perm[..k] + perm[k + 1..]);
      OneMoreMessage(rest, perm[..k], l, perm[k + 1..]);
    }
  }

  lemma ValidityPermutes(links: seq<Link>, perm: seq<Link>, childIds: seq<int>)
    requires multiset(links) == multiset(perm) && ChainValid(links, childIds)
    ensures ChainValid(perm, childIds)
  {
    SameMembers(links, perm);
    UniqueIdsPermute(links, perm);
    forall l | l in perm ensures Attached(perm, l) {
      assert Attached(links, l);
    }
    if p :| IsCycle(perm, p) {
      PathsPermute(perm, links, p);
      assert IsCycle(links, p);
    }
    forall c ensures Covers(links, c) <==> Covers(perm, c) {}
  }

  lemma ChainsPermute(links: seq<Link>, perm: seq<Link>, childIds: seq<int>, hash: string -> string)
    requires multiset(links) == multiset(perm)
    ensures ChainValid(links, childIds) <==> ChainValid(perm, childIds)
    ensures RootHash(hash, links) == RootHash(hash, perm)
    ensures forall c :: Covers(links, c) <==> Covers(perm, c)
  {
    if ChainValid(links, childIds) { ValidityPermutes(links, perm, childIds); }
    if ChainValid(perm, childIds) { ValidityPermutes(perm, links, childIds); }
    MessagesPermute(links, perm);
    StringOrderIsTotal();
    SortIgnoresOrder(StringLeq, Messages(links), Messages(perm));
    SameMembers(links, perm);
    forall c ensures Covers(links, c) <==> Covers(perm, c) {}
  }

  /** Strictly increasing sequences with the same members are the same. */
  lemma IncreasingIsUnique(s: seq<int>, t: seq<int>)
    requires StrictlyIncreasing(s) && StrictlyIncreasing(t) && forall x :: x in s <==> x in t
    ensures s == t
  {
    DistinctByCount(s);
    DistinctByCount(t);
    forall x ensures multiset(s)[x] == multiset(t)[x] {
      assert x in s <==> x in multiset(s);
      assert x in t <==> x in multiset(t);
    }
    assert multiset(s) == multiset(t);
    SortedIsUnique(IntLeq, s, t);
  }

  /** Validating the same links in another order gives the same verdict, root hash and covered escrows. */
  lemma OrderOfLinksIsIrrelevant(links: seq<Link>, perm: seq<Link>, childIds: seq<int>, hash: string -> string,
                                 r: ChainResult, q: ChainResult)
    requires multiset(links) == multiset(perm)
    requires IsVerdict(links, childIds, hash, r) && IsVerdict(perm, childIds, hash, q)
    ensures r.valid == q.valid && r.rootHash == q.rootHash && r.linkCount == q.linkCount && r.covered == q.covered
  {
    ChainsPermute(links, perm, childIds, hash);
    assert |links| == |multiset(links)| == |multiset(perm)| == |perm|;
    IncreasingIsUnique(r.covered, q.covered);
  }

  // ---- what the root hash binds

  predicate OneLine(s: string) { '\n' !in s }

  /** Where both last lines have no line break, equal texts end in the same line. */
  lemma LastLinesAgree(a: string, b: string, x: string, y: string)
    requires OneLine(a) && OneLine(b) && x + "\n" + a == y + "\n" + b
    ensures a == b && x == y
  {
    var s := x + "\n" + a;
    var i, j := |s| - |a| - 1, |s| - |b| - 1;
    assert s[i] == '\n' && s[j] == '\n';
    assert forall k :: 0 <= k < |a| ==> s[i + 1 + k] == a[k];
    assert forall k :: 0 <= k < |b| ==> s[j + 1 + k] == b[k];
    assert forall k :: i < k < |s| ==> s[k] == a[k - i - 1];
    assert forall k :: j < k < |s| ==> s[k] == b[k - j - 1];
    assert i <= j && j <= i;
    assert a == s[i + 1..] == b && x == s[..i] == y;
  }

  lemma MoreLinesBreak(lines: seq<string>)
    requires |lines| > 1
    ensures !OneLine(JoinLines(lines))
  {
    assert '\n' in "\n" + lines[|lines| - 1];
  }

  lemma {:induction false} LinesReadBack(a: seq<string>, b: seq<string>)
    requires a != [] && b != [] && JoinLines(a) == JoinLines(b)
    requires (forall i :: 0 <= i < |a| ==> OneLine(a[i])) && forall i :: 0 <= i < |b| ==> OneLine(b[i])
    ensures a == b
    decreases |a|
  {
    if |a| > 1 { MoreLinesBreak(a); }
    if |b| > 1 { MoreLinesBreak(b); }
    if |a| > 1 && |b| > 1 {
      var x, y := a[..|a| - 1], b[..|b| - 1];
      LastLinesAgree(a[|a| - 1], b[|b| - 1], JoinLines(x), JoinLines(y));
      LinesReadBack(x, y);
      assert a == x + [a[|a| - 1]] && b == y + [b[|b| - 1]];
    }
  }

  lemma SortedLines(links: seq<Link>)
    requires forall l :: l in links ==> OneLine(l.message)
    ensures var lines := SortStrings(Messages(links));
      |lines| == |links| && multiset(lines) == multiset(Messages(links))
      && forall i :: 0 <= i < |lines| ==> OneLine(lines[i])
  {
    var lines := SortStrings(Messages(links));
    SameMembers(Messages(links), lines);
    forall i | 0 <= i < |lines| ensures OneLine(lines[i]) { assert lines[i] in lines; }
  }

  /** With digests that are injective and messages without line breaks, two sets of links have one root hash exactly
      when they have the same messages, each as often. */
  lemma RootHashBinds(hash: string -> string, links: seq<Link>, others: seq<Link>)
    requires forall a, b :: hash(a) == hash(b) ==> a == b
    requires links != [] && others != []
    requires (forall l :: l in links ==> OneLine(l.message)) && forall l :: l in others ==> OneLine(l.message)
    ensures RootHash(hash, links) == RootHash(hash, others)
      <==> multiset(Messages(links)) == multiset(Messages(others))
  {
    SortedLines(links);
    SortedLines(others);
    if RootHash(hash, links) == RootHash(hash, others) {
      LinesReadBack(SortStrings(Messages(links)), SortStrings(Messages(others)));
    }
    if multiset(Messages(links)) == multiset(Messages(others)) {
      StringOrderIsTotal();
      SortIgnoresOrder(StringLeq, Messages(links), Messages(others));
    }
  }

  lemma SortedPair(x: string, y: string)
    requires StringLeq(x, y)
    ensures SortStrings([x, y]) == [x, y]
  {
    StringOrderIsTotal();
    SortSorts(StringLeq, [x, y]);
    SortedIsUnique(StringLeq, SortStrings([x, y]), [x, y]);
  }

  lemma TwoLines(x: string, y: string)
    ensures JoinLines([x, y]) == x + "\n" + y
  {
    assert [x, y][..1] == [x];
  }

  /** A line break in a message lets one link stand for two. */
  lemma OneMessageCanStandForTwo(hash: string -> string, l: Link, x: string, y: string)
    requires StringLeq(x, y)
    ensures RootHash(hash, [l.(message := x + "\n" + y)]) == RootHash(hash, [l.(message := x), l.(message := y)])
  {
    var z := x + "\n" + y;
    assert Messages([l.(message := z)]) == [z];
    assert Messages([l.(message := x), l.(message := y)]) == [x, y];
    SortedPair(x, y);
    TwoLines(x, y);
    assert SortStrings([z]) == [z] by { assert multiset(SortStrings([z])) == multiset([z]); }
  }

  // ---- a valid chain is a forest

  lemma {:induction false} PrependIsPath(links: seq<Link>, a: string, p: seq<string>)
    requires IsPath(links, p) && p != [] && Edge(links, a, p[0])
    ensures IsPath(links, [a] + p)
    decreases |p|
  {
    var whole := [a] + p;
    assert whole[..|p|] == [a] + p[..|p| - 1];
    if |p| > 1 { PrependIsPath(links, a, p[..|p| - 1]); }
  }

  lemma {:induction false} PrefixIsPath(links: seq<Link>, p: seq<string>, k: nat)
    requires IsPath(links, p) && k <= |p|
    ensures IsPath(links, p[..k])
    decreases |p|
  {
    if k < |p| && |p| > 1 {
      PrefixIsPath(links, p[..|p| - 1], k);
      assert p[..|p| - 1][..k] == p[..k];
    } else {
      assert k == |p| ==> p[..k] == p;
    }
  }

  lemma AcyclicPrepend(links: seq<Link>, a: string, p: seq<string>)
    requires !HasCycle(links) && IsPath(links, p) && p != [] && Edge(links, a, p[0])
    ensures a !in p
  {
    if k :| 0 <= k < |p| && p[k] == a {
      PrefixIsPath(links, p, k + 1);
      PrependIsPath(links, a, p[..k + 1]);
      assert IsCycle(links, [a] + p[..k + 1]);
    }
  }

  ghost predicate RootId(links: seq<Link>, id: string) {
    exists l :: l in links && l.id == id && l.parent == ""
  }

  /** A way down from a root to an id. */
  ghost predicate RootPath(links: seq<Link>, p: seq<string>, id: string) {
    p != [] && RootId(links, p[0]) && IsPath(links, p) && p[|p| - 1] == id
  }

  lemma OneUp(links: seq<Link>, l: Link, parent: Link, p: seq<string>)
    requires !HasCycle(links) && l in links && l.parent != "" && parent.id == l.parent
    requires p != [] && p[0] == l.id && IsPath(links, p) && Distinct(p)
    ensures IsPath(links, [parent.id] + p) && Distinct([parent.id] + p)
  {
    assert Edge(links, parent.id, p[0]);
    PrependIsPath(links, parent.id, p);
    AcyclicPrepend(links, parent.id, p);
  }

  /** Climbing from a link towards its parents ends at a root. */
  lemma {:induction false} Climb(links: seq<Link>, l: Link, p: seq<string>, ids: set<string>) returns (q: seq<string>)
    requires !HasCycle(links) && (forall k :: k in links ==> Attached(links, k) && k.id in ids)
    requires l in links && p != [] && p[0] == l.id && IsPath(links, p) && Distinct(p)
    requires forall i :: 0 <= i < |p| ==> p[i] in ids
    ensures RootPath(links, q, p[|p| - 1])
    decreases |ids| - |p|
  {
    DistinctIsNoLonger(p, ids);
    if l.parent == "" {
      q := p;
    } else {
      assert Attached(links, l);
      var parent :| parent in links && parent.id == l.parent;
      OneUp(links, l, parent, p);
      DistinctIsNoLonger([parent.id] + p, ids);
      q := Climb(links, parent, [parent.id] + p, ids);
    }
  }

  lemma SameLink(links: seq<Link>, a: Link, b: Link)
    requires UniqueIds(links) && a in links && b in links && a.id == b.id
    ensures a == b
  {
    var i :| 0 <= i < |links| && links[i] == a;
    var j :| 0 <= j < |links| && links[j] == b;
    assert i == j;
  }

  lemma {:induction false} RootPathIsUnique(links: seq<Link>, p: seq<string>, q: seq<string>, id: string)
    requires UniqueIds(links) && RootPath(links, p, id) && RootPath(links, q, id)
    ensures p == q
    decreases |p|
  {
    if |p| > 1 && |q| > 1 {
      var a :| a in links && a.parent == p[|p| - 2] && a.id == id;
      var b :| b in links && b.parent == q[|q| - 2] && b.id == id;
      SameLink(links, a, b);
      RootPathIsUnique(links, p[..|p| - 1], q[..|q| - 1], a.parent);
      assert p == p[..|p| - 1] + [id] && q == q[..|q| - 1] + [id];
    } else if |p| > 1 || |q| > 1 {
      var long := if |p| > 1 then p else q;
      var a :| a in links && a.parent == long[|long| - 2] && a.id == id && a.parent != "";
      var b :| b in links && b.id == id && b.parent == "";
      SameLink(links, a, b);
    }
  }

  /** In a valid chain exactly one path leads from a root to each link. */
  lemma ValidChainIsForest(links: seq<Link>, childIds: seq<int>, l: Link) returns (path: seq<string>)
    requires ChainValid(links, childIds) && l in links
    ensures forall q :: RootPath(links, q, l.id) <==> q == path
  {
    path := Climb(links, l, [l.id], set k | k in links :: k.id);
    forall q | RootPath(links, q, l.id) ensures q == path {
      RootPathIsUnique(links, q, path, l.id);
    }
  }
}
