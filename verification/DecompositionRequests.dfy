/** CreateDecomposition in the fields of its request: how sub-tasks are normalised, which proposals pass the checks,
    and what each stored node has of the sub-task it was made for. */
module DecompositionRequests {
  import opened Common
  import opened Text
  import opened Decomposition

  /** Ids and types are trimmed, and preferences lowered too; nothing else of a sub-task changes. */
  lemma NormalizedFields(tasks: seq<SubTask>, i: nat)
    requires i < |tasks|
    ensures |Normalize(tasks)| == |tasks|
    ensures var t := tasks[i];
      Normalize(tasks)[i] == SubTask(TrimSpace(t.tempId), TrimSpace(t.parent), t.title, TrimSpace(t.verification),
                                     ToLower(TrimSpace(t.delegate)), t.details, t.needsMoreWork)
  {
  }

  // ---- the checks, on normalised sub-tasks

  predicate KnownType(v: string) {
    v == "" || v == "optimistic" || v == "quorum" || v == "zk_proof" || v == "unit_test"
  }

  predicate KnownPreference(v: string) {
    v == "" || v == "human" || v == "ai" || v == "any"
  }

  lemma TypesAreListed(v: string)
    ensures v in VERIFICATION_TYPES <==> KnownType(v)
  {
  }

  lemma PreferencesAreListed(v: string)
    ensures v in DELEGATE_PREFERENCES <==> KnownPreference(v)
  {
  }

  ghost predicate NamedAsParent(tasks: seq<SubTask>, id: string) {
    exists j :: 0 <= j < |tasks| && tasks[j].parent == id
  }

  ghost predicate HasId(tasks: seq<SubTask>, id: string) {
    exists j :: 0 <= j < |tasks| && tasks[j].tempId == id
  }

  /** The sub-task has an id, a known type and a known preference, and the latter only if no other hangs below it. */
  ghost predicate OwnFieldsPass(tasks: seq<SubTask>, t: SubTask) {
    && t.tempId != "" && KnownType(t.verification) && KnownPreference(t.delegate)
    && (t.delegate != "" ==> !NamedAsParent(tasks, t.tempId))
  }

  ghost predicate IdsAreUnique(tasks: seq<SubTask>) {
    forall i, j :: 0 <= i < j < |tasks| ==> tasks[i].tempId != tasks[j].tempId
  }

  ghost predicate ParentsAreThere(tasks: seq<SubTask>) {
    forall i :: 0 <= i < |tasks| && tasks[i].parent != "" ==> HasId(tasks, tasks[i].parent)
  }

  lemma WellFormedExactly(tasks: seq<SubTask>, t: SubTask)
    ensures WellFormed(tasks, t) <==> OwnFieldsPass(tasks, t)
  {
    TypesAreListed(t.verification);
    PreferencesAreListed(t.delegate);
    ChildrenNameIt(tasks, t.tempId);
  }

  lemma ChildrenNameIt(tasks: seq<SubTask>, id: string)
    ensures HasChild(tasks, id) <==> id != "" && NamedAsParent(tasks, id)
  {
    if t :| t in tasks && t.parent == id {
      var j :| 0 <= j < |tasks| && tasks[j] == t;
    }
  }

  lemma AllWellFormedExactly(tasks: seq<SubTask>)
    ensures WellFormedUpTo(tasks, |tasks|) <==> forall i :: 0 <= i < |tasks| ==> OwnFieldsPass(tasks, tasks[i])
  {
    WellFormedUpToMeans(tasks, |tasks|);
    forall i | 0 <= i < |tasks| ensures WellFormed(tasks, tasks[i]) <==> OwnFieldsPass(tasks, tasks[i]) {
      WellFormedExactly(tasks, tasks[i]);
    }
  }

  lemma IdsAreThere(tasks: seq<SubTask>, id: string)
    ensures id in Ids(tasks) <==> HasId(tasks, id)
  {
    if id in Ids(tasks) { var j :| 0 <= j < |tasks| && Ids(tasks)[j] == id; }
    if j :| 0 <= j < |tasks| && tasks[j].tempId == id { assert Ids(tasks)[j] == id; }
  }

  lemma DistinctIdsExactly(tasks: seq<SubTask>)
    ensures Distinct(Ids(tasks)) <==> IdsAreUnique(tasks)
  {
    forall i | 0 <= i < |tasks| ensures Ids(tasks)[i] == tasks[i].tempId {}
  }

  lemma ParentsKnownExactly(tasks: seq<SubTask>)
    ensures KnownParents(tasks) <==> ParentsAreThere(tasks)
  {
    forall i | 0 <= i < |tasks|
      ensures tasks[i] in tasks && (tasks[i].parent in Ids(tasks) <==> HasId(tasks, tasks[i].parent))
    {
      IdsAreThere(tasks, tasks[i].parent);
    }
  }

  /** Sub-tasks are acceptable exactly when there are some, each with an id of its own, a known type and preference,
      the latter only where nothing hangs below it, and a parent, if it names one, among them. */
  lemma AcceptableExactly(tasks: seq<SubTask>)
    ensures Acceptable(tasks) <==>
      && tasks != [] && (forall i :: 0 <= i < |tasks| ==> OwnFieldsPass(tasks, tasks[i]))
      && IdsAreUnique(tasks) && ParentsAreThere(tasks)
  {
    AllWellFormedExactly(tasks);
    DistinctIdsExactly(tasks);
    ParentsKnownExactly(tasks);
  }

  // ---- the stored nodes

  /** What a node has of its sub-task. */
  ghost predicate MadeFrom(t: SubTask, n: Node) {
    && n.title == t.title && n.verification == t.verification && n.delegate == t.delegate
    && Some(n.details) == t.details && n.needsMoreWork == t.needsMoreWork && n.rfq == None
  }

  /** A root has no parent and depth 0; any other node hangs one below a node stored before it, that of its parent. */
  ghost predicate PlacedBelow(tasks: seq<SubTask>, t: SubTask, nodes: seq<Node>, made: seq<nat>, k: nat)
    requires k < |nodes| == |made|
  {
    if t.parent == "" then nodes[k].parent == None && nodes[k].depth == 0
    else exists j :: && 0 <= j < k && made[j] < |tasks| && tasks[made[j]].tempId == t.parent
                     && nodes[k].parent == Some(nodes[j].id) && nodes[k].depth == nodes[j].depth + 1
  }

  /** made says which sub-task each node was made for: each for a different one, with consecutive ids. */
  ghost predicate StoredFor(tasks: seq<SubTask>, nodes: seq<Node>, made: seq<nat>, first: nat) {
    && |made| == |nodes| == |tasks| && Distinct(made) && (forall k :: 0 <= k < |made| ==> made[k] < |tasks|)
    && forall k :: 0 <= k < |nodes| ==>
         nodes[k].id == first + k && MadeFrom(tasks[made[k]], nodes[k])
         && PlacedBelow(tasks, tasks[made[k]], nodes, made, k)
  }

  lemma TaskOfId(tasks: seq<SubTask>, id: string) returns (i: nat)
    requires id in ById(tasks)
    ensures i < |tasks| && tasks[i].tempId == id && ById(tasks)[id] == tasks[i]
  {
    ByIdHasIds(tasks);
    i :| 0 <= i < |tasks| && tasks[i] == ById(tasks)[id];
  }

  lemma TasksOfIds(tasks: seq<SubTask>, ids: seq<string>) returns (made: seq<nat>)
    requires forall k :: 0 <= k < |ids| ==> ids[k] in ById(tasks)
    ensures |made| == |ids|
    ensures forall k :: 0 <= k < |ids| ==>
      made[k] < |tasks| && tasks[made[k]].tempId == ids[k] && ById(tasks)[ids[k]] == tasks[made[k]]
  {
    if ids == [] {
      made := [];
    } else {
      var init := TasksOfIds(tasks, ids[..|ids| - 1]);
      var last := TaskOfId(tasks, ids[|ids| - 1]);
      made := init + [last];
    }
  }

  lemma IsPlaced(tasks: seq<SubTask>, nodes: seq<Node>, tempIds: seq<string>, made: seq<nat>, k: nat)
    requires k < |nodes| == |tempIds| == |made| && tempIds[k] in ById(tasks)
    requires HangsBelow(ById(tasks), nodes, tempIds, k)
    requires made[k] < |tasks| && ById(tasks)[tempIds[k]] == tasks[made[k]]
    requires forall j :: 0 <= j < |made| ==> made[j] < |tasks| && tasks[made[j]].tempId == tempIds[j]
    ensures PlacedBelow(tasks, tasks[made[k]], nodes, made, k)
  {
    var parent := tasks[made[k]].parent;
    if parent != "" {
      var j :| 0 <= j < k && tempIds[j] == parent && nodes[k].parent == Some(nodes[j].id)
               && nodes[k].depth == nodes[j].depth + 1;
      assert tasks[made[j]].tempId == parent;
    }
  }

  /** The nodes of a stored proposal are those of its sub-tasks, field by field. */
  lemma NodesAreOfTheRequest(tasks: seq<SubTask>, nodes: seq<Node>, tempIds: seq<string>, first: nat)
    returns (made: seq<nat>)
    requires |nodes| == |tasks| && Forest(ById(tasks), nodes, tempIds, first)
    ensures StoredFor(tasks, nodes, made, first)
  {
    var inputs := ById(tasks);
    made := TasksOfIds(tasks, tempIds);
    forall i, j | 0 <= i < j < |made| ensures made[i] != made[j] {
      assert tempIds[i] != tempIds[j];
    }
    forall k | 0 <= k < |nodes|
      ensures MadeFrom(tasks[made[k]], nodes[k]) && PlacedBelow(tasks, tasks[made[k]], nodes, made, k)
    {
      assert CopiesInput(inputs[tempIds[k]], nodes[k]) && HangsBelow(inputs, nodes, tempIds, k);
      IsPlaced(tasks, nodes, tempIds, made, k);
    }
  }
}
