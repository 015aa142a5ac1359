/** The reference graph of scripts/audit_dead_code.py: edges, the shared node for calls on unknown receivers, and the
    unreachable definitions it reports. */
module References {
  import opened Closure

  /** A definition or module (`path:qualname`), or the shared node `<attribute>:name`. */
  datatype Node = Definition(id: string) | Attribute(name: string)

  /** One resolved reference, or a call of `name` on a receiver nobody could resolve. */
  datatype Reference =
    | Resolved(source: string, kind: string, targets: set<string>)
    | Unknown(source: string, name: string)

  type Names = map<string, set<string>>

  const DYNAMIC := "attribute_name"

  function Matches(names: Names, name: string): set<string> {
    if name in names then names[name] else {}
  }

  function Count(kinds: map<string, nat>, kind: string): nat {
    if kind in kinds then kinds[kind] else 0
  }

  /** The targets in `after` are those in `before`, and `targets` for `source`. */
  ghost predicate AddedAll(before: Edges<Node>, after: Edges<Node>, source: Node, targets: set<string>) {
    forall x :: Targets(after, x) == if x == source then Targets(before, x) + Lift(targets) else Targets(before, x)
  }

  function Lift(ids: set<string>): set<Node> {
    set id | id in ids :: Definition(id)
  }

  lemma AddedOneMore(before: Edges<Node>, mid: Edges<Node>, after: Edges<Node>, source: Node, targets: set<string>, t: string)
    requires AddedAll(before, mid, source, targets) && Added(mid, after, source, Definition(t))
    ensures AddedAll(before, after, source, targets + {t})
  {
    assert Lift(targets + {t}) == Lift(targets) + {Definition(t)};
  }

  // ----- the two readings of a list of references -----

  ghost predicate ResolvedEdge(refs: seq<Reference>, s: string, t: string) {
    exists r :: r in refs && r.Resolved? && r.source == s && t in r.targets
  }

  ghost predicate Called(refs: seq<Reference>, name: string) {
    exists r :: r in refs && r.Unknown? && r.name == name
  }

  /** Every caller of an unknown `name` linked to every definition called `name`: the N x M edges. */
  ghost predicate DirectEdge(names: Names, refs: seq<Reference>, s: string, t: string) {
    || ResolvedEdge(refs, s, t)
    || exists r :: r in refs && r.Unknown? && r.source == s && t in Matches(names, r.name)
  }

  /** The same dispatch through one shared node a name. */
  ghost predicate SharedEdge(names: Names, refs: seq<Reference>, a: Node, b: Node) {
    match (a, b)
    case (Definition(s), Definition(t)) => ResolvedEdge(refs, s, t)
    case (Definition(s), Attribute(n)) => Unknown(s, n) in refs && Matches(names, n) != {}
    case (Attribute(n), Definition(t)) => Called(refs, n) && t in Matches(names, n)
    case (Attribute(_), Attribute(_)) => false
  }

  ghost predicate DirectGraph(names: Names, refs: seq<Reference>, graph: Edges<string>) {
    forall s, t :: t in Targets(graph, s) <==> DirectEdge(names, refs, s, t)
  }

  ghost predicate SharedGraph(names: Names, refs: seq<Reference>, graph: Edges<Node>) {
    forall a, b :: b in Targets(graph, a) <==> SharedEdge(names, refs, a, b)
  }

  ghost predicate ExactGraph(refs: seq<Reference>, graph: Edges<Node>) {
    forall a, b :: b in Targets(graph, a) <==> a.Definition? && b.Definition? && ResolvedEdge(refs, a.id, b.id)
  }

  // A walk of the shared graph read in the direct one: at a shared node, some reached definition calls that name.
  lemma {:induction false} SharedWalk(
      names: Names, refs: seq<Reference>, shared: Edges<Node>, direct: Edges<string>, roots: set<string>, path: seq<Node>)
    requires SharedGraph(names, refs, shared) && DirectGraph(names, refs, direct)
    requires Walk(shared, path) && path[0] in Lift(roots)
    ensures match path[|path|-1]
      case Definition(t) => Reaches(direct, roots, t)
      case Attribute(n) => exists s :: Reaches(direct, roots, s) && Unknown(s, n) in refs
  {
    var last := path[|path|-1];
    if |path| == 1 {
      ReachesRoot(direct, roots, last.id);
    } else {
      var front := path[..|path|-1];
      assert Walk(shared, front);
      SharedWalk(names, refs, shared, direct, roots, front);
      var before := front[|front|-1];
      assert SharedEdge(names, refs, before, last);
      match (before, last)
      case (Definition(s), Definition(t)) =>
        ReachesStep(direct, roots, s, t);
      case (Definition(s), Attribute(n)) =>
      case (Attribute(n), Definition(t)) =>
        var s :| Reaches(direct, roots, s) && Unknown(s, n) in refs;
        assert DirectEdge(names, refs, s, t);
        ReachesStep(direct, roots, s, t);
    }
  }

  lemma {:induction false} DirectWalk(
      names: Names, refs: seq<Reference>, shared: Edges<Node>, direct: Edges<string>, roots: set<string>, path: seq<string>)
    requires SharedGraph(names, refs, shared) && DirectGraph(names, refs, direct)
    requires Walk(direct, path) && path[0] in roots
    ensures Reaches(shared, Lift(roots), Definition(path[|path|-1]))
  {
    var t := path[|path|-1];
    if |path| == 1 {
      ReachesRoot(shared, Lift(roots), Definition(t));
    } else {
      var front := path[..|path|-1];
      assert Walk(direct, front);
      DirectWalk(names, refs, shared, direct, roots, front);
      var s := front[|front|-1];
      assert DirectEdge(names, refs, s, t);
      if ResolvedEdge(refs, s, t) {
        assert SharedEdge(names, refs, Definition(s), Definition(t));
        ReachesStep(shared, Lift(roots), Definition(s), Definition(t));
      } else {
        var r :| r in refs && r.Unknown? && r.source == s && t in Matches(names, r.name);
        assert SharedEdge(names, refs, Definition(s), Attribute(r.name));
        ReachesStep(shared, Lift(roots), Definition(s), Attribute(r.name));
        assert SharedEdge(names, refs, Attribute(r.name), Definition(t));
        ReachesStep(shared, Lift(roots), Attribute(r.name), Definition(t));
      }
    }
  }

  /** Sharing loses nothing and adds nothing: from any roots the two graphs reach the same definitions. */
  lemma SharingPreservesReach(
      names: Names, refs: seq<Reference>, shared: Edges<Node>, direct: Edges<string>, roots: set<string>, t: string)
    requires SharedGraph(names, refs, shared) && DirectGraph(names, refs, direct)
    ensures Reaches(shared, Lift(roots), Definition(t)) <==> Reaches(direct, roots, t)
  {
    if Reaches(shared, Lift(roots), Definition(t)) {
      var path: seq<Node> :| Walk(shared, path) && path[0] in Lift(roots) && path[|path|-1] == Definition(t);
      SharedWalk(names, refs, shared, direct, roots, path);
    }
    if Reaches(direct, roots, t) {
      var path: seq<string> :| Walk(direct, path) && path[0] in roots && path[|path|-1] == t;
      DirectWalk(names, refs, shared, direct, roots, path);
    }
  }

  /** The graph with every caller-to-method edge written out. */
  ghost function DirectOf(names: Names, refs: seq<Reference>): Edges<string> {
    if refs == [] then map[] else
      var rest, r := DirectOf(names, refs[..|refs|-1]), refs[|refs|-1];
      rest[r.source := Targets(rest, r.source) + if r.Resolved? then r.targets else Matches(names, r.name)]
  }

  lemma {:induction false} DirectOfIsDirect(names: Names, refs: seq<Reference>)
    ensures DirectGraph(names, refs, DirectOf(names, refs))
  {
    if refs != [] {
      var front, r := refs[..|refs|-1], refs[|refs|-1];
      DirectOfIsDirect(names, front);
      ReadOne(front, r);
      assert refs == front + [r];
      var rest, graph := DirectOf(names, front), DirectOf(names, refs);
      forall s, t ensures t in Targets(graph, s) <==> DirectEdge(names, refs, s, t) {
        assert t in Targets(rest, s) <==> DirectEdge(names, front, s, t);
        assert forall q :: q in refs <==> q in front || q == r;
      }
    }
  }

  // ----- the bookkeeping beside the edges -----

  type Evidence = map<Node, seq<(Node, string)>>

  function EvidenceOf(evidence: Evidence, t: Node): seq<(Node, string)> {
    if t in evidence then evidence[t] else []
  }

  ghost predicate Transposed(edges: Edges<Node>, reverse: Edges<Node>) {
    forall s, t :: t in Targets(edges, s) <==> s in Targets(reverse, t)
  }

  // Evidence names distinct sources of edges, all of them up to the first eight.
  ghost predicate Sourced(list: seq<(Node, string)>, sources: set<Node>) {
    && |list| == (if |sources| < 8 then |sources| else 8)
    && (forall i :: 0 <= i < |list| ==> list[i].0 in sources)
    && (forall i, j :: 0 <= i < j < |list| ==> list[i].0 != list[j].0)
  }

  ghost predicate AllSourced(reverse: Edges<Node>, evidence: Evidence) {
    forall t {:trigger Sourced(EvidenceOf(evidence, t), Targets(reverse, t))} :: Sourced(EvidenceOf(evidence, t), Targets(reverse, t))
  }

  lemma InsertTransposed(edges: Edges<Node>, reverse: Edges<Node>, s: Node, t: Node)
    requires Transposed(edges, reverse)
    ensures Transposed(Plus(edges, s, t), Plus(reverse, t, s))
  {}

  lemma InsertSourced(reverse: Edges<Node>, evidence: Evidence, s: Node, t: Node, kind: string)
    requires AllSourced(reverse, evidence) && s !in Targets(reverse, t)
    ensures AllSourced(Plus(reverse, t, s),
      if |EvidenceOf(evidence, t)| < 8 then evidence[t := EvidenceOf(evidence, t) + [(s, kind)]] else evidence)
  {
    var reverse' := Plus(reverse, t, s);
    var evidence' := if |EvidenceOf(evidence, t)| < 8 then evidence[t := EvidenceOf(evidence, t) + [(s, kind)]] else evidence;
    forall u ensures Sourced(EvidenceOf(evidence', u), Targets(reverse', u)) {
      assert Sourced(EvidenceOf(evidence, u), Targets(reverse, u));
    }
  }

  // ----- reading one more reference -----

  lemma ReadOne(refs: seq<Reference>, r: Reference)
    ensures forall s, t :: ResolvedEdge(refs + [r], s, t) <==>
      ResolvedEdge(refs, s, t) || (r.Resolved? && r.source == s && t in r.targets)
    ensures forall n :: Called(refs + [r], n) <==> Called(refs, n) || (r.Unknown? && r.name == n)
    ensures forall s, n :: Unknown(s, n) in refs + [r] <==> Unknown(s, n) in refs || r == Unknown(s, n)
  {
    assert forall q :: q in refs + [r] <==> q in refs || q == r;
    assert r in refs + [r];
  }

  lemma ReadResolved(
      names: Names, refs: seq<Reference>, r: Reference, before: Edges<Node>, after: Edges<Node>,
      exactBefore: Edges<Node>, exactAfter: Edges<Node>)
    requires r.Resolved? && SharedGraph(names, refs, before) && ExactGraph(refs, exactBefore)
    requires AddedAll(before, after, Definition(r.source), r.targets)
    requires AddedAll(exactBefore, exactAfter, Definition(r.source), r.targets)
    ensures SharedGraph(names, refs + [r], after) && ExactGraph(refs + [r], exactAfter)
  {
    ReadOne(refs, r);
    forall a, b ensures b in Targets(after, a) <==> SharedEdge(names, refs + [r], a, b) {
      assert b in Targets(before, a) <==> SharedEdge(names, refs, a, b);
    }
    forall a, b ensures b in Targets(exactAfter, a) <==>
      a.Definition? && b.Definition? && ResolvedEdge(refs + [r], a.id, b.id)
    {
      assert b in Targets(exactBefore, a) <==> a.Definition? && b.Definition? && ResolvedEdge(refs, a.id, b.id);
    }
  }

  // The shared node has all its targets and the caller is linked to it; nothing else changed.
  lemma ReadUnknown(names: Names, refs: seq<Reference>, r: Reference, before: Edges<Node>, mid: Edges<Node>, after: Edges<Node>)
    requires r.Unknown? && SharedGraph(names, refs, before) && Matches(names, r.name) != {}
    requires if Called(refs, r.name) then mid == before else AddedAll(before, mid, Attribute(r.name), Matches(names, r.name))
    requires Added(mid, after, Definition(r.source), Attribute(r.name))
    ensures SharedGraph(names, refs + [r], after)
  {
    ReadOne(refs, r);
    forall a, b ensures b in Targets(after, a) <==> SharedEdge(names, refs + [r], a, b) {
      assert b in Targets(before, a) <==> SharedEdge(names, refs, a, b);
    }
  }

  lemma ReadUnmatched(names: Names, refs: seq<Reference>, r: Reference, graph: Edges<Node>)
    requires r.Unknown? && SharedGraph(names, refs, graph) && Matches(names, r.name) == {}
    ensures SharedGraph(names, refs + [r], graph)
  {
    ReadOne(refs, r);
    forall a, b ensures b in Targets(graph, a) <==> SharedEdge(names, refs + [r], a, b) {
      assert b in Targets(graph, a) <==> SharedEdge(names, refs, a, b);
    }
  }

  lemma ReadUnknownExact(refs: seq<Reference>, r: Reference, exact: Edges<Node>)
    requires r.Unknown? && ExactGraph(refs, exact)
    ensures ExactGraph(refs + [r], exact)
  {
    ReadOne(refs, r);
  }

  /** There is a dispatch node exactly for each called name that something defines. */
  ghost predicate NodesRight(names: Names, refs: seq<Reference>, nodes: map<Node, string>) {
    forall n :: Attribute(n) in nodes <==> Called(refs, n) && Matches(names, n) != {}
  }

  lemma NodesAfter(names: Names, refs: seq<Reference>, r: Reference, nodes: map<Node, string>, more: map<Node, string>)
    requires NodesRight(names, refs, nodes)
    requires more == if r.Unknown? && Matches(names, r.name) != {} && Attribute(r.name) !in nodes
                     then nodes[Attribute(r.name) := "<dynamic>"] else nodes
    ensures NodesRight(names, refs + [r], more)
  {
    ReadOne(refs, r);
  }

  // ----- the graph object -----

  class ReferenceGraph {
    const names: Names
    var nodes: map<Node, string>
    var edges: Edges<Node>
    var exactEdges: Edges<Node>
    var reverse: Edges<Node>
    var moduleDependencies: Edges<string>
    var edgeKinds: map<string, nat>
    var evidence: Evidence
    ghost var refs: seq<Reference>

    /** What every edge insertion keeps. */
    ghost predicate Valid()
      reads this
    {
      && Transposed(edges, reverse)
      && AllSourced(reverse, evidence)
    }

    /** The edges say exactly what the references read so far say. */
    ghost predicate Faithful()
      reads this
    {
      && SharedGraph(names, refs, edges) && ExactGraph(refs, exactEdges)
      && NodesRight(names, refs, nodes)
    }

    constructor (nodes: map<Node, string>, names: Names)
      requires forall n :: n in nodes ==> n.Definition?
      ensures Valid() && Faithful() && refs == [] && this.names == names && this.nodes == nodes
    {
      this.names, this.nodes := names, nodes;
      edges, exactEdges, reverse, moduleDependencies := map[], map[], map[], map[];
      edgeKinds, evidence, refs := map[], map[], [];
    }

    method AddEdge(source: Node, target: Node, kind: string)
      requires Valid()
      requires kind != DYNAMIC ==> source in nodes && target in nodes
      modifies this`edges, this`exactEdges, this`reverse, this`moduleDependencies, this`edgeKinds, this`evidence
      ensures Valid()
      ensures edges == if target in Targets(old(edges), source) then old(edges) else Plus(old(edges), source, target)
      ensures exactEdges == if kind == DYNAMIC then old(exactEdges) else Plus(old(exactEdges), source, target)
      ensures moduleDependencies ==
        if kind != DYNAMIC && nodes[source] != nodes[target]
        then Plus(old(moduleDependencies), nodes[source], nodes[target]) else old(moduleDependencies)
      // The first eight edges to a node are kept as evidence, each with the kind that introduced it.
      ensures evidence ==
        if target in Targets(old(edges), source) || |EvidenceOf(old(evidence), target)| >= 8 then old(evidence)
        else old(evidence)[target := EvidenceOf(old(evidence), target) + [(source, kind)]]
      ensures reverse == if target in Targets(old(edges), source) then old(reverse) else Plus(old(reverse), target, source)
      // A new edge is counted once, under the kind that introduced it.
      ensures edgeKinds ==
        if target in Targets(old(edges), source) then old(edgeKinds) else old(edgeKinds)[kind := Count(old(edgeKinds), kind) + 1]
    {
      if kind != DYNAMIC {
        exactEdges := Plus(exactEdges, source, target);
        var a, b := nodes[source], nodes[target];
        if a != b {
          moduleDependencies := Plus(moduleDependencies, a, b);
        }
      }
      if target in Targets(edges, source) {
        return;
      }
      InsertNew(source, target, kind);
    }

    // The rest of `AddEdge`: the edge is new.
    method InsertNew(source: Node, target: Node, kind: string)
      requires Valid() && target !in Targets(edges, source)
      modifies this`edges, this`reverse, this`edgeKinds, this`evidence
      ensures Valid()
      ensures edges == Plus(old(edges), source, target)
      ensures reverse == Plus(old(reverse), target, source)
      ensures evidence == if |EvidenceOf(old(evidence), target)| >= 8 then old(evidence)
                          else old(evidence)[target := EvidenceOf(old(evidence), target) + [(source, kind)]]
      ensures edgeKinds == old(edgeKinds)[kind := Count(old(edgeKinds), kind) + 1]
    {
      InsertTransposed(edges, reverse, source, target);
      InsertSourced(reverse, evidence, source, target, kind);
      edges := Plus(edges, source, target);
      reverse := Plus(reverse, target, source);
      edgeKinds := edgeKinds[kind := Count(edgeKinds, kind) + 1];
      if |EvidenceOf(evidence, target)| < 8 {
        evidence := evidence[target := EvidenceOf(evidence, target) + [(source, kind)]];
      }
    }

    /** Link a definition to each of the targets. */
    method AddEdges(source: Node, targets: set<string>, kind: string)
      requires Valid()
      requires kind != DYNAMIC ==> source in nodes && forall t :: t in targets ==> Definition(t) in nodes
      modifies this`edges, this`exactEdges, this`reverse, this`moduleDependencies, this`edgeKinds, this`evidence
      ensures Valid() && AddedAll(old(edges), edges, source, targets)
      ensures if kind == DYNAMIC then exactEdges == old(exactEdges)
              else AddedAll(old(exactEdges), exactEdges, source, targets)
    {
      var todo := targets;
      while todo != {}
        invariant todo <= targets && Valid() && AddedAll(old(edges), edges, source, targets - todo)
        invariant if kind == DYNAMIC then exactEdges == old(exactEdges)
                  else AddedAll(old(exactEdges), exactEdges, source, targets - todo)
        decreases todo
      {
        var t :| t in todo;
        ghost var mid, exactMid, taken := edges, exactEdges, targets - todo;
        AddEdge(source, Definition(t), kind);
        AddedOneMore(old(edges), mid, edges, source, taken, t);
        if kind != DYNAMIC {
          AddedOneMore(old(exactEdges), exactMid, exactEdges, source, taken, t);
        }
        todo := todo - {t};
        assert targets - todo == taken + {t};
      }
      assert targets - {} == targets;
    }

    /** Read one reference.  An unknown receiver keeps every definition of that name, through one node a name. */
    method AddReference(r: Reference)
      requires Valid() && Faithful()
      requires Definition(r.source) in nodes
      requires r.Resolved? ==> r.kind != DYNAMIC && forall t :: t in r.targets ==> Definition(t) in nodes
      modifies this
      ensures Valid() && Faithful() && refs == old(refs) + [r]
      ensures forall n :: n in old(nodes) ==> n in nodes
      ensures forall n :: n in nodes && n.Definition? ==> n in old(nodes)
    {
      match r {
        case Resolved(source, kind, targets) =>
          ghost var before, exactBefore := edges, exactEdges;
          NodesAfter(names, refs, r, nodes, nodes);
          AddEdges(Definition(source), targets, kind);
          ReadResolved(names, refs, r, before, edges, exactBefore, exactEdges);
          refs := refs + [r];
        case Unknown(source, name) => AddUnknown(r);
      }
    }

    // An unknown receiver.
    method AddUnknown(r: Reference)
      requires Valid() && Faithful()
      requires r.Unknown? && Definition(r.source) in nodes
      modifies this
      ensures Valid() && Faithful() && refs == old(refs) + [r]
      ensures forall n :: n in old(nodes) ==> n in nodes
      ensures forall n :: n in nodes && n.Definition? ==> n in old(nodes)
    {
      ghost var before, nodesBefore := edges, nodes;
      assert Matches(names, r.name) != {} ==> (Attribute(r.name) in nodes <==> Called(refs, r.name));
      ReadUnknownExact(refs, r, exactEdges);
      if Matches(names, r.name) == {} {
        ReadUnmatched(names, refs, r, edges);
      } else {
        ShareDispatch(r.name);
        ghost var mid := edges;
        LinkDispatch(Definition(r.source), Attribute(r.name));
        ReadUnknown(names, refs, r, before, mid, edges);
      }
      NodesAfter(names, refs, r, nodesBefore, nodes);
      refs := refs + [r];
    }

    method LinkDispatch(source: Node, dispatch: Node)
      requires Valid()
      modifies this`edges, this`exactEdges, this`reverse, this`moduleDependencies, this`edgeKinds, this`evidence
      ensures Valid() && exactEdges == old(exactEdges) && Added(old(edges), edges, source, dispatch)
    {
      AddEdge(source, dispatch, DYNAMIC);
    }

    // The one node for a called name, made when the name is called for the first time.
    method ShareDispatch(name: string)
      requires Valid() && Matches(names, name) != {}
      modifies this`nodes, this`edges, this`exactEdges, this`reverse, this`moduleDependencies, this`edgeKinds, this`evidence
      ensures Valid() && exactEdges == old(exactEdges)
      ensures nodes == if Attribute(name) in old(nodes) then old(nodes) else old(nodes)[Attribute(name) := "<dynamic>"]
      ensures if Attribute(name) in old(nodes) then edges == old(edges)
              else AddedAll(old(edges), edges, Attribute(name), Matches(names, name))
    {
      if Attribute(name) !in nodes {
        nodes := nodes[Attribute(name) := "<dynamic>"];
        AddEdges(Attribute(name), Matches(names, name), DYNAMIC);
      }
    }

    method Build(list: seq<Reference>)
      requires Valid() && Faithful() && refs == []
      requires forall r :: r in list ==> Definition(r.source) in nodes
      requires forall r :: r in list && r.Resolved? ==> r.kind != DYNAMIC && forall t :: t in r.targets ==> Definition(t) in nodes
      modifies this
      ensures Valid() && Faithful() && refs == list
    {
      for i := 0 to |list|
        invariant Valid() && Faithful() && refs == list[..i]
        invariant forall n :: n in old(nodes) ==> n in nodes
      {
        AddReference(list[i]);
        assert list[..i + 1] == list[..i] + [list[i]];
      }
      assert list[..|list|] == list;
    }

    /** The definitions no runtime root reaches.  They are the ones the graph with every caller-to-method edge would
        report, although only the shared graph is searched. */
    method Candidates(roots: set<string>, definitions: set<string>) returns (candidates: set<string>)
      requires Faithful()
      ensures forall t :: t in candidates <==> t in definitions && !Reaches(DirectOf(names, refs), roots, t)
    {
      var runtime := Reachable(Lift(roots), edges);
      candidates := set t | t in definitions && Definition(t) !in runtime;
      DirectOfIsDirect(names, refs);
      forall t ensures t in candidates <==> t in definitions && !Reaches(DirectOf(names, refs), roots, t) {
        SharingPreservesReach(names, refs, edges, DirectOf(names, refs), roots, t);
      }
    }
  }
}
