/** The grouping step of `ReferenceGraph.report` in scripts/audit_dead_code.py: the candidates are split into the
    connected components of the exact edges between them. */
module Components {
  import opened Closure

  /** Both ends are selected and an exact edge joins them, in either direction. */
  ghost predicate Linked<N>(exact: Edges<N>, selected: set<N>, a: N, b: N) {
    a in selected && b in selected && (b in Targets(exact, a) || a in Targets(exact, b))
  }

  ghost predicate LinksOf<N(!new)>(exact: Edges<N>, selected: set<N>, links: Edges<N>) {
    forall a, b :: b in Targets(links, a) <==> Linked(exact, selected, a, b)
  }

  ghost predicate Connected<N(!new)>(links: Edges<N>, a: N, b: N) {
    Reaches(links, {a}, b)
  }

  ghost predicate Symmetric<N(!new)>(links: Edges<N>) {
    forall a, b :: b in Targets(links, a) ==> a in Targets(links, b)
  }

  /** Add both directions of every exact edge between selected nodes. */
  method Links<N(==, !new)>(exact: Edges<N>, selected: set<N>) returns (links: Edges<N>)
    ensures LinksOf(exact, selected, links)
  {
    links := map[];
    var sources := selected;
    while sources != {}
      invariant sources <= selected
      invariant LinkedFrom(exact, selected, selected - sources, links)
      decreases sources
    {
      var source :| source in sources;
      ghost var before, done := links, selected - sources;
      sources := sources - {source};
      var targets := Targets(exact, source) * selected;
      var todo := targets;
      while todo != {}
        invariant todo <= targets && BothWays(before, links, source, targets - todo)
        decreases todo
      {
        var target :| target in todo;
        ghost var mid, taken := links, targets - todo;
        links := Plus(links, source, target);
        links := Plus(links, target, source);
        OneMoreWay(before, mid, links, source, taken, target);
        todo := todo - {target};
        assert targets - todo == taken + {target};
      }
      assert targets - {} == targets;
      assert selected - sources == done + {source};
      LinkedOneMore(exact, selected, done, source, before, links);
    }
    assert selected - {} == selected;
  }

  // The edges out of the nodes in `done` are linked.
  ghost predicate LinkedFrom<N(!new)>(exact: Edges<N>, selected: set<N>, done: set<N>, links: Edges<N>) {
    forall a, b {:trigger b in Targets(links, a)} :: b in Targets(links, a) <==>
      a in selected && b in selected && ((a in done && b in Targets(exact, a)) || (b in done && a in Targets(exact, b)))
  }

  lemma LinkedOneMore<N(!new)>(exact: Edges<N>, selected: set<N>, done: set<N>, source: N, before: Edges<N>, after: Edges<N>)
    requires source in selected && LinkedFrom(exact, selected, done, before)
    requires BothWays(before, after, source, Targets(exact, source) * selected)
    ensures LinkedFrom(exact, selected, done + {source}, after)
  {
    forall a, b ensures b in Targets(after, a) <==>
      a in selected && b in selected
      && ((a in done + {source} && b in Targets(exact, a)) || (b in done + {source} && a in Targets(exact, b)))
    {
      assert b in Targets(before, a) <==>
        a in selected && b in selected && ((a in done && b in Targets(exact, a)) || (b in done && a in Targets(exact, b)));
    }
  }

  // `after` has the links of `before`, and `source` linked to `targets` in both directions.
  ghost predicate BothWays<N(!new)>(before: Edges<N>, after: Edges<N>, source: N, targets: set<N>) {
    forall a, b {:trigger b in Targets(after, a)} {:trigger b in Targets(before, a)} :: b in Targets(after, a) <==>
      b in Targets(before, a) || (a == source && b in targets) || (b == source && a in targets)
  }

  lemma OneMoreWay<N(!new)>(before: Edges<N>, mid: Edges<N>, after: Edges<N>, source: N, targets: set<N>, target: N)
    requires BothWays(before, mid, source, targets)
    requires after == Plus(Plus(mid, source, target), target, source)
    ensures BothWays(before, after, source, targets + {target})
  {
    forall a, b ensures b in Targets(after, a) <==>
      b in Targets(before, a) || (a == source && b in targets + {target}) || (b == source && a in targets + {target})
    {
      assert b in Targets(mid, a) <==> b in Targets(before, a) || (a == source && b in targets) || (b == source && a in targets);
    }
  }

  lemma {:induction false} WalkBack<N(!new)>(links: Edges<N>, path: seq<N>)
    requires Symmetric(links) && Walk(links, path)
    ensures Connected(links, path[|path|-1], path[0])
  {
    var a, b := path[0], path[|path|-1];
    if |path| == 1 {
      ReachesRoot(links, {b}, a);
    } else {
      var rest := path[1..];
      assert Walk(links, rest) by {
        forall i | 0 < i < |rest| ensures rest[i] in Targets(links, rest[i-1]) {
          assert path[i + 1] in Targets(links, path[i]);
        }
      }
      WalkBack(links, rest);
      assert path[1] in Targets(links, path[0]);
      ReachesStep(links, {b}, path[1], a);
    }
  }

  lemma ConnectedBack<N(!new)>(links: Edges<N>, a: N, b: N)
    requires Symmetric(links) && Connected(links, a, b)
    ensures Connected(links, b, a)
  {
    var path: seq<N> :| Walk(links, path) && path[0] in {a} && path[|path|-1] == b;
    WalkBack(links, path);
  }

  lemma {:induction false} ConnectedOn<N(!new)>(links: Edges<N>, a: N, path: seq<N>)
    requires Walk(links, path) && Connected(links, a, path[0])
    ensures Connected(links, a, path[|path|-1])
  {
    if |path| > 1 {
      var front := path[..|path|-1];
      assert Walk(links, front);
      ConnectedOn(links, a, front);
      ReachesStep(links, {a}, front[|front|-1], path[|path|-1]);
    }
  }

  lemma ConnectedChain<N(!new)>(links: Edges<N>, a: N, b: N, c: N)
    requires Connected(links, a, b) && Connected(links, b, c)
    ensures Connected(links, a, c)
  {
    var path: seq<N> :| Walk(links, path) && path[0] in {b} && path[|path|-1] == c;
    ConnectedOn(links, a, path);
  }

  /** `group` is a whole component: together with any member it holds exactly what that member is connected to. */
  ghost predicate IsComponent<N(!new)>(links: Edges<N>, group: set<N>) {
    group != {} && forall a, b :: a in group ==> (b in group <==> Connected(links, a, b))
  }

  lemma ComponentOf<N(!new)>(links: Edges<N>, first: N, members: set<N>)
    requires Symmetric(links) && IsClosure(links, {first}, members)
    ensures IsComponent(links, members)
  {
    forall a, b | a in members ensures b in members <==> Connected(links, a, b) {
      ConnectedBack(links, first, a);
      if b in members {
        ConnectedChain(links, a, first, b);
      }
      if Connected(links, a, b) {
        ConnectedChain(links, first, a, b);
      }
    }
  }

  /** Everything already grouped is a union of components. */
  ghost predicate Settled<N(!new)>(links: Edges<N>, settled: set<N>) {
    forall a, b :: a in settled && Connected(links, a, b) ==> b in settled
  }

  /** The groups of the report: every component with more than one member, once, and nothing else. */
  ghost predicate Grouping<N(!new)>(links: Edges<N>, selected: set<N>, groups: seq<set<N>>) {
    && (forall i :: 0 <= i < |groups| ==> |groups[i]| > 1 && groups[i] <= selected && IsComponent(links, groups[i]))
    && (forall i, j :: 0 <= i < j < |groups| ==> groups[i] !! groups[j])
    && (forall a :: a in selected ==>
          ((exists i :: 0 <= i < |groups| && a in groups[i]) <==> exists b :: b != a && Connected(links, a, b)))
  }

  // Connected nodes stay inside a set the links do not leave.
  lemma ConnectedSelected<N(!new)>(exact: Edges<N>, selected: set<N>, links: Edges<N>, a: N, b: N)
    requires LinksOf(exact, selected, links) && a in selected && Connected(links, a, b)
    ensures b in selected
  {
    forall x | x in selected ensures Targets(links, x) <= selected {
      forall y | y in Targets(links, x) ensures y in selected {
        assert Linked(exact, selected, x, y);
      }
    }
    ReachesInside(links, {a}, b, selected);
  }

  // Grouped so far: `settled` is a union of components, those with several members are in `groups`.
  ghost predicate GroupedSoFar<N(!new)>(links: Edges<N>, settled: set<N>, groups: seq<set<N>>) {
    && Settled(links, settled)
    && (forall i :: 0 <= i < |groups| ==> |groups[i]| > 1 && groups[i] <= settled && IsComponent(links, groups[i]))
    && (forall i, j :: 0 <= i < j < |groups| ==> groups[i] !! groups[j])
    && (forall a, b :: a in settled && b != a && Connected(links, a, b) ==> InSome(groups, a))
  }

  ghost predicate InSome<N>(groups: seq<set<N>>, a: N) {
    exists i :: 0 <= i < |groups| && a in groups[i]
  }

  lemma GroupOne<N(!new)>(links: Edges<N>, settled: set<N>, groups: seq<set<N>>, first: N, members: set<N>)
    requires Symmetric(links) && GroupedSoFar(links, settled, groups)
    requires IsComponent(links, members) && first in members && first !in settled
    ensures members !! settled
    ensures GroupedSoFar(links, settled + members, if |members| > 1 then groups + [members] else groups)
  {
    forall a | a in members ensures a !in settled {
      assert Connected(links, first, a);
      ConnectedBack(links, first, a);
    }
    var groups' := if |members| > 1 then groups + [members] else groups;
    forall a, b | a in settled + members && b != a && Connected(links, a, b) ensures InSome(groups', a) {
      if a in settled {
        assert InSome(groups, a);
        var i :| 0 <= i < |groups| && a in groups[i];
        assert a in groups'[i];
      } else {
        assert b in members && b in members - {a};
        assert members == (members - {a}) + {a};
        assert a in groups'[|groups|];
      }
    }
  }

  lemma GroupingDone<N(!new)>(exact: Edges<N>, selected: set<N>, links: Edges<N>, groups: seq<set<N>>)
    requires LinksOf(exact, selected, links) && GroupedSoFar(links, selected, groups)
    ensures Grouping(links, selected, groups)
  {
    forall a | a in selected
      ensures (exists i :: 0 <= i < |groups| && a in groups[i]) <==> exists b :: b != a && Connected(links, a, b)
    {
      if i :| 0 <= i < |groups| && a in groups[i] {
        var others := groups[i] - {a};
        assert groups[i] == others + {a};
        var b :| b in others;
        assert Connected(links, a, b);
      }
      if b :| b != a && Connected(links, a, b) {
        assert InSome(groups, a);
      }
    }
  }

  /** The component of `first`, kept as a group when it has more than one member. */
  method TakeGroup<N(==, !new)>(
      table: Edges<N>, first: N, groups0: seq<set<N>>, ghost exact: Edges<N>, ghost selected: set<N>, ghost settled: set<N>)
    returns (members: set<N>, groups: seq<set<N>>)
    requires LinksOf(exact, selected, table) && first in selected && first !in settled
    requires GroupedSoFar(table, settled, groups0)
    ensures first in members && members <= selected && members !! settled
    ensures GroupedSoFar(table, settled + members, groups)
  {
    members := Reachable({first}, table);
    GroupMembers(exact, selected, table, first, members);
    GroupOne(table, settled, groups0, first, members);
    groups := if |members| > 1 then groups0 + [members] else groups0;
  }

  /** Group the selected candidates, one component at a time. */
  method Group<N(==, !new)>(exact: Edges<N>, selected: set<N>) returns (groups: seq<set<N>>)
    ensures exists links: Edges<N> :: LinksOf(exact, selected, links) && Grouping(links, selected, groups)
  {
    var links := Links(exact, selected);
    groups := [];
    var remaining := selected;
    ghost var settled: set<N> := {};
    while remaining != {}
      invariant settled + remaining == selected && settled !! remaining
      invariant GroupedSoFar(links, settled, groups)
      decreases remaining
    {
      var first :| first in remaining;
      var members;
      members, groups := TakeGroup(links, first, groups, exact, selected, settled);
      settled, remaining := settled + members, remaining - members;
    }
    assert settled == selected;
    GroupingDone(exact, selected, links, groups);
  }

  lemma GroupMembers<N(!new)>(exact: Edges<N>, selected: set<N>, links: Edges<N>, first: N, members: set<N>)
    requires LinksOf(exact, selected, links) && first in selected && IsClosure(links, {first}, members)
    ensures Symmetric(links) && members <= selected && IsComponent(links, members) && first in members
  {
    assert Symmetric(links) by {
      forall a, b | b in Targets(links, a) ensures a in Targets(links, b) {
        assert Linked(exact, selected, a, b) && Linked(exact, selected, b, a);
      }
    }
    ComponentOf(links, first, members);
    forall a | a in members ensures a in selected {
      ConnectedSelected(exact, selected, links, first, a);
    }
  }
}
