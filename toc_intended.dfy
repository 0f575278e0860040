/**
 The show level as the design describes it: 2 for a root and one more than
 the parent's for every other record, so that it counts the nesting actually
 produced. GenTOC computes it that way in the ascending and descending cases
 (article.go:127, 142) but, for a same-level heading under a parent, adds one
 to the PREVIOUS record's show level instead (article.go:136). This module
 gives the corrected step, proves that it keeps the intended relation, and
 shows that the builder as written breaks it while placing every record
 exactly where the corrected builder does.
 */
module TocIntended {
  import opened Wrappers
  import opened Toc
  import opened TocProperties
  import opened TocScenarios
  import Scanner

  /** Every record's show level is 2 at a root and its parent's plus one below it. */
  predicate DepthShown(nodes: seq<TocNode>) {
    && Linked(nodes)
    && forall i :: 0 <= i < |nodes| ==>
         nodes[i].showLevel == (if nodes[i].parent.None? then 2 else nodes[nodes[i].parent.value].showLevel + 1)
  }

  /** One heading with the intended show level; the parent is chosen exactly as GenTOC does. */
  function StepIntended(b: Builder, h: Scanner.Heading): (r: Builder)
    requires Ready(b)
    ensures Ready(r)
    ensures |r.nodes| == |b.nodes| + 1 && r.current == Some(|b.nodes|)
  {
    var p := ChooseParent(b, h.level);
    Attach(b, h, p, if p.None? then 2 else b.nodes[p.value].showLevel + 1)
  }

  /** The corrected step keeps the intended show levels. */
  lemma StepIntendedShowsDepth(b: Builder, h: Scanner.Heading)
    requires Ready(b) && DepthShown(b.nodes)
    ensures DepthShown(StepIntended(b, h).nodes)
  {
    var r := StepIntended(b, h);
    var n := |b.nodes|;
    var p := ChooseParent(b, h.level);
    assert r == Attach(b, h, p, if p.None? then 2 else b.nodes[p.value].showLevel + 1);
    assert forall i :: 0 <= i < n ==> r.nodes[i].showLevel == b.nodes[i].showLevel && r.nodes[i].parent == b.nodes[i].parent;
    forall i | 0 <= i < |r.nodes|
      ensures r.nodes[i].showLevel == (if r.nodes[i].parent.None? then 2 else r.nodes[r.nodes[i].parent.value].showLevel + 1)
    {
      if i < n && b.nodes[i].parent.Some? {
        assert b.nodes[i].parent.value < i;
      }
    }
  }

  function RunIntended(b: Builder, hs: seq<Scanner.Heading>): (r: Builder)
    requires Ready(b)
    ensures Ready(r)
    ensures |r.nodes| == |b.nodes| + |hs|
    decreases |hs|
  {
    if hs == [] then b else StepIntended(RunIntended(b, hs[..|hs| - 1]), hs[|hs| - 1])
  }

  /** The corrected builder keeps the intended show levels over any sequence of headings. */
  lemma {:induction false} RunIntendedShowsDepth(b: Builder, hs: seq<Scanner.Heading>)
    requires Ready(b) && DepthShown(b.nodes)
    ensures DepthShown(RunIntended(b, hs).nodes)
    decreases |hs|
  {
    if hs != [] {
      RunIntendedShowsDepth(b, hs[..|hs| - 1]);
      StepIntendedShowsDepth(RunIntended(b, hs[..|hs| - 1]), hs[|hs| - 1]);
    }
  }

  /** Two arenas that differ at most in show levels. */
  predicate SameShape(n1: seq<TocNode>, n2: seq<TocNode>) {
    |n1| == |n2| && forall i :: 0 <= i < |n1| ==> n1[i].(showLevel := 0) == n2[i].(showLevel := 0)
  }

  lemma {:induction false} WalkIgnoresShowLevels(n1: seq<TocNode>, n2: seq<TocNode>, parent: Option<nat>, level: nat, i: int, diff: int)
    requires Linked(n1) && Linked(n2) && SameShape(n1, n2)
    requires parent.Some? && parent.value < |n1|
    ensures BoundedWalk(n1, parent, level, i, diff) == BoundedWalk(n2, parent, level, i, diff)
    decreases diff - i
  {
    if i < diff {
      var q := parent.value;
      assert n1[q].(showLevel := 0) == n2[q].(showLevel := 0);
      assert n1[q].parent == n2[q].parent;
      var next := n1[q].parent;
      if next.Some? {
        assert n1[next.value].(showLevel := 0) == n2[next.value].(showLevel := 0);
        assert n1[next.value].level == n2[next.value].level;
        WalkIgnoresShowLevels(n1, n2, next, level, i + 1, diff);
      }
    }
  }

  /** The parent GenTOC chooses never depends on show levels. */
  lemma ParentIgnoresShowLevels(b1: Builder, b2: Builder, level: nat)
    requires Ready(b1) && Ready(b2) && SameShape(b1.nodes, b2.nodes) && b1.current == b2.current
    ensures ChooseParent(b1, level) == ChooseParent(b2, level)
  {
    if b1.current.Some? {
      var c := b1.current.value;
      assert b1.nodes[c].(showLevel := 0) == b2.nodes[c].(showLevel := 0);
      assert b1.nodes[c].level == b2.nodes[c].level && b1.nodes[c].parent == b2.nodes[c].parent;
      WalkIgnoresShowLevels(b1.nodes, b2.nodes, Some(c), level, -1, b1.nodes[c].level - level);
    }
  }

  lemma AttachIgnoresShowLevels(b1: Builder, b2: Builder, h: Scanner.Heading, p: Option<nat>, s1: nat, s2: nat)
    requires Ready(b1) && Ready(b2) && InArena(b1.nodes, p) && InArena(b2.nodes, p)
    requires SameShape(b1.nodes, b2.nodes) && b1.roots == b2.roots
    ensures var r1, r2 := Attach(b1, h, p, s1), Attach(b2, h, p, s2);
            SameShape(r1.nodes, r2.nodes) && r1.roots == r2.roots && r1.current == r2.current
  {
    var r1, r2 := Attach(b1, h, p, s1), Attach(b2, h, p, s2);
    forall i | 0 <= i < |r1.nodes|
      ensures r1.nodes[i].(showLevel := 0) == r2.nodes[i].(showLevel := 0)
    {
      if i < |b1.nodes| {
        assert b1.nodes[i].(showLevel := 0) == b2.nodes[i].(showLevel := 0);
        assert b1.nodes[i].subTitles == b2.nodes[i].subTitles;
      }
    }
  }

  /**
   The corrected builder and GenTOC's builder file every record under the same
   parent, in the same child list or among the same roots: they differ only in
   show levels.
   */
  lemma {:induction false} RunsDifferOnlyInShowLevels(b: Builder, hs: seq<Scanner.Heading>)
    requires Ready(b)
    ensures var r1, r2 := Run(b, hs), RunIntended(b, hs);
            SameShape(r1.nodes, r2.nodes) && r1.roots == r2.roots && r1.current == r2.current
    decreases |hs|
  {
    if hs != [] {
      var prefix, h := hs[..|hs| - 1], hs[|hs| - 1];
      RunsDifferOnlyInShowLevels(b, prefix);
      var m1, m2 := Run(b, prefix), RunIntended(b, prefix);
      ParentIgnoresShowLevels(m1, m2, h.level);
      var p := ChooseParent(m1, h.level);
      var s1 := ShowLevelFor(m1, h, p);
      var s2 := if p.None? then 2 else m2.nodes[p.value].showLevel + 1;
      AttachIgnoresShowLevels(m1, m2, h, p, s1, s2);
    }
  }

  /**
   As written, `# A`, `## B`, `## C`, `# D` gives C, a child of the root A,
   show level 4 rather than 3, so the intended relation fails.
   */
  lemma SiblingBreaksDepthShown(a: string, b: string, c: string, d: string)
    ensures !DepthShown(Run(Start([], []), [Scanner.Heading(1, a), Scanner.Heading(2, b), Scanner.Heading(2, c), Scanner.Heading(1, d)]).nodes)
  {
    ExampleSiblingShowLevels(a, b, c, d);
    var r := Run(Start([], []), [Scanner.Heading(1, a), Scanner.Heading(2, b), Scanner.Heading(2, c), Scanner.Heading(1, d)]);
    assert r.nodes[2].showLevel != r.nodes[0].showLevel + 1;
  }

  /** The corrected builder gives both children of A in that example show level 3. */
  lemma SiblingIntendedShowLevels(a: string, b: string, c: string, d: string)
    ensures var r := RunIntended(Start([], []), [Scanner.Heading(1, a), Scanner.Heading(2, b), Scanner.Heading(2, c), Scanner.Heading(1, d)]);
            && r.roots == [0, 3]
            && r.nodes[1].parent == Some(0) && r.nodes[2].parent == Some(0)
            && r.nodes[0].showLevel == 2 && r.nodes[1].showLevel == 3
            && r.nodes[2].showLevel == 3 && r.nodes[3].showLevel == 2
  {
    var hs := [Scanner.Heading(1, a), Scanner.Heading(2, b), Scanner.Heading(2, c), Scanner.Heading(1, d)];
    ExampleSiblingShowLevels(a, b, c, d);
    RunsDifferOnlyInShowLevels(Start([], []), hs);
    RunIntendedShowsDepth(Start([], []), hs);
    var r1, r2 := Run(Start([], []), hs), RunIntended(Start([], []), hs);
    assert forall i :: 0 <= i < 4 ==> r1.nodes[i].parent == r2.nodes[i].parent by {
      forall i | 0 <= i < 4 ensures r1.nodes[i].parent == r2.nodes[i].parent {
        assert r1.nodes[i].(showLevel := 0) == r2.nodes[i].(showLevel := 0);
      }
    }
  }
}
