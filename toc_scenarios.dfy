/**
 The trees GenTOC builds for particular heading sequences, starting from an
 article without table of contents. Titles are left open: they only decide
 the titles and slugs of the records, never the shape.
 */
module TocScenarios {
  import opened Wrappers
  import opened Toc
  import opened TocInvariants
  import opened TocProperties
  import opened Scanner
  import Slug

  /** A heading deeper than the previous record becomes that record's last child. */
  lemma StepDeeper(b: Builder, h: Heading)
    requires Ready(b) && b.current.Some? && b.nodes[b.current.value].level < h.level
    ensures var r := Step(b, h);
            var n, c := |b.nodes|, b.current.value;
            && r.roots == b.roots
            && r.nodes[n].parent == Some(c) && r.nodes[n].subTitles == [] && r.nodes[n].level == h.level
            && r.nodes[n].showLevel == b.nodes[c].showLevel + 1
            && forall i :: 0 <= i < n ==>
                 && r.nodes[i].parent == b.nodes[i].parent && r.nodes[i].level == b.nodes[i].level
                 && r.nodes[i].showLevel == b.nodes[i].showLevel
                 && r.nodes[i].subTitles == b.nodes[i].subTitles + (if i == c then [n] else [])
  {
    assert ChooseParent(b, h.level) == b.current;
  }

  /** A heading that finds no parent becomes a new root with show level 2. */
  lemma StepRoot(b: Builder, h: Heading)
    requires Ready(b) && ChooseParent(b, h.level) == None
    ensures var r := Step(b, h);
            var n := |b.nodes|;
            && r.roots == b.roots + [n]
            && r.nodes[n].parent == None && r.nodes[n].subTitles == [] && r.nodes[n].showLevel == 2
            && r.nodes[n].level == h.level
            && forall i :: 0 <= i < n ==>
                 && r.nodes[i].parent == b.nodes[i].parent && r.nodes[i].level == b.nodes[i].level
                 && r.nodes[i].showLevel == b.nodes[i].showLevel
                 && r.nodes[i].subTitles == b.nodes[i].subTitles
  {
  }

  /** A heading of the previous record's level under a parent becomes that parent's last child. */
  lemma StepSibling(b: Builder, h: Heading)
    requires Ready(b) && b.current.Some?
    requires b.nodes[b.current.value].level == h.level && b.nodes[b.current.value].parent.Some?
    ensures var r := Step(b, h);
            var n, c := |b.nodes|, b.current.value;
            var q := b.nodes[c].parent.value;
            && r.roots == b.roots
            && r.nodes[n].parent == Some(q) && r.nodes[n].subTitles == [] && r.nodes[n].level == h.level
            && r.nodes[n].showLevel == b.nodes[c].showLevel + 1
            && forall i :: 0 <= i < n ==>
                 && r.nodes[i].parent == b.nodes[i].parent && r.nodes[i].level == b.nodes[i].level
                 && r.nodes[i].showLevel == b.nodes[i].showLevel
                 && r.nodes[i].subTitles == b.nodes[i].subTitles + (if i == q then [n] else [])
  {
  }

  /** A shallower heading whose walk finds the record `q` becomes `q`'s last child. */
  lemma StepAscend(b: Builder, h: Heading, q: nat)
    requires Ready(b) && b.current.Some? && b.nodes[b.current.value].level > h.level
    requires ChooseParent(b, h.level) == Some(q)
    ensures var r := Step(b, h);
            var n := |b.nodes|;
            && r.roots == b.roots
            && r.nodes[n].parent == Some(q) && r.nodes[n].subTitles == [] && r.nodes[n].level == h.level
            && r.nodes[n].showLevel == b.nodes[q].showLevel + 1
            && forall i :: 0 <= i < n ==>
                 && r.nodes[i].parent == b.nodes[i].parent && r.nodes[i].level == b.nodes[i].level
                 && r.nodes[i].showLevel == b.nodes[i].showLevel
                 && r.nodes[i].subTitles == b.nodes[i].subTitles + (if i == q then [n] else [])
  {
  }

  /** A record GenTOC makes for a heading, before any child is filed under it. */
  function Leaf(title: string, parent: Option<nat>, level: nat, show: nat): TocNode {
    TocNode(title, Slug.Slugify(title), [], parent, level, show)
  }

  /** Three headings run from `b0` reach whatever their three steps reach. */
  lemma RunThreeSteps(b0: Builder, hs: seq<Heading>, b1: Builder, b2: Builder, b3: Builder)
    requires Ready(b0) && Ready(b1) && Ready(b2) && |hs| == 3
    requires Step(b0, hs[0]) == b1 && Step(b1, hs[1]) == b2 && Step(b2, hs[2]) == b3
    ensures Run(b0, hs) == b3
  {
    assert Run(b0, hs[..1]) == b1 by {
      assert hs[..1][..0] == [];
    }
    assert Run(b0, hs[..2]) == b2 by {
      assert hs[..2][..1] == hs[..1];
    }
  }

  /** Four headings run from `b0` reach whatever their four steps reach. */
  lemma RunFourSteps(b0: Builder, hs: seq<Heading>, b1: Builder, b2: Builder, b3: Builder, b4: Builder)
    requires Ready(b0) && Ready(b1) && Ready(b2) && Ready(b3) && |hs| == 4
    requires Step(b0, hs[0]) == b1 && Step(b1, hs[1]) == b2 && Step(b2, hs[2]) == b3 && Step(b3, hs[3]) == b4
    ensures Run(b0, hs) == b4
  {
    RunThreeSteps(b0, hs[..3], b1, b2, b3);
  }

  lemma SiblingStep1(a: string)
    ensures Step(Start([], []), Heading(1, a)) == Builder([Leaf(a, None, 1, 2)], [0], Some(0))
  {
  }

  lemma SiblingStep2(a: string, b: string)
    ensures Step(Builder([Leaf(a, None, 1, 2)], [0], Some(0)), Heading(2, b)) ==
              Builder([Leaf(a, None, 1, 2).(subTitles := [1]), Leaf(b, Some(0), 2, 3)], [0], Some(1))
  {
    var b1 := Builder([Leaf(a, None, 1, 2)], [0], Some(0));
    assert ChooseParent(b1, 2) == Some(0);
    assert Leaf(a, None, 1, 2).subTitles + [1] == [1];
  }

  lemma SiblingStep3(a: string, b: string, c: string)
    ensures Step(Builder([Leaf(a, None, 1, 2).(subTitles := [1]), Leaf(b, Some(0), 2, 3)], [0], Some(1)), Heading(2, c)) ==
              Builder([Leaf(a, None, 1, 2).(subTitles := [1, 2]), Leaf(b, Some(0), 2, 3), Leaf(c, Some(0), 2, 4)], [0], Some(2))
  {
    var b2 := Builder([Leaf(a, None, 1, 2).(subTitles := [1]), Leaf(b, Some(0), 2, 3)], [0], Some(1));
    assert ChooseParent(b2, 2) == Some(0);
    assert [1] + [2] == [1, 2];
  }

  lemma SiblingStep4(a: string, b: string, c: string, d: string)
    ensures var nodes := [Leaf(a, None, 1, 2).(subTitles := [1, 2]), Leaf(b, Some(0), 2, 3), Leaf(c, Some(0), 2, 4)];
            Step(Builder(nodes, [0], Some(2)), Heading(1, d)) == Builder(nodes + [Leaf(d, None, 1, 2)], [0, 3], Some(3))
  {
    var nodes := [Leaf(a, None, 1, 2).(subTitles := [1, 2]), Leaf(b, Some(0), 2, 3), Leaf(c, Some(0), 2, 4)];
    assert BoundedWalk(nodes, Some(0), 1, 0, 1) == None;
    assert ChooseParent(Builder(nodes, [0], Some(2)), 1) == None;
  }

  /**
   `# A`, `## B`, `## C`, `# D`: roots A and D; A has children B then C.
   B gets show level 3 but C, a same-level successor, gets B's show level
   plus one, 4, although both hang under A (article.go:136).
   */
  lemma ExampleSiblingShowLevels(a: string, b: string, c: string, d: string)
    ensures var r := Run(Start([], []), [Heading(1, a), Heading(2, b), Heading(2, c), Heading(1, d)]);
            && |r.nodes| == 4
            && r.roots == [0, 3]
            && r.nodes[0].subTitles == [1, 2] && r.nodes[1].subTitles == []
            && r.nodes[2].subTitles == [] && r.nodes[3].subTitles == []
            && r.nodes[1].parent == Some(0) && r.nodes[2].parent == Some(0) && r.nodes[3].parent == None
            && r.nodes[0].showLevel == 2 && r.nodes[1].showLevel == 3
            && r.nodes[2].showLevel == 4 && r.nodes[3].showLevel == 2
  {
    SiblingStep1(a);
    SiblingStep2(a, b);
    SiblingStep3(a, b, c);
    SiblingStep4(a, b, c, d);
    var n0 := Leaf(a, None, 1, 2);
    var nodes := [n0.(subTitles := [1, 2]), Leaf(b, Some(0), 2, 3), Leaf(c, Some(0), 2, 4)];
    RunFourSteps(Start([], []), [Heading(1, a), Heading(2, b), Heading(2, c), Heading(1, d)],
      Builder([n0], [0], Some(0)),
      Builder([n0.(subTitles := [1]), Leaf(b, Some(0), 2, 3)], [0], Some(1)),
      Builder(nodes, [0], Some(2)),
      Builder(nodes + [Leaf(d, None, 1, 2)], [0, 3], Some(3)));
  }

  lemma SkippedStep2(a: string, b: string)
    ensures Step(Builder([Leaf(a, None, 1, 2)], [0], Some(0)), Heading(3, b)) ==
              Builder([Leaf(a, None, 1, 2).(subTitles := [1]), Leaf(b, Some(0), 3, 3)], [0], Some(1))
  {
    var b1 := Builder([Leaf(a, None, 1, 2)], [0], Some(0));
    assert ChooseParent(b1, 3) == Some(0);
    assert Leaf(a, None, 1, 2).subTitles + [1] == [1];
  }

  lemma SkippedStep3(a: string, b: string, c: string)
    ensures Step(Builder([Leaf(a, None, 1, 2).(subTitles := [1]), Leaf(b, Some(0), 3, 3)], [0], Some(1)), Heading(2, c)) ==
              Builder([Leaf(a, None, 1, 2).(subTitles := [1, 2]), Leaf(b, Some(0), 3, 3), Leaf(c, Some(0), 2, 3)], [0], Some(2))
  {
    var nodes := [Leaf(a, None, 1, 2).(subTitles := [1]), Leaf(b, Some(0), 3, 3)];
    assert BoundedWalk(nodes, Some(1), 2, -1, 1) == Some(0);
    assert ChooseParent(Builder(nodes, [0], Some(1)), 2) == Some(0);
    assert [1] + [2] == [1, 2];
  }

  /**
   Levels 1, 3, 2: the level-3 heading hangs under the level-1 one despite
   the gap, and the level-2 heading that follows climbs back to the same
   parent. Both children get show level 3.
   */
  lemma ExampleSkippedLevel(a: string, b: string, c: string)
    ensures var r := Run(Start([], []), [Heading(1, a), Heading(3, b), Heading(2, c)]);
            && |r.nodes| == 3
            && r.roots == [0]
            && r.nodes[0].subTitles == [1, 2] && r.nodes[1].subTitles == [] && r.nodes[2].subTitles == []
            && r.nodes[1].parent == Some(0) && r.nodes[2].parent == Some(0)
            && r.nodes[0].showLevel == 2 && r.nodes[1].showLevel == 3 && r.nodes[2].showLevel == 3
  {
    SiblingStep1(a);
    SkippedStep2(a, b);
    SkippedStep3(a, b, c);
    var n0 := Leaf(a, None, 1, 2);
    RunThreeSteps(Start([], []), [Heading(1, a), Heading(3, b), Heading(2, c)],
      Builder([n0], [0], Some(0)),
      Builder([n0.(subTitles := [1]), Leaf(b, Some(0), 3, 3)], [0], Some(1)),
      Builder([n0.(subTitles := [1, 2]), Leaf(b, Some(0), 3, 3), Leaf(c, Some(0), 2, 3)], [0], Some(2)));
  }

  /**
   GenTOC never clears the article's list: a second call on the text `# A`
   files a second record for the same heading, and the roots list it twice.
   */
  lemma ExampleRerunAppends(a: string)
    ensures var r1 := Run(Start([], []), [Heading(1, a)]);
            var r2 := Run(Start(r1.nodes, r1.roots), [Heading(1, a)]);
            && r1.roots == [0] && |r1.nodes| == 1
            && r2.roots == [0, 1] && |r2.nodes| == 2 && r2.nodes[1] == r2.nodes[0]
  {
    var hs := [Heading(1, a)];
    assert hs[..0] == [];
    SiblingStep1(a);
    var n0 := Leaf(a, None, 1, 2);
    assert Run(Start([], []), hs) == Builder([n0], [0], Some(0));
    assert Step(Start([n0], [0]), Heading(1, a)) == Builder([n0, n0], [0, 1], Some(1));
    assert Run(Start([n0], [0]), hs) == Builder([n0, n0], [0, 1], Some(1));
  }

  /** A path of `m` records, each the only child of the one before, with show levels 2, 3, ... */
  predicate IsPath(r: Builder, m: nat) {
    && |r.nodes| == m
    && r.roots == (if m == 0 then [] else [0])
    && forall k :: 0 <= k < m ==>
         && r.nodes[k].parent == (if k == 0 then None else Some(k - 1))
         && r.nodes[k].subTitles == (if k + 1 < m then [k + 1] else [])
         && r.nodes[k].showLevel == k + 2
  }

  lemma PathGrows(mid: Builder, h: Heading, m: nat)
    requires Ready(mid) && IsPath(mid, m)
    requires m == 0 ==> mid.current == None
    requires m > 0 ==> mid.current == Some(m - 1) && mid.nodes[m - 1].level < h.level
    ensures IsPath(Step(mid, h), m + 1)
  {
    if m == 0 {
      StepRoot(mid, h);
    } else {
      PathExtends(mid, h, m);
    }
  }

  lemma PathExtends(mid: Builder, h: Heading, m: nat)
    requires Ready(mid) && IsPath(mid, m) && m > 0
    requires mid.current == Some(m - 1) && mid.nodes[m - 1].level < h.level
    ensures IsPath(Step(mid, h), m + 1)
  {
    StepDeeper(mid, h);
    PathAppend(mid, Step(mid, h), m);
  }

  lemma PathAppend(mid: Builder, r: Builder, m: nat)
    requires IsPath(mid, m) && m > 0
    requires |r.nodes| == m + 1 && r.roots == mid.roots
    requires r.nodes[m].parent == Some(m - 1) && r.nodes[m].subTitles == []
    requires r.nodes[m].showLevel == mid.nodes[m - 1].showLevel + 1
    requires forall i :: 0 <= i < m ==>
               && r.nodes[i].parent == mid.nodes[i].parent
               && r.nodes[i].showLevel == mid.nodes[i].showLevel
               && r.nodes[i].subTitles == mid.nodes[i].subTitles + (if i == m - 1 then [m] else [])
    ensures IsPath(r, m + 1)
  {
    assert r.nodes[m - 1].subTitles == [] + [m];
  }

  /**
   Headings whose levels strictly increase nest into a single path: each
   record is the only child of the one before, and the show levels are
   2, 3, 4, ...
   */
  lemma {:induction false} DeeperHeadingsNest(hs: seq<Heading>)
    requires forall k :: 0 < k < |hs| ==> hs[k - 1].level < hs[k].level
    ensures IsPath(Run(Start([], []), hs), |hs|)
    decreases |hs|
  {
    if hs != [] {
      var n := |hs|;
      var prefix := hs[..n - 1];
      DeeperHeadingsNest(prefix);
      var mid := Run(Start([], []), prefix);
      if n > 1 {
        RunRecords(Start([], []), prefix);
        assert mid.nodes[n - 2].level == prefix[n - 2].level == hs[n - 2].level;
      }
      PathGrows(mid, hs[n - 1], n - 1);
    }
  }

  /** `m` records that are all roots, in order, with show level 2 and no children. */
  predicate AllRoots(r: Builder, m: nat) {
    && |r.nodes| == m
    && r.roots == seq(m, k => k)
    && forall k :: 0 <= k < m ==>
         r.nodes[k].parent == None && r.nodes[k].subTitles == [] && r.nodes[k].showLevel == 2
  }

  lemma RootsGrow(mid: Builder, h: Heading, m: nat)
    requires Ready(mid) && AllRoots(mid, m)
    requires m == 0 ==> mid.current == None
    requires m > 0 ==> mid.current == Some(m - 1) && mid.nodes[m - 1].level == h.level
    ensures AllRoots(Step(mid, h), m + 1)
  {
    assert ChooseParent(mid, h.level) == None;
    StepRoot(mid, h);
    assert seq(m, k => k) + [m] == seq(m + 1, k => k);
  }

  /**
   Headings that all have the same level are all roots with show level 2 and
   no children.
   */
  lemma {:induction false} SameLevelHeadingsAreRoots(hs: seq<Heading>)
    requires forall k :: 0 <= k < |hs| ==> hs[k].level == hs[0].level
    ensures AllRoots(Run(Start([], []), hs), |hs|)
    decreases |hs|
  {
    if hs != [] {
      var n := |hs|;
      var prefix := hs[..n - 1];
      SameLevelHeadingsAreRoots(prefix);
      var mid := Run(Start([], []), prefix);
      if n > 1 {
        RunRecords(Start([], []), prefix);
        assert mid.nodes[n - 2].level == prefix[n - 2].level == hs[n - 1].level;
      }
      RootsGrow(mid, hs[n - 1], n - 1);
    }
  }
}
