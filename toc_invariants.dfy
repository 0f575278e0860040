/**
 What every GenTOC step keeps true of the arena: a child's level is above
 its parent's, a child's show level is above its parent's and a root's is 2,
 and every record is listed exactly once, in document order, either among
 its parent's `subTitles` or among the article's roots.
 */
module TocInvariants {
  import opened Wrappers
  import opened Toc
  import Scanner

  /** The records among the first `k` whose parent is `p`, in index (document) order. */
  function ChildrenOf(nodes: seq<TocNode>, p: Option<nat>, k: nat): (r: seq<nat>)
    requires k <= |nodes|
    ensures forall j {:trigger j in r} :: j in r <==> 0 <= j < k && nodes[j].parent == p
    ensures forall a, c :: 0 <= a < c < |r| ==> r[a] < r[c]
    decreases k
  {
    if k == 0 then []
    else
      var earlier := ChildrenOf(nodes, p, k - 1);
      assert forall a :: 0 <= a < |earlier| ==> earlier[a] in earlier;
      earlier + (if nodes[k - 1].parent == p then [k - 1] else [])
  }

  ghost predicate LevelsIncrease(nodes: seq<TocNode>)
    requires Linked(nodes)
  {
    forall i :: 0 <= i < |nodes| && nodes[i].parent.Some? ==>
      nodes[nodes[i].parent.value].level < nodes[i].level
  }

  ghost predicate ShowLevelsIncrease(nodes: seq<TocNode>)
    requires Linked(nodes)
  {
    forall i :: 0 <= i < |nodes| ==>
      if nodes[i].parent.None? then nodes[i].showLevel == 2
      else nodes[nodes[i].parent.value].showLevel < nodes[i].showLevel
  }

  ghost predicate ChildListsExact(b: Builder) {
    && (forall i :: 0 <= i < |b.nodes| ==> b.nodes[i].subTitles == ChildrenOf(b.nodes, Some(i), |b.nodes|))
    && b.roots == ChildrenOf(b.nodes, None, |b.nodes|)
  }

  ghost predicate WellFormed(b: Builder) {
    && Ready(b)
    && LevelsIncrease(b.nodes)
    && ShowLevelsIncrease(b.nodes)
    && ChildListsExact(b)
  }

  /** ChildrenOf looks only at the parent links of the first `k` records. */
  lemma {:induction false} ChildrenOfSameLinks(a: seq<TocNode>, c: seq<TocNode>, p: Option<nat>, k: nat)
    requires k <= |a| && k <= |c|
    requires forall j :: 0 <= j < k ==> a[j].parent == c[j].parent
    ensures ChildrenOf(a, p, k) == ChildrenOf(c, p, k)
    decreases k
  {
    if k > 0 {
      ChildrenOfSameLinks(a, c, p, k - 1);
    }
  }

  lemma {:induction false} WalkReachesNearest(nodes: seq<TocNode>, q: nat, level: nat, i: int, diff: int)
    requires Linked(nodes) && LevelsIncrease(nodes) && q < |nodes|
    requires nodes[q].level >= level && nodes[q].level - level < diff - i
    ensures BoundedWalk(nodes, Some(q), level, i, diff) == NearestBelow(nodes, nodes[q].parent, level)
    decreases diff - i
  {
    var next := nodes[q].parent;
    if next.Some? && nodes[next.value].level >= level {
      WalkReachesNearest(nodes, next.value, level, i + 1, diff);
    }
  }

  /**
   The ascending walk of GenTOC (at most `diff + 1` moves, counter from -1)
   always stops on its own test, never on the counter: it ends at the nearest
   record above the previous one whose level is below the new heading's.
   */
  lemma AscendingWalkNeverBinds(b: Builder, level: nat)
    requires Ready(b) && LevelsIncrease(b.nodes) && b.current.Some? && b.nodes[b.current.value].level > level
    ensures var c := b.current.value;
            BoundedWalk(b.nodes, Some(c), level, -1, b.nodes[c].level - level) ==
              NearestBelow(b.nodes, b.nodes[c].parent, level)
  {
    var c := b.current.value;
    WalkReachesNearest(b.nodes, c, level, -1, b.nodes[c].level - level);
  }

  /** The parent GenTOC picks always has a smaller level than the new heading. */
  lemma ParentLevelBelow(b: Builder, level: nat)
    requires Ready(b) && LevelsIncrease(b.nodes)
    ensures var p := ChooseParent(b, level);
            p.Some? ==> b.nodes[p.value].level < level
  {
    if b.current.Some? && b.nodes[b.current.value].level > level {
      AscendingWalkNeverBinds(b, level);
    }
  }

  lemma StepLevels(b: Builder, h: Scanner.Heading)
    requires Ready(b) && LevelsIncrease(b.nodes)
    ensures LevelsIncrease(Step(b, h).nodes)
  {
    ParentLevelBelow(b, h.level);
  }

  lemma StepShowLevels(b: Builder, h: Scanner.Heading)
    requires Ready(b) && ShowLevelsIncrease(b.nodes)
    ensures ShowLevelsIncrease(Step(b, h).nodes)
  {
    var r := Step(b, h);
    var n := |b.nodes|;
    var p := ChooseParent(b, h.level);
    assert r.nodes[n].parent == p && r.nodes[n].showLevel == ShowLevelFor(b, h, p);
    if p.Some? {
      var cur := b.nodes[b.current.value];
      assert cur.level == h.level ==> cur.parent == p;
      assert r.nodes[p.value].showLevel == b.nodes[p.value].showLevel;
    }
    assert forall i :: 0 <= i < n ==> r.nodes[i].parent == b.nodes[i].parent && r.nodes[i].showLevel == b.nodes[i].showLevel;
  }

  lemma {:induction false} ChildrenOfNone(nodes: seq<TocNode>, p: Option<nat>, k: nat)
    requires k <= |nodes|
    requires forall j :: 0 <= j < k ==> nodes[j].parent != p
    ensures ChildrenOf(nodes, p, k) == []
    decreases k
  {
    if k > 0 {
      ChildrenOfNone(nodes, p, k - 1);
    }
  }

  /** After a step, the new record is the last of the children of its parent and of no one else. */
  lemma StepChildrenOf(b: Builder, h: Scanner.Heading, x: Option<nat>)
    requires Ready(b)
    ensures var n := |b.nodes|;
            ChildrenOf(Step(b, h).nodes, x, n + 1) ==
              ChildrenOf(b.nodes, x, n) + (if ChooseParent(b, h.level) == x then [n] else [])
  {
    var r := Step(b, h);
    var n := |b.nodes|;
    assert r.nodes[n].parent == ChooseParent(b, h.level);
    ChildrenOfSameLinks(r.nodes, b.nodes, x, n);
  }

  /** An earlier record's child list gains the new record exactly when it is the chosen parent. */
  lemma StepOldSubTitles(b: Builder, h: Scanner.Heading)
    requires Ready(b) && ChildListsExact(b)
    ensures var r := Step(b, h);
            forall i :: 0 <= i < |b.nodes| ==>
              r.nodes[i].subTitles == ChildrenOf(r.nodes, Some(i), |b.nodes| + 1)
  {
    var r := Step(b, h);
    var n := |b.nodes|;
    forall i | 0 <= i < n
      ensures r.nodes[i].subTitles == ChildrenOf(r.nodes, Some(i), n + 1)
    {
      StepChildrenOf(b, h, Some(i));
    }
  }

  /** The new record starts without children. */
  lemma StepNewSubTitles(b: Builder, h: Scanner.Heading)
    requires Ready(b) && ChildListsExact(b)
    ensures var r := Step(b, h);
            r.nodes[|b.nodes|].subTitles == ChildrenOf(r.nodes, Some(|b.nodes|), |b.nodes| + 1)
  {
    var n := |b.nodes|;
    StepChildrenOf(b, h, Some(n));
    ChildrenOfNone(b.nodes, Some(n), n);
  }

  /** The roots gain the new record exactly when it has no parent. */
  lemma StepRoots(b: Builder, h: Scanner.Heading)
    requires Ready(b) && ChildListsExact(b)
    ensures var r := Step(b, h);
            r.roots == ChildrenOf(r.nodes, None, |b.nodes| + 1)
  {
    StepChildrenOf(b, h, None);
  }

  lemma StepChildLists(b: Builder, h: Scanner.Heading)
    requires Ready(b) && ChildListsExact(b)
    ensures ChildListsExact(Step(b, h))
  {
    StepOldSubTitles(b, h);
    StepNewSubTitles(b, h);
    StepRoots(b, h);
    ChildListsFromParts(Step(b, h), |b.nodes|);
  }

  lemma ChildListsFromParts(r: Builder, n: nat)
    requires |r.nodes| == n + 1
    requires forall i :: 0 <= i < n ==> r.nodes[i].subTitles == ChildrenOf(r.nodes, Some(i), n + 1)
    requires r.nodes[n].subTitles == ChildrenOf(r.nodes, Some(n), n + 1)
    requires r.roots == ChildrenOf(r.nodes, None, n + 1)
    ensures ChildListsExact(r)
  {
  }

  /** One GenTOC step keeps the arena well formed. */
  lemma StepWellFormed(b: Builder, h: Scanner.Heading)
    requires WellFormed(b)
    ensures WellFormed(Step(b, h))
  {
    StepLevels(b, h);
    StepShowLevels(b, h);
    StepChildLists(b, h);
  }

  /** An article without records is well formed. */
  lemma EmptyWellFormed()
    ensures WellFormed(Start([], []))
  {
    assert ChildrenOf([], None, 0) == [];
  }

  /** Well-formedness does not depend on which record came last. */
  lemma ForgetCurrent(b: Builder)
    requires WellFormed(b)
    ensures WellFormed(Start(b.nodes, b.roots))
  {
  }

  /** A whole GenTOC call keeps the arena well formed. */
  lemma {:induction false} RunWellFormed(b: Builder, hs: seq<Scanner.Heading>)
    requires WellFormed(b)
    ensures WellFormed(Run(b, hs))
    decreases |hs|
  {
    if hs != [] {
      RunWellFormed(b, hs[..|hs| - 1]);
      StepWellFormed(Run(b, hs[..|hs| - 1]), hs[|hs| - 1]);
    }
  }

  /**
   In a well-formed arena every record sits in exactly one list: among the
   roots when it has no parent, otherwise among its parent's `subTitles`.
   */
  lemma ListedExactlyOnce(b: Builder, j: nat)
    requires WellFormed(b) && j < |b.nodes|
    ensures j in b.roots <==> b.nodes[j].parent.None?
    ensures forall i :: 0 <= i < |b.nodes| ==> (j in b.nodes[i].subTitles <==> b.nodes[j].parent == Some(i))
  {
  }
}
