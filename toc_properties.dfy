/**
 Properties of the GenTOC builder beyond the invariants it keeps: where a new
 heading is attached, which record becomes a root, that one call never
 touches the records an earlier call left in the article, and the shapes the
 builder gives to a few kinds of heading sequences.
 */
module TocProperties {
  import opened Wrappers
  import opened Toc
  import opened TocInvariants
  import Scanner
  import Slug

  /** Running one more heading is one more step. */
  lemma RunSnoc(b: Builder, hs: seq<Scanner.Heading>, h: Scanner.Heading)
    requires Ready(b)
    ensures Run(b, hs + [h]) == Step(Run(b, hs), h)
  {
    assert (hs + [h])[..|hs|] == hs;
  }

  /** The records from `x` up through the parent links, `x` first. */
  function Chain(nodes: seq<TocNode>, x: Option<nat>): (c: seq<nat>)
    requires Linked(nodes) && InArena(nodes, x)
    ensures forall k :: 0 <= k < |c| ==> c[k] < |nodes|
    decreases if x.Some? then x.value + 1 else 0
  {
    match x
    case None => []
    case Some(i) => [i] + Chain(nodes, nodes[i].parent)
  }

  /**
   NearestBelow is the first record on the chain whose level is below
   `level`: it is None exactly when no record on the chain has a smaller
   level, and otherwise every record before it on the chain has a level of at
   least `level`.
   */
  lemma {:induction false} NearestBelowIsFirstOnChain(nodes: seq<TocNode>, x: Option<nat>, level: nat)
    requires Linked(nodes) && InArena(nodes, x)
    ensures var c := Chain(nodes, x);
            var r := NearestBelow(nodes, x, level);
            && (r.None? <==> forall k :: 0 <= k < |c| ==> nodes[c[k]].level >= level)
            && (r.Some? ==> exists k :: 0 <= k < |c| && c[k] == r.value &&
                                        forall m :: 0 <= m < k ==> nodes[c[m]].level >= level)
  {
    NearestBelowNone(nodes, x, level);
    NearestBelowFirst(nodes, x, level);
  }

  lemma {:induction false} NearestBelowNone(nodes: seq<TocNode>, x: Option<nat>, level: nat)
    requires Linked(nodes) && InArena(nodes, x)
    ensures var c := Chain(nodes, x);
            NearestBelow(nodes, x, level).None? <==> forall k :: 0 <= k < |c| ==> nodes[c[k]].level >= level
    decreases if x.Some? then x.value + 1 else 0
  {
    if x.Some? {
      var i := x.value;
      var c := Chain(nodes, x);
      var rest := Chain(nodes, nodes[i].parent);
      assert c == [i] + rest;
      if nodes[i].level >= level {
        NearestBelowNone(nodes, nodes[i].parent, level);
        if forall k :: 0 <= k < |rest| ==> nodes[rest[k]].level >= level {
          forall k | 0 <= k < |c| ensures nodes[c[k]].level >= level {
            if k > 0 {
              assert c[k] == rest[k - 1];
            }
          }
        }
        if forall k :: 0 <= k < |c| ==> nodes[c[k]].level >= level {
          forall k | 0 <= k < |rest| ensures nodes[rest[k]].level >= level {
            assert rest[k] == c[k + 1];
          }
        }
      } else {
        assert c[0] == i;
      }
    }
  }

  lemma {:induction false} NearestBelowFirst(nodes: seq<TocNode>, x: Option<nat>, level: nat)
    requires Linked(nodes) && InArena(nodes, x)
    ensures var c := Chain(nodes, x);
            var r := NearestBelow(nodes, x, level);
            r.Some? ==> exists k :: 0 <= k < |c| && c[k] == r.value &&
                                    forall m :: 0 <= m < k ==> nodes[c[m]].level >= level
    decreases if x.Some? then x.value + 1 else 0
  {
    if x.Some? {
      var i := x.value;
      var c := Chain(nodes, x);
      var rest := Chain(nodes, nodes[i].parent);
      assert c == [i] + rest;
      var r := NearestBelow(nodes, x, level);
      if nodes[i].level >= level {
        NearestBelowFirst(nodes, nodes[i].parent, level);
        assert r == NearestBelow(nodes, nodes[i].parent, level);
        if r.Some? {
          var k :| 0 <= k < |rest| && rest[k] == r.value &&
                   forall m :: 0 <= m < k ==> nodes[rest[m]].level >= level;
          assert c[k + 1] == r.value;
          forall m | 0 <= m < k + 1 ensures nodes[c[m]].level >= level {
            if m > 0 {
              assert c[m] == rest[m - 1];
            }
          }
          assert 0 <= k + 1 < |c| && c[k + 1] == r.value && forall m :: 0 <= m < k + 1 ==> nodes[c[m]].level >= level;
          assert exists j :: 0 <= j < |c| && c[j] == r.value && forall m :: 0 <= m < j ==> nodes[c[m]].level >= level;
          assert c == Chain(nodes, x) && r == NearestBelow(nodes, x, level);
        }
      } else {
        assert c[0] == i;
      }
    }
  }

  /**
   In all three cases the parent of a new heading is the nearest record,
   starting from the previous heading's record and walking up, whose level
   is below the new heading's level.
   */
  lemma ParentIsNearestBelow(b: Builder, level: nat)
    requires Ready(b) && LevelsIncrease(b.nodes)
    ensures ChooseParent(b, level) ==
              if b.current.None? then None else NearestBelow(b.nodes, b.current, level)
  {
    if b.current.Some? && b.nodes[b.current.value].level > level {
      AscendingWalkNeverBinds(b, level);
    }
  }

  /**
   A new heading becomes a root (no parent, show level 2) exactly when it is
   the first heading of the call or no record on the chain from the previous
   heading's record upward has a smaller level; otherwise its parent is the
   first record on that chain with a smaller level.
   */
  lemma NewRecordPlacement(b: Builder, h: Scanner.Heading)
    requires Ready(b) && LevelsIncrease(b.nodes)
    ensures var r := Step(b, h);
            var node := r.nodes[|b.nodes|];
            var c := Chain(b.nodes, b.current);
            && (node.parent.None? <==>
                  b.current.None? || forall k :: 0 <= k < |c| ==> b.nodes[c[k]].level >= h.level)
            && (node.parent.None? ==> node.showLevel == 2)
            && (node.parent.Some? ==>
                  exists k :: 0 <= k < |c| && c[k] == node.parent.value &&
                              b.nodes[c[k]].level < h.level &&
                              forall m :: 0 <= m < k ==> b.nodes[c[m]].level >= h.level)
  {
    ParentIsNearestBelow(b, h.level);
    NearestBelowIsFirstOnChain(b.nodes, b.current, h.level);
  }

  /** The records a call adds are its headings, in document order, each with its title, slug and level. */
  lemma {:induction false} RunRecords(b: Builder, hs: seq<Scanner.Heading>)
    requires Ready(b)
    ensures var r := Run(b, hs);
            && (forall i :: 0 <= i < |b.nodes| ==> r.nodes[i] == b.nodes[i].(subTitles := r.nodes[i].subTitles))
            && (forall k :: 0 <= k < |hs| ==>
                  && r.nodes[|b.nodes| + k].title == hs[k].title
                  && r.nodes[|b.nodes| + k].slug == Slug.Slugify(hs[k].title)
                  && r.nodes[|b.nodes| + k].level == hs[k].level)
            && b.roots <= r.roots
    decreases |hs|
  {
    if hs != [] {
      var prefix, h := hs[..|hs| - 1], hs[|hs| - 1];
      RunRecords(b, prefix);
      var mid := Run(b, prefix);
      assert prefix + [h] == hs;
      RunSnoc(b, prefix, h);
      RecordsExtend(b, prefix, h, mid, Step(mid, h));
    }
  }

  lemma RecordsExtend(b: Builder, prefix: seq<Scanner.Heading>, h: Scanner.Heading, mid: Builder, r: Builder)
    requires |mid.nodes| == |b.nodes| + |prefix|
    requires forall i :: 0 <= i < |b.nodes| ==> mid.nodes[i] == b.nodes[i].(subTitles := mid.nodes[i].subTitles)
    requires forall k :: 0 <= k < |prefix| ==>
               && mid.nodes[|b.nodes| + k].title == prefix[k].title
               && mid.nodes[|b.nodes| + k].slug == Slug.Slugify(prefix[k].title)
               && mid.nodes[|b.nodes| + k].level == prefix[k].level
    requires b.roots <= mid.roots
    requires |r.nodes| == |mid.nodes| + 1
    requires forall i :: 0 <= i < |mid.nodes| ==> r.nodes[i] == mid.nodes[i].(subTitles := r.nodes[i].subTitles)
    requires r.nodes[|mid.nodes|].title == h.title && r.nodes[|mid.nodes|].slug == Slug.Slugify(h.title)
    requires r.nodes[|mid.nodes|].level == h.level
    requires mid.roots <= r.roots
    ensures var hs := prefix + [h];
            && (forall i :: 0 <= i < |b.nodes| ==> r.nodes[i] == b.nodes[i].(subTitles := r.nodes[i].subTitles))
            && (forall k :: 0 <= k < |hs| ==>
                  && r.nodes[|b.nodes| + k].title == hs[k].title
                  && r.nodes[|b.nodes| + k].slug == Slug.Slugify(hs[k].title)
                  && r.nodes[|b.nodes| + k].level == hs[k].level)
            && b.roots <= r.roots
  {
    var hs := prefix + [h];
    forall k | 0 <= k < |hs|
      ensures r.nodes[|b.nodes| + k].title == hs[k].title
      ensures r.nodes[|b.nodes| + k].slug == Slug.Slugify(hs[k].title)
      ensures r.nodes[|b.nodes| + k].level == hs[k].level
    {
      if k < |prefix| {
        assert hs[k] == prefix[k];
        assert r.nodes[|b.nodes| + k] == mid.nodes[|b.nodes| + k].(subTitles := r.nodes[|b.nodes| + k].subTitles);
      }
    }
  }

  /** Arenas in which the records from index `n0` on only ever link to records from `n0` on. */
  ghost predicate FreshFrom(b: Builder, n0: nat) {
    && (b.current.Some? ==> n0 <= b.current.value)
    && forall i :: n0 <= i < |b.nodes| && b.nodes[i].parent.Some? ==> n0 <= b.nodes[i].parent.value
  }

  lemma {:induction false} WalkStaysFresh(nodes: seq<TocNode>, q: nat, level: nat, i: int, diff: int, n0: nat)
    requires Linked(nodes) && n0 <= q < |nodes|
    requires forall j :: n0 <= j < |nodes| && nodes[j].parent.Some? ==> n0 <= nodes[j].parent.value
    ensures var r := BoundedWalk(nodes, Some(q), level, i, diff);
            r.Some? ==> n0 <= r.value
    decreases diff - i
  {
    if i < diff {
      var next := nodes[q].parent;
      if next.Some? && nodes[next.value].level >= level {
        WalkStaysFresh(nodes, next.value, level, i + 1, diff, n0);
      }
    }
  }

  lemma StepFresh(b: Builder, h: Scanner.Heading, n0: nat)
    requires Ready(b) && FreshFrom(b, n0) && n0 <= |b.nodes|
    ensures var p := ChooseParent(b, h.level);
            p.Some? ==> n0 <= p.value
    ensures FreshFrom(Step(b, h), n0)
  {
    if b.current.Some? {
      var c := b.current.value;
      WalkStaysFresh(b.nodes, c, h.level, -1, b.nodes[c].level - h.level, n0);
    }
  }

  /**
   A call starts with no current record, so it never attaches a heading to a
   record left by an earlier call: those records, and the roots already
   listed, stay exactly as they were.
   */
  lemma {:induction false} RunLeavesEarlierRecords(nodes: seq<TocNode>, roots: seq<nat>, hs: seq<Scanner.Heading>)
    requires Linked(nodes)
    ensures var r := Run(Start(nodes, roots), hs);
            r.nodes[..|nodes|] == nodes && roots <= r.roots && FreshFrom(r, |nodes|)
    decreases |hs|
  {
    var b := Start(nodes, roots);
    if hs != [] {
      var prefix := hs[..|hs| - 1];
      RunLeavesEarlierRecords(nodes, roots, prefix);
      var mid := Run(b, prefix);
      StepFresh(mid, hs[|hs| - 1], |nodes|);
      var r := Step(mid, hs[|hs| - 1]);
      assert r == Run(b, hs);
      forall i | 0 <= i < |nodes| ensures r.nodes[i] == nodes[i] {
        assert mid.nodes[i] == mid.nodes[..|nodes|][i];
      }
    }
  }
}
