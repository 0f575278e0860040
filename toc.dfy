/**
 The table-of-contents builder of `Article.GenTOC` (article.go:95-147) as a
 function on an arena. The Go code links `ArticleTOC` records by pointers:
 each has a `Parent` back-link and a `SubTitles` list, and the article keeps
 the top-level records in `Toc`. Here every record is an entry of `nodes`,
 addressed by its index; `parent` is the index of the parent record (always
 smaller than the record's own index), `subTitles` lists the indices of its
 children, and `roots` is the article's `Toc`. `current` is the Go variable
 `currentToc`, the record made for the previous heading.
 */
module Toc {
  import opened Wrappers
  import Scanner
  import Slug

  datatype TocNode = TocNode(
    title: string,
    slug: string,
    subTitles: seq<nat>,
    parent: Option<nat>,
    level: nat,
    showLevel: nat)

  datatype Builder = Builder(nodes: seq<TocNode>, roots: seq<nat>, current: Option<nat>)

  /** A builder before the first heading of a call: the article's records so far, no current record. */
  function Start(nodes: seq<TocNode>, roots: seq<nat>): Builder {
    Builder(nodes, roots, None)
  }

  predicate InArena(nodes: seq<TocNode>, x: Option<nat>) {
    x.Some? ==> x.value < |nodes|
  }

  /** Every parent link points to an earlier record, so walking up always ends. */
  predicate Linked(nodes: seq<TocNode>) {
    forall i :: 0 <= i < |nodes| && nodes[i].parent.Some? ==> nodes[i].parent.value < i
  }

  predicate Ready(b: Builder) {
    Linked(b.nodes) && InArena(b.nodes, b.current)
  }

  /**
   The first record with a level below `level` on the way up from `x`
   through the parent links (`x` itself included), or None if there is none.
   */
  function NearestBelow(nodes: seq<TocNode>, x: Option<nat>, level: nat): (r: Option<nat>)
    requires Linked(nodes) && InArena(nodes, x)
    ensures InArena(nodes, r)
    ensures r.Some? ==> nodes[r.value].level < level
    ensures r.Some? ==> x.Some? && r.value <= x.value
    decreases if x.Some? then x.value + 1 else 0
  {
    match x
    case None => None
    case Some(i) => if nodes[i].level < level then x else NearestBelow(nodes, nodes[i].parent, level)
  }

  /**
   The ascending walk of article.go:117-122, loop counter and all: move to
   the parent, stop on a missing parent or a level below `level`, and give up
   once `i` reaches `diff`, the difference between the previous record's
   level and the new one.
   */
  function BoundedWalk(nodes: seq<TocNode>, parent: Option<nat>, level: nat, i: int, diff: int): (r: Option<nat>)
    requires Linked(nodes) && parent.Some? && parent.value < |nodes|
    ensures InArena(nodes, r)
    decreases diff - i
  {
    if i >= diff then parent
    else
      var next := nodes[parent.value].parent;
      if next.None? || nodes[next.value].level < level then next
      else BoundedWalk(nodes, next, level, i + 1, diff)
  }

  /**
   The parent GenTOC gives a new heading of level `level`: none for the first
   heading; for a shallower heading the bounded walk up from the previous
   record (article.go:115-129); for a heading of the same level the previous
   record's parent (article.go:130-138); for a deeper heading the previous
   record itself (article.go:139-144).
   */
  function ChooseParent(b: Builder, level: nat): (p: Option<nat>)
    requires Ready(b)
    ensures InArena(b.nodes, p)
    ensures p.Some? ==> b.current.Some?
  {
    match b.current
    case None => None
    case Some(c) =>
      var cur := b.nodes[c];
      if cur.level > level then BoundedWalk(b.nodes, Some(c), level, -1, cur.level - level)
      else if cur.level == level then cur.parent
      else Some(c)
  }

  /** Makes the record for `h` with parent `p` and show level `show` and files it under `p` or the roots. */
  function Attach(b: Builder, h: Scanner.Heading, p: Option<nat>, show: nat): (r: Builder)
    requires Ready(b) && InArena(b.nodes, p)
    ensures Ready(r)
    ensures |r.nodes| == |b.nodes| + 1 && r.current == Some(|b.nodes|)
    ensures r.nodes[|b.nodes|] == TocNode(h.title, Slug.Slugify(h.title), [], p, h.level, show)
    ensures forall i {:trigger r.nodes[i]} :: 0 <= i < |b.nodes| ==>
              r.nodes[i] == b.nodes[i].(subTitles := r.nodes[i].subTitles)
    ensures forall i {:trigger r.nodes[i]} :: 0 <= i < |b.nodes| ==>
              r.nodes[i].subTitles == b.nodes[i].subTitles + (if p == Some(i) then [|b.nodes|] else [])
    ensures r.roots == b.roots + (if p.None? then [|b.nodes|] else [])
  {
    var n := |b.nodes|;
    var node := TocNode(h.title, Slug.Slugify(h.title), [], p, h.level, show);
    match p
    case None => Builder(b.nodes + [node], b.roots + [n], Some(n))
    case Some(q) =>
      var nodes := b.nodes[q := b.nodes[q].(subTitles := b.nodes[q].subTitles + [n])];
      Builder(nodes + [node], b.roots, Some(n))
  }

  /**
   The show level GenTOC gives a record whose parent is `p`: 2 for a root
   (article.go:106); otherwise the parent's show level plus one
   (article.go:127, 142), except in the same-level case, where it is the
   PREVIOUS record's show level plus one (article.go:136).
   */
  function ShowLevelFor(b: Builder, h: Scanner.Heading, p: Option<nat>): nat
    requires Ready(b) && InArena(b.nodes, p) && (p.Some? ==> b.current.Some?)
  {
    if p.None? then 2
    else if b.nodes[b.current.value].level == h.level then b.nodes[b.current.value].showLevel + 1
    else b.nodes[p.value].showLevel + 1
  }

  /** One heading of GenTOC: pick the parent, compute the show level, file the record. */
  function Step(b: Builder, h: Scanner.Heading): (r: Builder)
    requires Ready(b)
    ensures Ready(r)
    ensures |r.nodes| == |b.nodes| + 1 && r.current == Some(|b.nodes|)
  {
    var p := ChooseParent(b, h.level);
    Attach(b, h, p, ShowLevelFor(b, h, p))
  }

  /** All headings of one GenTOC call, in document order. */
  function Run(b: Builder, hs: seq<Scanner.Heading>): (r: Builder)
    requires Ready(b)
    ensures Ready(r)
    ensures |r.nodes| == |b.nodes| + |hs|
    ensures hs != [] ==> r.current == Some(|r.nodes| - 1)
    decreases |hs|
  {
    if hs == [] then b else Step(Run(b, hs[..|hs| - 1]), hs[|hs| - 1])
  }
}
