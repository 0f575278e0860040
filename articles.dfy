/**
 The `Article` record of article.go with the parts that hold logic: the
 table-of-contents builder `GenTOC`, the tag hooks `BeforeSave` and
 `AfterFind`, and the formatting helpers `SID`, `ToIndexData` and
 `GetIndexID`. The table of contents lives in two fields: `tocNodes`, the
 arena of all `ArticleTOC` records the article has made, and `toc`, the
 indices of its top-level records (the Go field `Toc`).
 */
module Articles {
  import opened Wrappers
  import Text
  import Format
  import Scanner
  import Slug
  import opened Toc
  import TocInvariants
  import TocProperties

  /** The document handed to the search index: the version is already rendered as text. */
  datatype ArticleIndex = ArticleIndex(slug: string, version: string, title: string, content: string)

  class Article {
    var id: nat
    var slug: string
    var title: string
    var content: string
    var rawTags: string
    var tags: seq<string>
    var version: nat
    var tocNodes: seq<TocNode>
    var toc: seq<nat>

    /** The records form a forest: parent links point back, levels grow downwards, lists match links. */
    ghost predicate Valid()
      reads this
    {
      TocInvariants.WellFormed(Start(tocNodes, toc))
    }

    constructor(id: nat, slug: string, title: string, content: string, rawTags: string, version: nat)
      ensures Valid()
      ensures this.id == id && this.slug == slug && this.title == title && this.content == content
      ensures this.rawTags == rawTags && this.tags == [] && this.version == version
      ensures tocNodes == [] && toc == []
    {
      this.id := id;
      this.slug := slug;
      this.title := title;
      this.content := content;
      this.rawTags := rawTags;
      this.tags := [];
      this.version := version;
      this.tocNodes := [];
      this.toc := [];
      new;
      TocInvariants.EmptyWellFormed();
      assert Start(tocNodes, toc) == Start([], []);
    }

    /** `%d` of the identifier: the digits read back as the identifier. */
    function SID(): (s: string)
      reads this
      ensures s != [] && Format.AllDigits(s)
      ensures Format.DecimalValue(s) == id
    {
      Format.DecimalRoundTrip(id);
      Format.Decimal(id)
    }

    /** The search document: slug, title and content as they are, the version as decimal text. */
    function ToIndexData(): (d: ArticleIndex)
      reads this
      ensures d.slug == slug && d.title == title && d.content == content
      ensures d.version != [] && Format.AllDigits(d.version) && Format.DecimalValue(d.version) == version
    {
      Format.DecimalRoundTrip(version);
      ArticleIndex(slug, Format.Decimal(version), title, content)
    }

    /** The search key `"%d.%d"` of identifier and version; splitting it at the `.` gives both back. */
    function GetIndexID(): (key: string)
      reads this
      ensures Format.ParseIndexID(key) == Some((id, version))
      ensures multiset(key)['.'] == 1
    {
      Format.IndexIDRoundTrip(id, version);
      Format.IndexIDShape(id, version);
      Format.IndexID(id, version)
    }

    /** Splits the raw tag text at every comma; joining the tags again restores it. */
    method BeforeSave()
      modifies this`tags
      ensures tags == Text.Split(rawTags, ',')
      ensures Text.Join(tags, ',') == rawTags
      ensures |tags| == multiset(rawTags)[','] + 1
      ensures forall i :: 0 <= i < |tags| ==> ',' !in tags[i]
    {
      tags := Text.Split(rawTags, ',');
      Text.JoinSplit(rawTags, ',');
      Text.SplitCount(rawTags, ',');
    }

    /** Joins the tags with commas; splitting the result gives the tags back exactly when none holds a comma and there is at least one. */
    method AfterFind()
      modifies this`rawTags
      ensures rawTags == Text.Join(tags, ',')
      ensures Text.Split(rawTags, ',') == tags <==> tags != [] && forall i :: 0 <= i < |tags| ==> ',' !in tags[i]
    {
      rawTags := Text.Join(tags, ',');
      Text.SplitJoin(tags, ',');
    }

    /**
     Scans the content line by line and files a record for every heading.
     Records made by earlier calls and the top-level list are kept; the new
     records are added after them, exactly as `Run` describes.
     */
    method GenTOC()
      requires Valid()
      modifies this`tocNodes, this`toc
      ensures Valid()
      ensures var r := Run(Start(old(tocNodes), old(toc)), Scanner.Headings(Text.Split(content, '\n')));
              tocNodes == r.nodes && toc == r.roots
    {
      var lines := Text.Split(content, '\n');
      var currentToc: Option<nat> := None;
      ghost var b0 := Start(tocNodes, toc);
      var j := 0;
      while j < |lines|
        invariant 0 <= j <= |lines|
        invariant Builder(tocNodes, toc, currentToc) == Run(b0, Scanner.Headings(lines[..j]))
      {
        var matches := Scanner.ParseHeading(lines[j]);
        if matches.None? {
          LineSkipped(b0, lines, j);
          j := j + 1;
          continue;
        }
        LineFiled(b0, lines, j, matches.value);
        currentToc := FileHeading(matches.value, currentToc);
        j := j + 1;
      }
      assert lines[..j] == lines;
      TocInvariants.RunWellFormed(b0, Scanner.Headings(lines));
      TocInvariants.ForgetCurrent(Run(b0, Scanner.Headings(lines)));
    }

    /**
     The body of GenTOC's loop for one heading line: makes the record, picks
     its parent from `currentToc` and files it; returns the new `currentToc`.
     */
    method FileHeading(h: Scanner.Heading, currentToc: Option<nat>) returns (next: Option<nat>)
      requires Ready(Builder(tocNodes, toc, currentToc))
      modifies this`tocNodes, this`toc
      ensures Builder(tocNodes, toc, next) == Step(Builder(old(tocNodes), old(toc), currentToc), h)
    {
      ghost var b := Builder(tocNodes, toc, currentToc);
      ghost var p := ChooseParent(b, h.level);
      var n := |tocNodes|;
      var node := TocNode(h.title, Slug.Slugify(h.title), [], None, h.level, 2);
      if currentToc.None? {
        toc := toc + [n];
      } else {
        var c := currentToc.value;
        var cur := tocNodes[c];
        if cur.level > h.level {
          var parent := WalkUp(c, h.level);
          assert parent == p;
          if parent.None? {
            toc := toc + [n];
          } else {
            var q := parent.value;
            node := node.(parent := parent, showLevel := tocNodes[q].showLevel + 1);
            tocNodes := tocNodes[q := tocNodes[q].(subTitles := tocNodes[q].subTitles + [n])];
          }
        } else if cur.level == h.level {
          assert cur.parent == p;
          if cur.parent.None? {
            toc := toc + [n];
          } else {
            var q := cur.parent.value;
            node := node.(parent := cur.parent, showLevel := cur.showLevel + 1);
            tocNodes := tocNodes[q := tocNodes[q].(subTitles := tocNodes[q].subTitles + [n])];
          }
        } else {
          assert currentToc == p;
          node := node.(parent := currentToc, showLevel := cur.showLevel + 1);
          tocNodes := tocNodes[c := tocNodes[c].(subTitles := tocNodes[c].subTitles + [n])];
        }
      }
      tocNodes := tocNodes + [node];
      next := Some(n);
      assert node.showLevel == ShowLevelFor(b, h, p);
      AttachShape(b, h, p, node.showLevel);
    }

    /**
     The ascending walk: from record `c`, move to the parent until there is
     none or its level is below `level`, at most `diff + 1` times with `diff`
     the difference of the levels.
     */
    method WalkUp(c: nat, level: nat) returns (parent: Option<nat>)
      requires Linked(tocNodes) && c < |tocNodes|
      ensures parent == BoundedWalk(tocNodes, Some(c), level, -1, tocNodes[c].level - level)
      ensures TocInvariants.LevelsIncrease(tocNodes) && tocNodes[c].level > level ==>
                parent == NearestBelow(tocNodes, tocNodes[c].parent, level)
    {
      parent := Some(c);
      var diff := tocNodes[c].level - level;
      var i := -1;
      while i < diff
        invariant parent.Some? && parent.value < |tocNodes|
        invariant BoundedWalk(tocNodes, parent, level, i, diff) == BoundedWalk(tocNodes, Some(c), level, -1, diff)
        decreases diff - i
      {
        parent := tocNodes[parent.value].parent;
        if parent.None? || tocNodes[parent.value].level < level {
          break;
        }
        i := i + 1;
      }
      if TocInvariants.LevelsIncrease(tocNodes) && tocNodes[c].level > level {
        TocInvariants.WalkReachesNearest(tocNodes, c, level, -1, diff);
      }
    }
  }

  /** Attach spelled out: the new record goes last and its index onto its parent's list or the roots. */
  lemma AttachShape(b: Builder, h: Scanner.Heading, p: Option<nat>, show: nat)
    requires Ready(b) && InArena(b.nodes, p)
    ensures var n := |b.nodes|;
            var node := TocNode(h.title, Slug.Slugify(h.title), [], p, h.level, show);
            Attach(b, h, p, show) ==
              if p.None? then Builder(b.nodes + [node], b.roots + [n], Some(n))
              else Builder(b.nodes[p.value := b.nodes[p.value].(subTitles := b.nodes[p.value].subTitles + [n])] + [node], b.roots, Some(n))
  {
  }

  /** A line that is not a heading leaves GenTOC's builder as it is. */
  lemma LineSkipped(b0: Builder, lines: seq<string>, j: nat)
    requires Ready(b0) && j < |lines| && Scanner.ParseHeading(lines[j]).None?
    ensures Run(b0, Scanner.Headings(lines[..j + 1])) == Run(b0, Scanner.Headings(lines[..j]))
  {
    LineHeadings(lines, j);
    assert Scanner.Headings(lines[..j]) + [] == Scanner.Headings(lines[..j]);
  }

  /** A heading line is one Step of GenTOC's builder. */
  lemma LineFiled(b0: Builder, lines: seq<string>, j: nat, h: Scanner.Heading)
    requires Ready(b0) && j < |lines| && Scanner.ParseHeading(lines[j]) == Some(h)
    ensures Run(b0, Scanner.Headings(lines[..j + 1])) == Step(Run(b0, Scanner.Headings(lines[..j])), h)
  {
    LineHeadings(lines, j);
    TocProperties.RunSnoc(b0, Scanner.Headings(lines[..j]), h);
  }

  lemma LineHeadings(lines: seq<string>, j: nat)
    requires j < |lines|
    ensures var hd := Scanner.ParseHeading(lines[j]);
            Scanner.Headings(lines[..j + 1]) == Scanner.Headings(lines[..j]) + (if hd.Some? then [hd.value] else [])
  {
    assert lines[..j + 1] == lines[..j] + [lines[j]];
    Scanner.HeadingsSnoc(lines[..j], lines[j]);
  }
}
