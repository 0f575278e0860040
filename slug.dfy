/**
 The slug of a heading title: `whitespaces.ReplaceAllString(title, "-")` with
 `whitespaces` the pattern `[\s|\.]{1,}` of article.go. Inside the brackets
 the `|` is a literal pipe, so the separators are Go's five `\s` characters,
 `.` and `|`; the greedy `{1,}` makes every match a maximal run, and each run
 becomes one `-`.
 */
module Slug {
  import Text

  predicate IsSeparator(c: char) {
    Text.IsSpace(c) || c == '.' || c == '|'
  }

  predicate NoSeparators(s: string) {
    forall i :: 0 <= i < |s| ==> !IsSeparator(s[i])
  }

  /** Drops the run of separators at the start of `s`. */
  function SkipSeparators(s: string): (r: string)
    ensures |r| <= |s| && r == s[|s| - |r|..]
    ensures forall i :: 0 <= i < |s| - |r| ==> IsSeparator(s[i])
    ensures r != [] ==> !IsSeparator(r[0])
    decreases |s|
  {
    if s != [] && IsSeparator(s[0]) then SkipSeparators(s[1..]) else s
  }

  /** Replaces each maximal run of separators in `title` by a single `-`. */
  function Slugify(title: string): (slug: string)
    ensures |slug| <= |title|
    ensures slug == [] <==> title == []
    ensures NoSeparators(slug)
    decreases |title|
  {
    if title == [] then []
    else if IsSeparator(title[0]) then "-" + Slugify(SkipSeparators(title))
    else [title[0]] + Slugify(title[1..])
  }

  /**
   Reference reading of the replacement, one character at a time: a
   separator that starts a run prints `-`, a separator inside a run prints
   nothing, any other character is copied.
   */
  function Collapse(s: string, inRun: bool): string
    decreases |s|
  {
    if s == [] then []
    else if IsSeparator(s[0]) then (if inRun then [] else "-") + Collapse(s[1..], true)
    else [s[0]] + Collapse(s[1..], false)
  }

  lemma {:induction false} CollapseInRun(s: string)
    ensures Collapse(s, true) == Collapse(SkipSeparators(s), false)
    decreases |s|
  {
    if s != [] && IsSeparator(s[0]) {
      CollapseInRun(s[1..]);
    }
  }

  /** Slugify agrees with the one-pass reading of the pattern replacement. */
  lemma {:induction false} SlugifyIsCollapse(title: string)
    ensures Slugify(title) == Collapse(title, false)
    decreases |title|
  {
    if title != [] {
      if IsSeparator(title[0]) {
        SlugifyIsCollapse(SkipSeparators(title));
        CollapseInRun(title[1..]);
      } else {
        SlugifyIsCollapse(title[1..]);
      }
    }
  }

  /** A title without separators is its own slug. */
  lemma {:induction false} SlugifyKeepsPlainTitle(title: string)
    requires NoSeparators(title)
    ensures Slugify(title) == title
    decreases |title|
  {
    if title != [] {
      SlugifyKeepsPlainTitle(title[1..]);
    }
  }

  /** Slugging a slug changes nothing. */
  lemma SlugifyIdempotent(title: string)
    ensures Slugify(Slugify(title)) == Slugify(title)
  {
    SlugifyKeepsPlainTitle(Slugify(title));
  }

  /** The characters of `s` that are neither separators nor `-`, in order. */
  function Kept(s: string): string
    decreases |s|
  {
    if s == [] then []
    else if IsSeparator(s[0]) || s[0] == '-' then Kept(s[1..])
    else [s[0]] + Kept(s[1..])
  }

  lemma {:induction false} KeptSkip(s: string)
    ensures Kept(SkipSeparators(s)) == Kept(s)
    decreases |s|
  {
    if s != [] && IsSeparator(s[0]) {
      KeptSkip(s[1..]);
    }
  }

  /** Slugging only inserts `-` and drops separators: every other character survives, in order. */
  lemma {:induction false} SlugifyKeepsText(title: string)
    ensures Kept(Slugify(title)) == Kept(title)
    decreases |title|
  {
    if title != [] {
      if IsSeparator(title[0]) {
        SlugifyKeepsText(SkipSeparators(title));
        KeptSkip(title);
        assert Slugify(title) == "-" + Slugify(SkipSeparators(title));
        assert ("-" + Slugify(SkipSeparators(title)))[1..] == Slugify(SkipSeparators(title));
      } else {
        SlugifyKeepsText(title[1..]);
        assert ([title[0]] + Slugify(title[1..]))[1..] == Slugify(title[1..]);
      }
    }
  }

  /** A separator-free prefix is copied into the slug unchanged. */
  lemma {:induction false} SlugifyPlainPrefix(a: string, b: string)
    requires NoSeparators(a)
    ensures Slugify(a + b) == a + Slugify(b)
    decreases |a|
  {
    if a != [] {
      var s := a + b;
      assert s[0] == a[0] && s[1..] == a[1..] + b;
      assert !IsSeparator(a[0]);
      SlugifyPlainPrefix(a[1..], b);
      assert Slugify(s) == [a[0]] + (a[1..] + Slugify(b));
      assert [a[0]] + (a[1..] + Slugify(b)) == ([a[0]] + a[1..]) + Slugify(b);
      assert a == [a[0]] + a[1..];
    } else {
      assert a + b == b;
    }
  }

  /** A whole run of separators, however long, becomes exactly one `-`. */
  lemma {:induction false} SlugifyRunPrefix(run: string, b: string)
    requires run != [] && forall i :: 0 <= i < |run| ==> IsSeparator(run[i])
    requires b != [] ==> !IsSeparator(b[0])
    ensures Slugify(run + b) == "-" + Slugify(b)
  {
    SkipRun(run, b);
  }

  lemma {:induction false} SkipRun(run: string, b: string)
    requires forall i :: 0 <= i < |run| ==> IsSeparator(run[i])
    requires b != [] ==> !IsSeparator(b[0])
    ensures SkipSeparators(run + b) == b
    decreases |run|
  {
    if run != [] {
      SkipRun(run[1..], b);
      assert (run + b)[1..] == run[1..] + b;
    } else {
      assert run + b == b;
    }
  }

  /** Words separated by runs: each word is copied and each run becomes one `-`. */
  lemma SlugifyThreeWords(w1: string, run1: string, w2: string, run2: string, w3: string)
    requires NoSeparators(w1) && NoSeparators(w2) && NoSeparators(w3)
    requires w2 != [] && w3 != []
    requires run1 != [] && forall i :: 0 <= i < |run1| ==> IsSeparator(run1[i])
    requires run2 != [] && forall i :: 0 <= i < |run2| ==> IsSeparator(run2[i])
    ensures Slugify(w1 + (run1 + (w2 + (run2 + w3)))) == w1 + ("-" + (w2 + ("-" + w3)))
  {
    SlugifyKeepsPlainTitle(w3);
    SlugifyRunPrefix(run2, w3);
    SlugifyPlainPrefix(w2, run2 + w3);
    assert (w2 + (run2 + w3))[0] == w2[0];
    SlugifyRunPrefix(run1, w2 + (run2 + w3));
    SlugifyPlainPrefix(w1, run1 + (w2 + (run2 + w3)));
  }

  /** Runs of spaces and a period followed by a space each become one hyphen. */
  lemma ExampleHelloWorld(title: string)
    requires title == "Hello   World. Two"
    ensures Slugify(title) == "Hello-World-Two"
  {
    HelloWorldPieces();
    SlugifyThreeWords("Hello", "   ", "World", ". ", "Two");
  }

  lemma HelloWorldPieces()
    ensures "Hello   World. Two" == "Hello" + ("   " + ("World" + (". " + "Two")))
    ensures "Hello" + ("-" + ("World" + ("-" + "Two"))) == "Hello-World-Two"
    ensures NoSeparators("Hello") && NoSeparators("World") && NoSeparators("Two")
    ensures forall i :: 0 <= i < |"   "| ==> IsSeparator("   "[i])
    ensures forall i :: 0 <= i < |". "| ==> IsSeparator(". "[i])
  {
  }
}
