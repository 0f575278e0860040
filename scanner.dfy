/**
 The heading pattern `titleRegex` of article.go, `^\s{0,2}(#{1,6})\s(.*)$`,
 written out as character predicates. Go's `.` does not match a newline and,
 without the multi-line flag, `^` and `$` anchor at the ends of the whole
 string. A match is a heading: its level is the number of `#` and its title is
 the rest of the line after the one whitespace separator, unchanged.
 */
module Scanner {
  import opened Wrappers
  import Text

  datatype Heading = Heading(level: nat, title: string)

  /** Length of the run of `\s` characters at the start of `s`. */
  function LeadingSpaces(s: string): (k: nat)
    ensures k <= |s|
    ensures forall i :: 0 <= i < k ==> Text.IsSpace(s[i])
    ensures k < |s| ==> !Text.IsSpace(s[k])
    decreases |s|
  {
    if s != [] && Text.IsSpace(s[0]) then 1 + LeadingSpaces(s[1..]) else 0
  }

  /** Length of the run of `#` characters at the start of `s`. */
  function LeadingHashes(s: string): (k: nat)
    ensures k <= |s|
    ensures forall i :: 0 <= i < k ==> s[i] == '#'
    ensures k < |s| ==> s[k] != '#'
    decreases |s|
  {
    if s != [] && s[0] == '#' then 1 + LeadingHashes(s[1..]) else 0
  }

  /**
   The regular expression matches `line` with `k` leading whitespace
   characters and `h` hashes: `\s{0,2}` takes line[..k], `(#{1,6})` takes
   line[k..k+h], `\s` takes line[k+h] and `(.*)$` takes the rest, which must
   hold no newline.
   */
  ghost predicate MatchesAt(line: string, k: nat, h: nat) {
    && k <= 2
    && 1 <= h <= 6
    && k + h < |line|
    && (forall i :: 0 <= i < k ==> Text.IsSpace(line[i]))
    && (forall i :: k <= i < k + h ==> line[i] == '#')
    && Text.IsSpace(line[k + h])
    && '\n' !in line[k + h + 1..]
  }

  /** `titleRegex.FindStringSubmatch(line)`, reduced to the level and the title group. */
  function ParseHeading(line: string): Option<Heading> {
    var k := LeadingSpaces(line);
    if k > 2 then None
    else
      var h := LeadingHashes(line[k..]);
      if h < 1 || h > 6 || k + h >= |line| || !Text.IsSpace(line[k + h]) || '\n' in line[k + h + 1..]
      then None
      else Some(Heading(h, line[k + h + 1..]))
  }

  /** The pattern can match a line in at most one way, so its groups are determined. */
  lemma MatchUnique(line: string, k1: nat, h1: nat, k2: nat, h2: nat)
    requires MatchesAt(line, k1, h1) && MatchesAt(line, k2, h2)
    ensures k1 == k2 && h1 == h2
  {
    assert line[k1] == '#' && line[k2] == '#';
    assert line[k1 + h1] != '#' && line[k2 + h2] != '#';
  }

  /** Whenever the pattern matches, the scanner reports that match's level and title. */
  lemma MatchIsParsed(line: string, k: nat, h: nat)
    requires MatchesAt(line, k, h)
    ensures ParseHeading(line) == Some(Heading(h, line[k + h + 1..]))
  {
    assert line[k] == '#';
    assert LeadingSpaces(line) == k;
    var rest := line[k..];
    assert rest[h] == line[k + h];
    assert forall i :: 0 <= i < h ==> rest[i] == line[k + i];
    assert LeadingHashes(rest) == h;
  }

  /** What the scanner reports is a match of the pattern. */
  lemma ParsedIsMatch(line: string)
    requires ParseHeading(line).Some?
    ensures var k := LeadingSpaces(line);
            k <= 2 && MatchesAt(line, k, LeadingHashes(line[k..])) &&
            ParseHeading(line).value == Heading(LeadingHashes(line[k..]), line[k + LeadingHashes(line[k..]) + 1..])
  {
    var k := LeadingSpaces(line);
    var h := LeadingHashes(line[k..]);
    assert forall i :: k <= i < k + h ==> line[i] == line[k..][i - k];
  }

  /**
   A line is a heading exactly when the pattern matches it, and then the
   level is the number of `#` and the title is the rest of the line.
   */
  lemma ParseHeadingMatches(line: string, hd: Heading)
    ensures ParseHeading(line) == Some(hd) <==>
              exists k: nat, h: nat :: MatchesAt(line, k, h) && hd == Heading(h, line[k + h + 1..])
  {
    if ParseHeading(line) == Some(hd) {
      ParsedIsMatch(line);
      var k := LeadingSpaces(line);
      var h := LeadingHashes(line[k..]);
      assert MatchesAt(line, k, h) && hd == Heading(h, line[k + h + 1..]);
    } else {
      forall k: nat, h: nat | MatchesAt(line, k, h)
        ensures hd != Heading(h, line[k + h + 1..])
      {
        MatchIsParsed(line, k, h);
      }
    }
  }

  /** No heading when the first three characters are whitespace. */
  lemma IndentedThreeIsNotHeading(line: string)
    requires |line| >= 3 && Text.IsSpace(line[0]) && Text.IsSpace(line[1]) && Text.IsSpace(line[2])
    ensures ParseHeading(line) == None
  {
    assert line[1..][0] == line[1] && line[1..][1..][0] == line[2];
  }

  /** No heading when the hash run after the indentation is seven or longer. */
  lemma SevenHashesIsNotHeading(line: string, k: nat)
    requires k + 7 <= |line|
    requires forall i :: 0 <= i < k ==> Text.IsSpace(line[i])
    requires forall i :: k <= i < k + 7 ==> line[i] == '#'
    ensures ParseHeading(line) == None
  {
    assert line[k] == '#';
    assert LeadingSpaces(line) == k;
    assert forall i :: 0 <= i < 7 ==> line[k..][i] == '#';
  }

  /** No heading when the hash run is not followed by a whitespace character. */
  lemma NoSeparatorIsNotHeading(line: string)
    requires var k := LeadingSpaces(line);
             var h := LeadingHashes(line[k..]);
             k + h == |line| || !Text.IsSpace(line[k + h])
    ensures ParseHeading(line) == None
  {
  }

  /** `strings.Split(content, "\n")` followed by the headings among the lines, in order. */
  function Headings(lines: seq<string>): (hs: seq<Heading>)
    ensures |hs| <= |lines|
    decreases |lines|
  {
    if lines == [] then []
    else
      var prefix := Headings(lines[..|lines| - 1]);
      match ParseHeading(lines[|lines| - 1])
      case None => prefix
      case Some(h) => prefix + [h]
  }

  /** One more line adds its heading, if it is one, after the headings found so far. */
  lemma HeadingsSnoc(lines: seq<string>, line: string)
    ensures Headings(lines + [line]) ==
              Headings(lines) + (if ParseHeading(line).Some? then [ParseHeading(line).value] else [])
  {
    assert (lines + [line])[..|lines|] == lines;
  }

  /** Every heading the scanner yields has a level from 1 to 6. */
  lemma {:induction false} HeadingLevels(lines: seq<string>)
    ensures forall i :: 0 <= i < |Headings(lines)| ==> 1 <= Headings(lines)[i].level <= 6
    decreases |lines|
  {
    if lines != [] {
      HeadingLevels(lines[..|lines| - 1]);
    }
  }

  /** A text without heading lines yields no heading at all. */
  lemma {:induction false} NoHeadingLines(lines: seq<string>)
    requires forall i :: 0 <= i < |lines| ==> ParseHeading(lines[i]) == None
    ensures Headings(lines) == []
    decreases |lines|
  {
    if lines != [] {
      NoHeadingLines(lines[..|lines| - 1]);
    }
  }

  /** The line `"## B"` is a level-2 heading titled `"B"`. */
  lemma ExampleLevelTwo()
    ensures ParseHeading("## B") == Some(Heading(2, "B"))
  {
    assert LeadingSpaces("## B") == 0;
    assert LeadingHashes("## B"[1..][1..]) == 0;
    assert LeadingHashes("## B") == 2;
  }
}
