/**
 The `fmt.Sprintf` verbs the article code uses: `%d` on an unsigned integer
 (plain decimal digits, no sign, no padding) and the search-index key
 `"%d.%d"` built from an identifier and a version.
 */
module Format {
  import opened Wrappers
  import Text

  predicate IsDigit(c: char) {
    '0' <= c <= '9'
  }

  predicate AllDigits(s: string) {
    forall i :: 0 <= i < |s| ==> IsDigit(s[i])
  }

  function DigitChar(d: nat): (c: char)
    requires d < 10
    ensures IsDigit(c)
  {
    "0123456789"[d]
  }

  function DigitValue(c: char): (d: nat)
    requires IsDigit(c)
    ensures d < 10
  {
    c as int - '0' as int
  }

  /** `%d` of an unsigned value: most significant digit first. */
  function Decimal(n: nat): (r: string)
    ensures r != [] && AllDigits(r)
    ensures r[0] == '0' ==> n == 0
    decreases n
  {
    if n < 10 then [DigitChar(n)] else Decimal(n / 10) + [DigitChar(n % 10)]
  }

  /** Reads a string of decimal digits back as a number; the partner of Decimal. */
  function DecimalValue(s: string): nat
    requires AllDigits(s)
    decreases |s|
  {
    if s == [] then 0 else 10 * DecimalValue(s[..|s| - 1]) + DigitValue(s[|s| - 1])
  }

  /** Reading back what `%d` printed gives the number that was printed. */
  lemma {:induction false} DecimalRoundTrip(n: nat)
    ensures DecimalValue(Decimal(n)) == n
    decreases n
  {
    if n >= 10 {
      DecimalRoundTrip(n / 10);
      var s := Decimal(n);
      assert s[..|s| - 1] == Decimal(n / 10);
    }
  }

  /** Different numbers print differently. */
  lemma DecimalInjective(m: nat, n: nat)
    requires Decimal(m) == Decimal(n)
    ensures m == n
  {
    DecimalRoundTrip(m);
    DecimalRoundTrip(n);
  }

  /** The search-index key `"%d.%d"` of an identifier and a version. */
  function IndexID(id: nat, version: nat): string {
    Decimal(id) + "." + Decimal(version)
  }

  /** Splits a key at its one `.` and reads both halves; None for anything IndexID cannot produce. */
  function ParseIndexID(s: string): Option<(nat, nat)> {
    var parts := Text.Split(s, '.');
    if |parts| == 2 && parts[0] != [] && parts[1] != [] && AllDigits(parts[0]) && AllDigits(parts[1])
    then Some((DecimalValue(parts[0]), DecimalValue(parts[1])))
    else None
  }

  /** A key holds exactly one `.`, and every other character is a decimal digit. */
  lemma IndexIDShape(id: nat, version: nat)
    ensures var r := IndexID(id, version);
            multiset(r)['.'] == 1 &&
            forall i :: 0 <= i < |r| && r[i] != '.' ==> IsDigit(r[i])
  {
    var a, b := Decimal(id), Decimal(version);
    assert forall i :: 0 <= i < |a| ==> a[i] != '.';
    assert forall i :: 0 <= i < |b| ==> b[i] != '.';
    assert '.' !in a && '.' !in b;
    assert multiset(a + "." + b) == multiset(a) + multiset(".") + multiset(b);
  }

  /** Two digit strings joined by a `.` split back into the two strings. */
  lemma SplitAtDot(a: string, b: string)
    requires AllDigits(a) && AllDigits(b)
    ensures Text.Split(a + "." + b, '.') == [a, b]
  {
    assert forall i :: 0 <= i < |a| ==> a[i] != '.';
    assert forall i :: 0 <= i < |b| ==> b[i] != '.';
    Text.SplitAfterPiece(a, '.', b);
    Text.SplitNoSeparator(b, '.');
  }

  /** Splitting a key at its `.` recovers the identifier and the version. */
  lemma IndexIDRoundTrip(id: nat, version: nat)
    ensures ParseIndexID(IndexID(id, version)) == Some((id, version))
  {
    SplitAtDot(Decimal(id), Decimal(version));
    DecimalRoundTrip(id);
    DecimalRoundTrip(version);
  }

  /** Distinct (identifier, version) pairs never share a key. */
  lemma IndexIDInjective(id1: nat, v1: nat, id2: nat, v2: nat)
    requires IndexID(id1, v1) == IndexID(id2, v2)
    ensures id1 == id2 && v1 == v2
  {
    IndexIDRoundTrip(id1, v1);
    IndexIDRoundTrip(id2, v2);
  }
}
