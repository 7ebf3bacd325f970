/**
 * Ordinal string primitives shared by the models: digit checks, searching,
 * .NET-style replace-all, joining, and decimal and hexadecimal spelling.
 * Strings are sequences of characters; every comparison is ordinal.
 */
module Text {
  import opened Wrappers

  predicate IsDigit(c: char) {
    '0' <= c <= '9'
  }

  function DigitValue(c: char): (d: nat)
    requires IsDigit(c)
    ensures d < 10
  {
    (c as int) - ('0' as int)
  }

  function DigitChar(d: nat): (c: char)
    requires d < 10
    ensures IsDigit(c) && DigitValue(c) == d
  {
    (('0' as int) + d) as char
  }

  predicate AllDigits(s: string) {
    forall k :: 0 <= k < |s| ==> IsDigit(s[k])
  }

  predicate StartsWith(s: string, w: string) {
    |w| <= |s| && s[..|w|] == w
  }

  /** `p` occurs in `s` starting at position `i`. */
  predicate OccursAt(s: string, p: string, i: nat) {
    i + |p| <= |s| && s[i..i + |p|] == p
  }

  /**
   * Position of the first occurrence of `p` in `s` at or after `from`, as
   * `std::string::find(p, from)` and .NET's ordinal `IndexOf(p, from)` give it.
   */
  function FindFrom(s: string, p: string, from: nat): (r: Option<nat>)
    decreases |s| - from
    ensures r.Some? ==> from <= r.value && OccursAt(s, p, r.value)
    ensures r.Some? ==> forall k :: from <= k < r.value ==> !OccursAt(s, p, k)
    ensures r.None? ==> forall k :: from <= k ==> !OccursAt(s, p, k)
  {
    if |s| < from + |p| then None
    else if OccursAt(s, p, from) then Some(from)
    else FindFrom(s, p, from + 1)
  }

  /** `s.Contains(p)` / `s.find(p) != npos`. */
  predicate Contains(s: string, p: string) {
    FindFrom(s, p, 0).Some?
  }

  lemma ContainsWitness(s: string, p: string, i: nat)
    requires OccursAt(s, p, i)
    ensures Contains(s, p)
  {
  }

  /**
   * .NET `string.Replace(oldValue, newValue)`: every non-overlapping
   * occurrence of `p`, found from left to right, is replaced by `rep`.
   */
  function ReplaceAll(s: string, p: string, rep: string): (r: string)
    requires |p| > 0
    decreases |s|
  {
    if |s| < |p| then s
    else if s[..|p|] == p then rep + ReplaceAll(s[|p|..], p, rep)
    else [s[0]] + ReplaceAll(s[1..], p, rep)
  }

  /** Text that never holds the pattern's first character is left alone. */
  lemma {:induction false} ReplaceAllWithoutFirst(s: string, p: string, rep: string)
    requires |p| > 0 && p[0] !in s
    ensures ReplaceAll(s, p, rep) == s
    decreases |s|
  {
    if |s| >= |p| {
      assert s[..|p|][0] == s[0];
      assert s[1..] == s[1..];
      ReplaceAllWithoutFirst(s[1..], p, rep);
      assert s == [s[0]] + s[1..];
    }
  }

  /** A pattern whose first character never occurs is never found. */
  lemma {:induction false} NotFoundWithoutFirst(s: string, p: string, from: nat)
    requires |p| > 0 && p[0] !in s
    ensures FindFrom(s, p, from) == None
    decreases |s| - from
  {
    if from + |p| <= |s| {
      assert s[from..from + |p|][0] == s[from];
      NotFoundWithoutFirst(s, p, from + 1);
    }
  }

  /** A pattern with a character the text never holds is never found. */
  lemma AbsentCharNotFound(s: string, p: string, j: nat, from: nat)
    requires j < |p| && p[j] !in s
    ensures FindFrom(s, p, from) == None
  {
    forall k: nat
      ensures !OccursAt(s, p, k)
    {
      if k + |p| <= |s| {
        assert s[k..k + |p|][j] == s[k + j];
      }
    }
  }

  /** Text that does not hold the pattern is left alone. */
  lemma {:induction false} ReplaceAllNotFound(s: string, p: string, rep: string)
    requires |p| > 0 && !Contains(s, p)
    ensures ReplaceAll(s, p, rep) == s
    decreases |s|
  {
    if |s| >= |p| {
      assert !OccursAt(s, p, 0);
      assert s[..|p|] != p;
      assert !Contains(s[1..], p) by {
        var r := FindFrom(s[1..], p, 0);
        if r.Some? {
          var k := r.value;
          assert s[1..][k..k + |p|] == s[k + 1..k + 1 + |p|];
          assert OccursAt(s, p, k + 1);
          assert false;
        }
      }
      ReplaceAllNotFound(s[1..], p, rep);
      assert s == [s[0]] + s[1..];
    }
  }

  /** An occurrence at the front is replaced, and the rest follows. */
  lemma ReplaceAllHead(p: string, x: string, rep: string)
    requires |p| > 0
    ensures ReplaceAll(p + x, p, rep) == rep + ReplaceAll(x, p, rep)
  {
    assert (p + x)[..|p|] == p;
    assert (p + x)[|p|..] == x;
  }

  /** A character that cannot start the pattern is kept. */
  lemma ReplaceAllSkip(c: char, x: string, p: string, rep: string)
    requires |p| > 0 && c != p[0]
    ensures ReplaceAll([c] + x, p, rep) == [c] + ReplaceAll(x, p, rep)
  {
    if |[c] + x| >= |p| {
      assert ([c] + x)[..|p|][0] == c;
    }
    assert ([c] + x)[1..] == x;
  }

  /** Two occurrences around a character that cannot start the pattern are both replaced. */
  lemma ReplaceAroundChar(p: string, c: char, rep: string)
    requires |p| > 0 && c != p[0]
    ensures ReplaceAll(p + [c] + p, p, rep) == rep + [c] + rep
  {
    var x := [c] + p;
    assert p + [c] + p == p + x;
    ReplaceAllHead(p, x, rep);
    ReplaceAllSkip(c, p, p, rep);
    assert p == p + [];
    ReplaceAllHead(p, [], rep);
    assert ReplaceAll([], p, rep) == [];
  }

  /** A replacement that is never longer than the pattern never lengthens the text. */
  lemma {:induction false} ReplaceAllNotLonger(s: string, p: string, rep: string)
    requires |p| > 0 && |rep| <= |p|
    ensures |ReplaceAll(s, p, rep)| <= |s|
    decreases |s|
  {
    if |s| < |p| {
    } else if s[..|p|] == p {
      ReplaceAllNotLonger(s[|p|..], p, rep);
    } else {
      ReplaceAllNotLonger(s[1..], p, rep);
    }
  }

  /** `string.Join(sep, xs)`. */
  function Join(xs: seq<string>, sep: string): string
    decreases |xs|
  {
    if |xs| == 0 then ""
    else if |xs| == 1 then xs[0]
    else Join(xs[..|xs| - 1], sep) + sep + xs[|xs| - 1]
  }

  lemma JoinSnoc(xs: seq<string>, x: string, sep: string)
    ensures Join(xs + [x], sep) == if |xs| == 0 then x else Join(xs, sep) + sep + x
  {
    assert (xs + [x])[..|xs|] == xs;
  }

  /** Decimal spelling of a natural number, as `operator<<` on a stream prints an `int`. */
  function DecimalString(n: nat): (s: string)
    ensures |s| > 0 && AllDigits(s)
  {
    if n < 10 then [DigitChar(n)] else DecimalString(n / 10) + [DigitChar(n % 10)]
  }

  /** The standard decimal value of a run of digits, most significant first. */
  function DecimalValue(s: string): nat
    requires AllDigits(s)
    decreases |s|
  {
    if |s| == 0 then 0 else 10 * DecimalValue(s[..|s| - 1]) + DigitValue(s[|s| - 1])
  }

  lemma {:induction false} DecimalRoundTrip(n: nat)
    ensures DecimalValue(DecimalString(n)) == n
  {
    if n >= 10 {
      DecimalRoundTrip(n / 10);
      var s := DecimalString(n);
      assert s[..|s| - 1] == DecimalString(n / 10);
    }
  }

  /** An upper-case hexadecimal digit. */
  predicate IsHexDigit(c: char) {
    '0' <= c <= '9' || 'A' <= c <= 'F'
  }

  /** The upper-case digit of a value below sixteen. */
  function HexDigit(d: nat): (c: char)
    requires d < 16
    ensures IsHexDigit(c)
  {
    if d < 10 then ('0' as int + d) as char else ('A' as int + d - 10) as char
  }

  /** Upper-case hexadecimal spelling with no leading zeros. */
  function HexString(n: nat): (s: string)
    ensures |s| > 0
    ensures forall k :: 0 <= k < |s| ==> IsHexDigit(s[k])
    ensures n >= 16 ==> |s| >= 2
  {
    if n < 16 then [HexDigit(n)] else HexString(n / 16) + [HexDigit(n % 16)]
  }
}
