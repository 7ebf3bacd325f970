/**
 * The Irony terminal StringWithLengthLiteral: a source name written as a
 * decimal length followed by exactly that many characters.  Irony's source
 * stream is reduced to its text and its two cursors; the parsing context
 * only makes tokens.
 */
module LengthLiteral {
  import opened Wrappers
  import opened Text

  /** The end of the run of digits that starts at `p` (`p` itself when there is none). */
  function RunEnd(text: string, p: nat): (e: nat)
    decreases |text| - p
    ensures p <= e
    ensures p <= |text| ==> e <= |text| && AllDigits(text[p..e])
    ensures e < |text| ==> !IsDigit(text[e])
  {
    if p >= |text| || !IsDigit(text[p]) then p else RunEnd(text, p + 1)
  }

  /**
   * GetLength: the decimal value of the digits at `p`, refused when it is
   * zero (which covers "no digits") or when that many characters do not
   * follow the digits.
   */
  function LengthAt(text: string, p: nat): (r: Option<nat>)
  {
    if p > |text| then None
    else
      var e := RunEnd(text, p);
      var length := DecimalValue(text[p..e]);
      if length == 0 || e + length > |text| then None else Some(length)
  }

  /** The token a terminal hands back to the parser. */
  datatype Token =
    | ErrorToken(message: string)
    | LiteralToken(terminal: string, text: string)

  /** The part of Irony's ISourceStream the terminal touches. */
  class SourceStream {
    const text: string
    /** Start of the token being scanned. */
    var position: nat
    /** How far the scanner has looked ahead. */
    var previewPosition: nat

    constructor (text: string, position: nat)
      ensures this.text == text && this.position == position && previewPosition == position
    {
      this.text := text;
      this.position := position;
      this.previewPosition := position;
    }

    predicate EOF()
      reads this
    {
      previewPosition >= |text|
    }
  }

  class StringWithLengthLiteral {
    const name: string

    constructor (name: string)
      ensures this.name == name
    {
      this.name := name;
    }

    /**
     * GetLength: the preview cursor runs over the digits, accumulating
     * length*10 + digit, and stays at the first non-digit even when the
     * length is then refused.
     */
    method GetLength(source: SourceStream) returns (r: Option<nat>)
      modifies source
      ensures source.position == old(source.position)
      ensures source.previewPosition == RunEnd(source.text, old(source.previewPosition))
      ensures r == LengthAt(source.text, old(source.previewPosition))
    {
      var length: nat := 0;
      while !source.EOF() && IsDigit(source.text[source.previewPosition])
        invariant source.position == old(source.position)
        invariant old(source.previewPosition) <= source.previewPosition
        invariant old(source.previewPosition) <= |source.text| ==> source.previewPosition <= |source.text|
        invariant source.previewPosition > old(source.previewPosition) ==>
          old(source.previewPosition) <= |source.text| && AllDigits(source.text[old(source.previewPosition)..source.previewPosition])
        invariant RunEnd(source.text, source.previewPosition) == RunEnd(source.text, old(source.previewPosition))
        invariant old(source.previewPosition) <= |source.text| ==>
          length == DecimalValue(source.text[old(source.previewPosition)..source.previewPosition])
        invariant old(source.previewPosition) > |source.text| ==> length == 0
        decreases |source.text| - source.previewPosition
      {
        var start := old(source.previewPosition);
        var run := source.text[start..source.previewPosition + 1];
        assert run[..|run| - 1] == source.text[start..source.previewPosition];
        length := length * 10 + DigitValue(source.text[source.previewPosition]);
        source.previewPosition := source.previewPosition + 1;
      }
      if length == 0 || source.previewPosition + length > |source.text| {
        return None;
      }
      return Some(length);
    }

    /**
     * TryMatch: on a refused length an error token and no further move;
     * otherwise the token starts after the digits and the preview cursor
     * moves over exactly `length` characters.
     */
    method TryMatch(source: SourceStream) returns (t: Token)
      modifies source
      ensures var e := RunEnd(source.text, old(source.previewPosition));
        match LengthAt(source.text, old(source.previewPosition))
        case None =>
          && t == ErrorToken("invalid StringWithLengthLiteral")
          && source.position == old(source.position)
          && source.previewPosition == e
        case Some(length) =>
          && source.position == e
          && source.previewPosition == e + length <= |source.text|
          && t == LiteralToken(name, source.text[e..e + length])
    {
      var length := GetLength(source);
      if length.None? {
        return ErrorToken("invalid StringWithLengthLiteral");
      }
      source.position := source.previewPosition;
      source.previewPosition := source.previewPosition + length.value;
      t := LiteralToken(name, source.text[source.position..source.previewPosition]);
    }
  }

  /** The digit run ends exactly where a run of digits followed by a non-digit (or the end) ends. */
  lemma {:induction false} RunEndOverDigits(text: string, p: nat, d: string)
    requires AllDigits(d) && OccursAt(text, d, p)
    requires p + |d| < |text| ==> !IsDigit(text[p + |d|])
    ensures RunEnd(text, p) == p + |d|
    decreases |d|
  {
    if |d| > 0 {
      assert text[p] == text[p..p + |d|][0];
      assert OccursAt(text, d[1..], p + 1) by {
        assert text[p + 1..p + 1 + |d[1..]|] == text[p..p + |d|][1..];
      }
      RunEndOverDigits(text, p + 1, d[1..]);
    }
  }

  /**
   * The decimal spelling of a positive length, followed by that many
   * characters that do not start with a digit, is read back as that length
   * and its token is exactly those characters.
   */
  lemma LengthRoundTrip(n: nat, payload: string, rest: string)
    requires n > 0 && |payload| == n && !IsDigit(payload[0])
    ensures var text := DecimalString(n) + payload + rest;
      && RunEnd(text, 0) == |DecimalString(n)|
      && LengthAt(text, 0) == Some(n)
      && text[|DecimalString(n)|..|DecimalString(n)| + n] == payload
  {
    var d := DecimalString(n);
    var text := d + payload + rest;
    assert text[0..|d|] == d;
    assert text[|d|] == payload[0];
    RunEndOverDigits(text, 0, d);
    DecimalRoundTrip(n);
    assert text[|d|..|d| + n] == payload;
  }

  /** Without a leading digit there is no length, and the literal is refused. */
  lemma NoDigitsRefused(text: string, p: nat)
    requires p < |text| ==> !IsDigit(text[p])
    ensures RunEnd(text, p) == p && LengthAt(text, p) == None
  {
    if p <= |text| {
      assert text[p..p] == "";
    }
  }

  /** An all-zero length such as "0" or "00" is refused even when characters follow. */
  lemma ZeroLengthRefused(text: string, p: nat, zeros: nat)
    requires zeros > 0 && p + zeros <= |text|
    requires forall k :: p <= k < p + zeros ==> text[k] == '0'
    requires p + zeros < |text| ==> !IsDigit(text[p + zeros])
    ensures LengthAt(text, p) == None
  {
    var d := text[p..p + zeros];
    RunEndOverDigits(text, p, d);
    AllZerosValue(d);
  }

  lemma {:induction false} AllZerosValue(d: string)
    requires forall k :: 0 <= k < |d| ==> d[k] == '0'
    ensures AllDigits(d) && DecimalValue(d) == 0
    decreases |d|
  {
    if |d| > 0 {
      AllZerosValue(d[..|d| - 1]);
    }
  }

  /** Leading zeros do not change the length that is read. */
  lemma {:induction false} LeadingZeroIgnored(d: string)
    requires AllDigits(d)
    ensures AllDigits("0" + d) && DecimalValue("0" + d) == DecimalValue(d)
    decreases |d|
  {
    if |d| > 0 {
      var x := d[..|d| - 1];
      assert ("0" + d)[..|"0" + d| - 1] == "0" + x;
      LeadingZeroIgnored(x);
    }
  }

  /** The literal reads "10" as ten: a ten-character payload is accepted whole. */
  lemma TenIsTen()
    ensures LengthAt("10abcdefghij", 0) == Some(10)
  {
    LengthRoundTrip(10, "abcdefghij", "");
    assert DecimalString(10) == "10";
    assert "10" + "abcdefghij" + "" == "10abcdefghij";
  }
}
