/**
 * The string helpers of the C++ tokenizer as functions: `ReplaceInPlace`
 * (which overwrites as many characters as the replacement has, not as many
 * as the pattern has), `ToHex`, and `Sanitize`, whose operator loop never
 * moves its search position.
 */
module CppStrings {
  import opened Wrappers
  import opened Text
  import opened OperatorCount
  import opened SymbolTokens

  /**
   * `s.replace(i, |w|, w)`, one character at a time: each character of `w`
   * takes the place of the one at its position, or is appended once the
   * text has run out.
   */
  function Overwrite(s: string, i: nat, w: string): (r: string)
    requires i <= |s|
    ensures |r| == if i + |w| <= |s| then |s| else i + |w|
    decreases |w|
  {
    if |w| == 0 then s
    else if i < |s| then Overwrite(s[i := w[0]], i + 1, w[1..])
    else Overwrite(s + [w[0]], i + 1, w[1..])
  }

  /** The |w| characters at `i`, or all that remain, give way to `w`. */
  lemma {:induction false} OverwriteSplices(s: string, i: nat, w: string)
    requires i <= |s|
    ensures Overwrite(s, i, w) == if i + |w| <= |s| then s[..i] + w + s[i + |w|..] else s[..i] + w
    decreases |w|
  {
    if |w| > 0 {
      var t := if i < |s| then s[i := w[0]] else s + [w[0]];
      OverwriteSplices(t, i + 1, w[1..]);
      assert t[..i + 1] == s[..i] + [w[0]];
      assert [w[0]] + w[1..] == w;
      if i + |w| <= |s| {
        assert t[i + 1 + |w[1..]|..] == s[i + |w|..];
      }
    }
  }

  /**
   * The loop of `ReplaceInPlace` from search position `index`, one position
   * at a time: a match is overwritten and the search resumes after the new
   * text; elsewhere it moves on by one.
   */
  function ReplaceInPlaceFrom(s: string, oldValue: string, newValue: string, index: nat): string
    requires |oldValue| > 0 && |newValue| > 0
    decreases |s| - index
  {
    if |s| < index + |oldValue| then s
    else if OccursAt(s, oldValue, index) then ReplaceInPlaceFrom(Overwrite(s, index, newValue), oldValue, newValue, index + |newValue|)
    else ReplaceInPlaceFrom(s, oldValue, newValue, index + 1)
  }

  /**
   * The loop seen through `find`: with no match from `index` the text is
   * left as it is; otherwise the first match is overwritten and the loop
   * goes on after the new text.
   */
  lemma {:induction false} ReplaceInPlaceFound(s: string, oldValue: string, newValue: string, index: nat)
    requires |oldValue| > 0 && |newValue| > 0
    ensures FindFrom(s, oldValue, index).None? ==> ReplaceInPlaceFrom(s, oldValue, newValue, index) == s
    ensures FindFrom(s, oldValue, index).Some? ==>
      var i := FindFrom(s, oldValue, index).value;
      ReplaceInPlaceFrom(s, oldValue, newValue, index)
        == ReplaceInPlaceFrom(Overwrite(s, i, newValue), oldValue, newValue, i + |newValue|)
    decreases |s| - index
  {
    if index + |oldValue| <= |s| && !OccursAt(s, oldValue, index) {
      ReplaceInPlaceFound(s, oldValue, newValue, index + 1);
    }
  }

  /** A replacement no longer than the pattern leaves the length alone. */
  lemma {:induction false} ReplaceInPlaceKeepsLength(s: string, oldValue: string, newValue: string, index: nat)
    requires 0 < |newValue| <= |oldValue|
    ensures |ReplaceInPlaceFrom(s, oldValue, newValue, index)| == |s|
    decreases |s| - index
  {
    if index + |oldValue| <= |s| {
      if OccursAt(s, oldValue, index) {
        ReplaceInPlaceKeepsLength(Overwrite(s, index, newValue), oldValue, newValue, index + |newValue|);
      } else {
        ReplaceInPlaceKeepsLength(s, oldValue, newValue, index + 1);
      }
    }
  }

  /**
   * A replacement that is a prefix of the pattern rewrites each match with
   * the characters already there: `", "` to `","` changes nothing.
   */
  lemma {:induction false} ReplaceInPlacePrefixIsNoOp(s: string, oldValue: string, newValue: string, index: nat)
    requires 0 < |newValue| <= |oldValue| && oldValue[..|newValue|] == newValue
    ensures ReplaceInPlaceFrom(s, oldValue, newValue, index) == s
    decreases |s| - index
  {
    if index + |oldValue| <= |s| {
      if OccursAt(s, oldValue, index) {
        assert Overwrite(s, index, newValue) == s by {
          OverwriteSplices(s, index, newValue);
          assert s[index..index + |newValue|] == s[index..index + |oldValue|][..|newValue|];
          assert s == s[..index] + s[index..index + |newValue|] + s[index + |newValue|..];
        }
        ReplaceInPlacePrefixIsNoOp(s, oldValue, newValue, index + |newValue|);
      } else {
        ReplaceInPlacePrefixIsNoOp(s, oldValue, newValue, index + 1);
      }
    }
  }

  lemma CommaSpaceIsNoOp(s: string)
    ensures ReplaceInPlaceFrom(s, ", ", ",", 0) == s
  {
    ReplaceInPlacePrefixIsNoOp(s, ", ", ",", 0);
  }

  /** Only seven characters of "operator()" are overwritten: three stay behind. */
  lemma OverwriteLeavesTail()
    ensures ReplaceInPlaceFrom("operator()", "operator()", "op#2829", 0) == "op#2829r()"
  {
    var s := "operator()";
    assert OccursAt(s, "operator()", 0);
    OverwriteSplices(s, 0, "op#2829");
  }

  /**
   * Overwriting resumes after the new text, so "> > >" is rewritten twice
   * (to ">>>>>"), where .NET's `Replace` gives ">> >".
   */
  lemma ReplaceInPlaceAgainstReplace()
    ensures ReplaceInPlaceFrom("> > >", "> >", ">>", 0) == ">>>>>"
    ensures ReplaceAll("> > >", "> >", ">>") == ">> >"
  {
    var s := "> > >";
    assert OccursAt(s, "> >", 0);
    var t := Overwrite(s, 0, ">>");
    OverwriteSplices(s, 0, ">>");
    assert t == ">>> >";
    assert OccursAt(t, "> >", 2);
    OverwriteSplices(t, 2, ">>");
    assert s[..3] == "> >";
    assert s[3..] == " >";
    assert ReplaceAll(" >", "> >", ">>") == " >";
  }

  /** The byte a `char` of a `std::string` holds, read as `unsigned char`. */
  function Byte(c: char): nat {
    (c as int) % 256
  }

  /** `ToHex`: each byte as two upper-case hexadecimal digits. */
  function Hex(s: string): (r: string)
    ensures |r| == 2 * |s|
    ensures forall k :: 0 <= k < |r| ==> IsHexDigit(r[k])
  {
    if |s| == 0 then ""
    else
      var b := Byte(s[|s| - 1]);
      HexDigitValue(b / 16);
      HexDigitValue(b % 16);
      Hex(s[..|s| - 1]) + [HexDigit(b / 16), HexDigit(b % 16)]
  }

  /** Byte `k` becomes the digits at `2k` and `2k + 1`, high nibble first. */
  lemma {:induction false} HexDigitsAt(s: string, k: nat)
    requires k < |s|
    ensures Hex(s)[2 * k] == HexDigit(Byte(s[k]) / 16)
    ensures Hex(s)[2 * k + 1] == HexDigit(Byte(s[k]) % 16)
    decreases |s|
  {
    var prefix := s[..|s| - 1];
    if k < |s| - 1 {
      HexDigitsAt(prefix, k);
      assert prefix[k] == s[k];
    }
  }

  /** The value of an upper-case hexadecimal digit (0 for any other character). */
  function HexValue(c: char): nat {
    if '0' <= c <= '9' then (c as int) - ('0' as int)
    else if 'A' <= c <= 'F' then (c as int) - ('A' as int) + 10
    else 0
  }

  lemma HexDigitValue(d: nat)
    requires d < 16
    ensures IsHexDigit(HexDigit(d)) && HexValue(HexDigit(d)) == d
  {
  }

  /** Reading digit pairs back as bytes, high nibble first; a lone last digit is dropped. */
  function Unhex(h: string): (bytes: seq<nat>)
    decreases |h|
  {
    if |h| < 2 then []
    else Unhex(h[..|h| - 2]) + [16 * HexValue(h[|h| - 2]) + HexValue(h[|h| - 1])]
  }

  function Bytes(s: string): (bytes: seq<nat>)
    ensures |bytes| == |s|
    ensures forall k :: 0 <= k < |s| ==> bytes[k] == Byte(s[k])
  {
    if |s| == 0 then [] else Bytes(s[..|s| - 1]) + [Byte(s[|s| - 1])]
  }

  /** Two more digits read as one more byte. */
  lemma UnhexAppend(h: string, hi: char, lo: char)
    ensures Unhex(h + [hi, lo]) == Unhex(h) + [16 * HexValue(hi) + HexValue(lo)]
  {
    var g := h + [hi, lo];
    assert g[..|g| - 2] == h;
  }

  /** The two digits of a byte read back as that byte. */
  lemma UnhexPair(h: string, b: nat)
    requires b < 256
    ensures Unhex(h + [HexDigit(b / 16), HexDigit(b % 16)]) == Unhex(h) + [b]
  {
    UnhexAppend(h, HexDigit(b / 16), HexDigit(b % 16));
    ByteDigits(b);
  }

  /** A byte's high and low digits read back as the byte. */
  lemma ByteDigits(b: nat)
    requires b < 256
    ensures 16 * HexValue(HexDigit(b / 16)) + HexValue(HexDigit(b % 16)) == b
  {
    HexDigitValue(b / 16);
    HexDigitValue(b % 16);
  }

  /** The last byte's pair reads back as that byte. */
  lemma UnhexLastPair(s: string)
    requires |s| > 0
    ensures Unhex(Hex(s)) == Unhex(Hex(s[..|s| - 1])) + [Byte(s[|s| - 1])]
  {
    UnhexPair(Hex(s[..|s| - 1]), Byte(s[|s| - 1]));
  }

  /** `ToHex` loses nothing: its digit pairs give back every byte. */
  lemma {:induction false} HexRoundTrip(s: string)
    ensures Unhex(Hex(s)) == Bytes(s)
    decreases |s|
  {
    if |s| > 0 {
      UnhexLastPair(s);
      HexRoundTrip(s[..|s| - 1]);
    }
  }

  /** The three fixed rewrites, in the order the C++ source applies them. */
  function Rewrites(str: string): string {
    ReplaceInPlaceFrom(ReplaceInPlaceFrom(ReplaceInPlaceFrom(str, "> >", ">>", 0), ", ", ",", 0), "operator()", "op#2829", 0)
  }

  /**
   * `Sanitize`: the fixed rewrites, which keep the length; any "operator"
   * in the input sends it into a loop that never ends, modelled as
   * `Diverges` at the position the loop is stuck on.
   */
  function Sanitize(str: string): (r: Result<string, ParseError>)
    ensures r.Ok? <==> !Contains(str, Operator)
    ensures r.Ok? ==> r.value == Rewrites(str) && |r.value| == |str|
    ensures r.Err? ==> r == Err(Diverges(FindFrom(str, Operator, 0).value))
  {
    match FindFrom(str, Operator, 0)
    case Some(index) => Err(Diverges(index))
    case None =>
      RewritesKeepLength(str);
      Ok(Rewrites(str))
  }

  lemma RewritesKeepLength(str: string)
    ensures |Rewrites(str)| == |str|
  {
    var a := ReplaceInPlaceFrom(str, "> >", ">>", 0);
    var b := ReplaceInPlaceFrom(a, ", ", ",", 0);
    ReplaceInPlaceKeepsLength(str, "> >", ">>", 0);
    ReplaceInPlaceKeepsLength(a, ", ", ",", 0);
    ReplaceInPlaceKeepsLength(b, "operator()", "op#2829", 0);
  }

  /**
   * The operator loop searches the unchanged input again from the position
   * it found: the search gives back that same position, the `substr` in its
   * body stays in range, and so the loop never leaves it.
   */
  lemma OperatorLoopStuck(str: string)
    requires Contains(str, Operator)
    ensures var index := FindFrom(str, Operator, 0).value;
      && index + |Operator| <= |str|
      && FindFrom(str, Operator, index) == Some(index)
  {
  }
}
