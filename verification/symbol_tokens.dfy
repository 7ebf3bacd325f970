/**
 * What the two symbol tokenizers (ParserExample.cs and its C++ twin) have
 * in common: the token tree, the bracket characters, the nesting count,
 * the bracket-matching cut and the top-level comma split.  The two split
 * functions differ only in when they keep the last piece.
 */
module SymbolTokens {
  import opened Wrappers
  import opened Text
  import opened OperatorCount

  /** The token classes NAME, SCOPE, BOUNDARY, TMP, TEMPLATE, BRACKET and SQUARE_BRACKET. */
  datatype Token =
    | Name(name: string)
    | Scope
    | Boundary
    | Tmp(str: string)
    | Template(args: seq<Argument>)
    | Bracket(args: seq<Argument>)
    | SquareBracket(args: seq<Argument>)

  /** One row of a bracket token's `Args`: the tokens of one comma-separated piece. */
  datatype Argument = Argument(tokens: seq<Token>)

  /** The exceptions that end a parse, and the two loops that never end. */
  datatype ParseError =
    | NotAnOpener(index: nat)
    | Unclosed(index: nat)
    | SplitUnclosed
    | NoParenthesis(index: nat)
    | Diverges(index: nat)

  /** The characters that open a nesting level: "<([{". */
  predicate IsOpener(c: char) {
    c == '<' || c == '(' || c == '[' || c == '{'
  }

  /** The characters that close a nesting level: ">)]}". */
  predicate IsCloser(c: char) {
    c == '>' || c == ')' || c == ']' || c == '}'
  }

  /** How a character moves the nesting count: up for an opener, down for a closer. */
  function Delta(c: char): int {
    if IsOpener(c) then 1 else if IsCloser(c) then -1 else 0
  }

  /** Net nesting of `s[a..b]`; any opener matches any closer. */
  function DepthIn(s: string, a: nat, b: nat): int
    requires a <= b <= |s|
    decreases b - a
  {
    if a == b then 0 else DepthIn(s, a, b - 1) + Delta(s[b - 1])
  }

  /** The loop of `_Cut` from position `cur` with count `nest`: the closer it stops at. */
  function CutFrom(s: string, cur: nat, nest: int): Option<nat>
    requires cur <= |s|
    decreases |s| - cur
  {
    if cur == |s| then None
    else if IsOpener(s[cur]) then CutFrom(s, cur + 1, nest + 1)
    else if IsCloser(s[cur]) then
      if nest - 1 == 0 then Some(cur) else CutFrom(s, cur + 1, nest - 1)
    else CutFrom(s, cur + 1, nest)
  }

  /**
   * `_Cut` at `cur`: the text strictly between the opener at `cur` and the
   * first position where the nesting returns to zero, and that position.
   */
  function Cut(s: string, cur: nat): (r: Result<(string, nat), ParseError>)
    requires cur < |s|
    ensures !IsOpener(s[cur]) ==> r == Err(NotAnOpener(cur))
    ensures r.Ok? ==>
      && IsOpener(s[cur]) && cur < r.value.1 < |s|
      && r.value.0 == s[cur + 1..r.value.1]
      && IsCloser(s[r.value.1])
      && DepthIn(s, cur, r.value.1 + 1) == 0
      && forall m :: cur < m <= r.value.1 ==> DepthIn(s, cur, m) > 0
    ensures IsOpener(s[cur]) && r.Err? ==>
      && r == Err(Unclosed(cur))
      && forall m :: cur < m <= |s| ==> DepthIn(s, cur, m) > 0
  {
    if !IsOpener(s[cur]) then Err(NotAnOpener(cur))
    else
      CutFromDepth(s, cur, cur + 1, 1);
      match CutFrom(s, cur, 0)
      case None => Err(Unclosed(cur))
      case Some(c) => Ok((s[cur + 1..c], c))
  }

  /**
   * Once past the opener at `offset`, with the count equal to the nesting
   * so far and the nesting positive so far, the loop stops at the first
   * point where the nesting reaches zero, or runs off the end when there is
   * none.
   */
  lemma {:induction false} CutFromDepth(s: string, offset: nat, cur: nat, nest: int)
    requires offset < cur <= |s|
    requires nest == DepthIn(s, offset, cur)
    requires forall m :: offset < m <= cur ==> DepthIn(s, offset, m) > 0
    ensures match CutFrom(s, cur, nest)
      case Some(c) =>
        && cur <= c < |s| && IsCloser(s[c])
        && DepthIn(s, offset, c + 1) == 0
        && forall m :: offset < m <= c ==> DepthIn(s, offset, m) > 0
      case None =>
        forall m :: offset < m <= |s| ==> DepthIn(s, offset, m) > 0
    decreases |s| - cur
  {
    if cur < |s| {
      assert DepthIn(s, offset, cur + 1) == nest + Delta(s[cur]);
      if IsOpener(s[cur]) {
        CutFromDepth(s, offset, cur + 1, nest + 1);
      } else if IsCloser(s[cur]) {
        if nest - 1 != 0 {
          CutFromDepth(s, offset, cur + 1, nest - 1);
        }
      } else {
        CutFromDepth(s, offset, cur + 1, nest);
      }
    }
  }

  /** Nesting adds up over adjacent stretches. */
  lemma {:induction false} DepthInAdd(s: string, a: nat, m: nat, b: nat)
    requires a <= m <= b <= |s|
    ensures DepthIn(s, a, b) == DepthIn(s, a, m) + DepthIn(s, m, b)
    decreases b - m
  {
    if m < b {
      DepthInAdd(s, a, m, b - 1);
    }
  }

  /** The nesting of a stretch does not depend on the text around it. */
  lemma {:induction false} DepthInSlice(s: string, a: nat, b: nat, m: nat)
    requires a <= m <= b <= |s|
    ensures DepthIn(s[a..b], 0, m - a) == DepthIn(s, a, m)
    decreases m - a
  {
    if m > a {
      DepthInSlice(s, a, b, m - 1);
      assert s[a..b][m - a - 1] == s[m - 1];
    }
  }

  /** What `_Cut` returns is balanced: its nesting is zero at its end. */
  lemma CutInnerBalanced(s: string, cur: nat)
    requires cur < |s| && Cut(s, cur).Ok?
    ensures var (inner, close) := Cut(s, cur).value;
      DepthIn(inner, 0, |inner|) == 0
  {
    var (inner, close) := Cut(s, cur).value;
    assert DepthIn(s, cur, cur + 1) == 1;
    assert DepthIn(s, cur, close) == 1;
    DepthInAdd(s, cur, cur + 1, close);
    DepthInSlice(s, cur + 1, close, close);
  }

  /** Brackets of different kinds still match: `<a)` is cut to `a`. */
  lemma CutIgnoresBracketKind()
    ensures Cut("<a)", 0) == Ok(("a", 2))
  {
    assert CutFrom("<a)", 1, 1) == Some(2);
    assert "<a)"[1..2] == "a";
  }

  /** The loop state of `_Split`: pieces cut so far, start of the open piece, nesting. */
  datatype SplitState = SplitState(pieces: seq<string>, offset: nat, nest: int)

  /** `s` is no longer than `t` and holds no more occurrences of "operator". */
  predicate Fits(s: string, t: string) {
    |s| <= |t| && Occ(s) <= Occ(t)
  }

  /** The loop of `_Split` from position `i`. */
  function SplitFrom(t: string, i: nat, st: SplitState): (r: SplitState)
    requires st.offset <= i <= |t|
    requires forall k :: 0 <= k < |st.pieces| ==> Fits(st.pieces[k], t)
    decreases |t| - i
    ensures r.offset <= |t|
    ensures forall k :: 0 <= k < |r.pieces| ==> Fits(r.pieces[k], t)
  {
    if i == |t| then st
    else if IsOpener(t[i]) then SplitFrom(t, i + 1, st.(nest := st.nest + 1))
    else if IsCloser(t[i]) then SplitFrom(t, i + 1, st.(nest := st.nest - 1))
    else if t[i] == ',' && st.nest == 0 then
      OccSlice(t, st.offset, i);
      SplitFrom(t, i + 1, SplitState(st.pieces + [t[st.offset..i]], i + 1, st.nest))
    else SplitFrom(t, i + 1, st)
  }

  /** The loop of `_Split` run over the whole of `t`. */
  function SplitLoop(t: string): (r: SplitState)
    ensures r.offset <= |t|
    ensures forall k :: 0 <= k < |r.pieces| ==> Fits(r.pieces[k], t)
  {
    SplitFrom(t, 0, SplitState([], 0, 0))
  }

  /** C# `_Split`: refused while the nesting is open; the last piece is always kept. */
  function SplitCs(t: string): (r: Result<seq<string>, ParseError>)
    ensures r.Ok? ==> forall k :: 0 <= k < |r.value| ==> Fits(r.value[k], t)
  {
    var st := SplitLoop(t);
    if st.nest > 0 then Err(SplitUnclosed)
    else
      OccSlice(t, st.offset, |t|);
      assert t[st.offset..] == t[st.offset..|t|];
      Ok(st.pieces + [t[st.offset..]])
  }

  /** `std::string::npos` and the wrap of `size_t` arithmetic (64-bit). */
  const SizeMax: nat := 0xFFFF_FFFF_FFFF_FFFF

  /** `target.length() - 1` computed in `size_t`: zero wraps to the largest value. */
  function LengthLessOne(t: string): nat {
    if |t| == 0 then SizeMax else |t| - 1
  }

  /**
   * C++ `_Split`: refused while the nesting is open; the last piece is kept
   * only when its start is below `target.length() - 1` in `size_t`.
   */
  function SplitCpp(t: string): (r: Result<seq<string>, ParseError>)
    ensures r.Ok? ==> forall k :: 0 <= k < |r.value| ==> Fits(r.value[k], t)
  {
    var st := SplitLoop(t);
    if st.nest > 0 then Err(SplitUnclosed)
    else if st.offset < LengthLessOne(t) then
      OccSlice(t, st.offset, |t|);
      assert t[st.offset..] == t[st.offset..|t|];
      Ok(st.pieces + [t[st.offset..]])
    else Ok(st.pieces)
  }

  /** Number of commas in `t[..i]` met while the nesting is zero. */
  function TopCommas(t: string, i: nat): nat
    requires i <= |t|
  {
    if i == 0 then 0
    else TopCommas(t, i - 1) + (if t[i - 1] == ',' && DepthIn(t, 0, i - 1) == 0 then 1 else 0)
  }

  lemma JoinExtendLast(xs: seq<string>, x: string, c: char, sep: string)
    ensures Join(xs + [x + [c]], sep) == Join(xs + [x], sep) + [c]
  {
    JoinSnoc(xs, x + [c], sep);
    JoinSnoc(xs, x, sep);
  }

  /** Every piece cut so far lies within the text. */
  predicate AllFit(pieces: seq<string>, t: string) {
    forall k :: 0 <= k < |pieces| ==> Fits(pieces[k], t)
  }

  /**
   * What the loop of `_Split` keeps at position `i`: the count is the
   * nesting so far, there is one cut piece per top-level comma so far, and
   * the cut pieces joined by commas, followed by the open piece, spell the
   * text read so far.
   */
  predicate SplitInvariant(t: string, i: nat, st: SplitState) {
    && st.offset <= i <= |t|
    && AllFit(st.pieces, t)
    && st.nest == DepthIn(t, 0, i)
    && |st.pieces| == TopCommas(t, i)
    && Join(st.pieces + [t[st.offset..i]], ",") == t[..i]
  }

  /** One turn of the loop keeps the invariant. */
  lemma SplitStep(t: string, i: nat, st: SplitState) returns (next: SplitState)
    requires i < |t| && SplitInvariant(t, i, st)
    ensures SplitInvariant(t, i + 1, next)
    ensures SplitFrom(t, i, st) == SplitFrom(t, i + 1, next)
  {
    if t[i] == ',' && st.nest == 0 {
      next := SplitStepComma(t, i, st);
    } else {
      next := SplitStepOther(t, i, st);
    }
  }

  /** A comma outside brackets ends a piece and starts an empty one. */
  lemma SplitStepComma(t: string, i: nat, st: SplitState) returns (next: SplitState)
    requires i < |t| && SplitInvariant(t, i, st) && t[i] == ',' && st.nest == 0
    ensures SplitInvariant(t, i + 1, next)
    ensures SplitFrom(t, i, st) == SplitFrom(t, i + 1, next)
  {
    assert t[..i + 1] == t[..i] + [t[i]];
    assert !IsOpener(t[i]) && !IsCloser(t[i]);
    OccSlice(t, st.offset, i);
    next := SplitState(st.pieces + [t[st.offset..i]], i + 1, st.nest);
    assert t[i + 1..i + 1] == "";
    JoinSnoc(next.pieces, "", ",");
  }

  /** Any other character extends the current piece, counting the nesting. */
  lemma SplitStepOther(t: string, i: nat, st: SplitState) returns (next: SplitState)
    requires i < |t| && SplitInvariant(t, i, st) && !(t[i] == ',' && st.nest == 0)
    ensures SplitInvariant(t, i + 1, next)
    ensures SplitFrom(t, i, st) == SplitFrom(t, i + 1, next)
  {
    assert t[..i + 1] == t[..i] + [t[i]];
    next := if IsOpener(t[i]) then st.(nest := st.nest + 1)
      else if IsCloser(t[i]) then st.(nest := st.nest - 1)
      else st;
    assert t[st.offset..i + 1] == t[st.offset..i] + [t[i]];
    JoinExtendLast(st.pieces, t[st.offset..i], t[i], ",");
  }

  /** At the end of the loop the invariant describes the whole text. */
  lemma {:induction false} SplitFromFacts(t: string, i: nat, st: SplitState)
    requires SplitInvariant(t, i, st)
    ensures var r := SplitFrom(t, i, st);
      && r.nest == DepthIn(t, 0, |t|)
      && |r.pieces| == TopCommas(t, |t|)
      && Join(r.pieces + [t[r.offset..]], ",") == t
    decreases |t| - i
  {
    if i == |t| {
      assert t[..i] == t;
      assert t[st.offset..i] == t[st.offset..];
    } else {
      var next := SplitStep(t, i, st);
      SplitFromFacts(t, i + 1, next);
    }
  }

  /**
   * C# `_Split` is refused exactly when the nesting is still open at the
   * end; otherwise it returns one piece more than there are top-level
   * commas, and joining the pieces with "," rebuilds the text.
   */
  lemma SplitCsPieces(t: string)
    ensures SplitCs(t).Err? <==> DepthIn(t, 0, |t|) > 0
    ensures SplitCs(t).Ok? ==>
      && |SplitCs(t).value| == TopCommas(t, |t|) + 1
      && Join(SplitCs(t).value, ",") == t
  {
    assert t[0..0] == "" && t[..0] == "";
    assert SplitInvariant(t, 0, SplitState([], 0, 0));
    SplitFromFacts(t, 0, SplitState([], 0, 0));
  }

  /**
   * C++ `_Split` differs from the C# one only in the last piece: it is
   * kept when the text is empty or the piece has at least two characters.
   */
  lemma SplitCppDropsShortTail(t: string)
    ensures SplitCpp(t).Err? <==> SplitCs(t).Err?
    ensures SplitCs(t).Ok? ==>
      var pieces := SplitCs(t).value;
      var last := pieces[|pieces| - 1];
      SplitCpp(t).value == if |t| == 0 || |last| >= 2 then pieces else pieces[..|pieces| - 1]
  {
    var st := SplitLoop(t);
    if st.nest <= 0 {
      assert (st.pieces + [t[st.offset..]])[..|st.pieces|] == st.pieces;
    }
  }

  /** A one-character last piece is dropped: "a,b" splits to ["a"]. */
  lemma SplitCppDropsOneCharacter()
    ensures SplitCs("a,b") == Ok(["a", "b"])
    ensures SplitCpp("a,b") == Ok(["a"])
  {
    var t := "a,b";
    assert t[0..1] == "a" && t[2..] == "b";
    var st := SplitState(["a"], 2, 0);
    assert SplitFrom(t, 3, st) == st;
    assert SplitFrom(t, 2, st) == st;
    assert SplitFrom(t, 1, SplitState([], 0, 0)) == st;
    assert SplitFrom(t, 0, SplitState([], 0, 0)) == st;
    assert st.pieces + [t[2..]] == ["a", "b"];
  }

  /** A single character splits to nothing, the empty text to one empty piece. */
  lemma SplitCppShortTexts()
    ensures SplitCpp("x") == Ok([])
    ensures SplitCpp("") == Ok([""])
  {
    assert SplitFrom("x", 1, SplitState([], 0, 0)) == SplitState([], 0, 0);
    assert SplitFrom("x", 0, SplitState([], 0, 0)) == SplitState([], 0, 0);
    assert SplitLoop("") == SplitState([], 0, 0);
    assert 0 < LengthLessOne("");
    assert ""[0..] == "";
    assert [] + [""] == [""];
  }
}
