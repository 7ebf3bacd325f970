/**
 * The C# tokenizer's Sanitize as a function: three .NET `Replace` calls,
 * then a loop that, while the text holds "operator", takes the first one,
 * reads the operator up to the next "(", and replaces every
 * "operator<op>" by "op#" followed by the character codes of <op> in
 * upper-case hexadecimal.
 */
module NetSanitize {
  import opened Wrappers
  import opened Text
  import opened OperatorCount
  import opened SymbolTokens

  /** `n.ToString("X2")`: upper-case hexadecimal with at least two digits. */
  function HexX2(n: nat): (s: string)
    ensures |s| >= 2
    ensures forall k :: 0 <= k < |s| ==> IsHexDigit(s[k])
    ensures n < 256 ==> s == [HexDigit(n / 16), HexDigit(n % 16)]
  {
    if n < 16 then
      ['0', HexDigit(n)]
    else
      assert n < 256 ==> HexString(n / 16) == [HexDigit(n / 16)];
      HexString(n)
  }

  /** `string.Join("", op.Select(c => ((int)c).ToString("X2")))`. */
  function OpHex(op: string): (r: string)
    ensures |r| >= 2 * |op|
    ensures forall k :: 0 <= k < |r| ==> IsHexDigit(r[k])
  {
    if |op| == 0 then "" else OpHex(op[..|op| - 1]) + HexX2(op[|op| - 1] as int)
  }

  /** The text after the three fixed replacements, in the order the source applies them. */
  function Replacements(d: string): string {
    ReplaceAll(ReplaceAll(ReplaceAll(d, ", ", ","), "> >", ">>"), "operator()", "op#2829")
  }

  /** The fixed replacements neither lengthen the text nor add an "operator". */
  lemma ReplacementsShrink(d: string)
    ensures |Replacements(d)| <= |d|
    ensures Occ(Replacements(d)) <= Occ(d)
  {
    var a := ReplaceAll(d, ", ", ",");
    var b := ReplaceAll(a, "> >", ">>");
    ReplaceAllNotLonger(d, ", ", ",");
    ReplaceAllNotLonger(a, "> >", ">>");
    ReplaceAllNotLonger(b, "operator()", "op#2829");
    assert Benign(",");
    assert Benign(">>");
    assert Benign("op#2829");
    OccReplaceAll(d, ", ", ",");
    OccReplaceAll(a, "> >", ">>");
    OccReplaceAll(b, "operator()", "op#2829");
  }

  /** "op#" and hexadecimal digits can neither hold nor complete an "operator". */
  lemma HexReplacementBenign(op: string)
    ensures Benign("op#" + OpHex(op))
  {
    HexDigitsBenign(OpHex(op));
  }

  /** "op#" followed by hexadecimal digits only. */
  lemma HexDigitsBenign(h: string)
    requires forall k :: 0 <= k < |h| ==> IsHexDigit(h[k])
    ensures Benign("op#" + h)
  {
    var x := "op#" + h;
    forall k | 3 <= k < |x|
      ensures x[k] != 'o'
    {
      assert x[k] == h[k - 3];
    }
  }

  /**
   * One turn of the loop: with "operator" first at `i` and the next "(" at
   * `e`, the operator text lies between them, and the replacement leaves
   * fewer occurrences of "operator" than before.
   */
  lemma OperatorRewrite(r: string, i: nat, e: nat)
    requires FindFrom(r, Operator, 0) == Some(i)
    requires FindFrom(r, "(", i) == Some(e)
    ensures i + |Operator| <= e
    ensures Occ(ReplaceAll(r, Operator + r[i + |Operator|..e], "op#" + OpHex(r[i + |Operator|..e]))) < Occ(r)
  {
    assert r[i..i + |Operator|] == Operator;
    forall k | i <= k < i + |Operator|
      ensures r[k] != '('
    {
      assert r[k] == Operator[k - i];
    }
    assert r[e] == r[e..e + 1][0];
    var op := r[i + |Operator|..e];
    var p := Operator + op;
    assert r[i..i + |p|] == r[i..i + |Operator|] + op;
    assert p[..|Operator|] == Operator;
    HexReplacementBenign(op);
    OccReplaceAllStrict(r, p, "op#" + OpHex(op), i);
  }

  /** The `while (result.Contains("operator"))` loop. */
  function OperatorLoop(r: string): (res: Result<string, ParseError>)
    decreases Occ(r)
    ensures res.Ok? ==> Occ(res.value) == 0 && !Contains(res.value, Operator)
    ensures res.Err? ==> res.error.NoParenthesis?
  {
    match FindFrom(r, Operator, 0)
    case None =>
      NotContainsOccZero(r);
      Ok(r)
    case Some(i) =>
      match FindFrom(r, "(", i)
      case None => Err(NoParenthesis(i))
      case Some(e) =>
        OperatorRewrite(r, i, e);
        var op := r[i + |Operator|..e];
        OperatorLoop(ReplaceAll(r, Operator + op, "op#" + OpHex(op)))
  }

  /**
   * `Sanitize`: its result never holds "operator"; a text without one only
   * goes through the fixed replacements and does not grow.  It fails only
   * where an "operator" has no "(" after it.
   */
  function Sanitize(d: string): (r: Result<string, ParseError>)
    ensures r.Ok? ==> Occ(r.value) == 0 && !Contains(r.value, Operator)
    ensures Occ(d) == 0 ==> r == Ok(Replacements(d)) && |r.value| <= |d|
    ensures r.Err? ==> r.error.NoParenthesis?
  {
    ReplacementsShrink(d);
    NoOperatorNoLoop(Replacements(d));
    OperatorLoop(Replacements(d))
  }

  /**
   * The text the loop holds when it stops: the first text in the chain of
   * rewrites that either has no "operator" or whose first "operator" has
   * no "(" after it.
   */
  ghost function StopText(r: string): (t: string)
    decreases Occ(r)
    ensures Occ(t) <= Occ(r)
    ensures !Contains(t, Operator) || FindFrom(t, "(", FindFrom(t, Operator, 0).value).None?
  {
    match FindFrom(r, Operator, 0)
    case None => r
    case Some(i) =>
      match FindFrom(r, "(", i)
      case None => r
      case Some(e) =>
        OperatorRewrite(r, i, e);
        var op := r[i + |Operator|..e];
        StopText(ReplaceAll(r, Operator + op, "op#" + OpHex(op)))
  }

  /**
   * The loop succeeds exactly when the text it stops on has no "operator",
   * and then gives that text; it fails exactly when it stops on a text
   * whose first "operator" has no "(" after it, at that operator's index.
   */
  lemma {:induction false} OperatorLoopStops(r: string)
    decreases Occ(r)
    ensures OperatorLoop(r).Ok? <==> !Contains(StopText(r), Operator)
    ensures OperatorLoop(r).Ok? ==> OperatorLoop(r).value == StopText(r)
    ensures OperatorLoop(r).Err? ==>
              FindFrom(StopText(r), Operator, 0) == Some(OperatorLoop(r).error.index) &&
              FindFrom(StopText(r), "(", OperatorLoop(r).error.index) == None
  {
    match FindFrom(r, Operator, 0)
    case None =>
    case Some(i) =>
      match FindFrom(r, "(", i)
      case None =>
      case Some(e) =>
        OperatorRewrite(r, i, e);
        var op := r[i + |Operator|..e];
        OperatorLoopStops(ReplaceAll(r, Operator + op, "op#" + OpHex(op)));
  }

  /**
   * The source throws on the first turn when the first "operator" left by
   * the fixed replacements has no "(" after it.
   */
  lemma FirstOperatorUnclosed(d: string, i: nat)
    requires FindFrom(Replacements(d), Operator, 0) == Some(i)
    requires FindFrom(Replacements(d), "(", i) == None
    ensures Sanitize(d) == Err(NoParenthesis(i))
  {
  }

  /**
   * `Sanitize` fails exactly when the text its loop stops on still holds an
   * "operator", at the index of the first one, which has no "(" after it.
   */
  lemma SanitizeFails(d: string)
    ensures Sanitize(d).Err? <==> Contains(StopText(Replacements(d)), Operator)
    ensures Sanitize(d).Err? ==>
              FindFrom(StopText(Replacements(d)), Operator, 0) == Some(Sanitize(d).error.index) &&
              FindFrom(StopText(Replacements(d)), "(", Sanitize(d).error.index) == None
  {
    OperatorLoopStops(Replacements(d));
  }

  /**
   * A later "operator" without a "(" after it does not always fail: the
   * first turn's `Replace` rewrites every "operator+", so the loop never
   * reaches the second one.
   */
  lemma LaterOperatorRewrittenEarly(d: string, t: string)
    requires d == "operator+(operator+" && t == "op#2B(op#2B"
    ensures Sanitize(d) == Ok(t)
  {
    TwoOperatorsFirstTurn(d, t);
    NothingLeft(t);
  }

  lemma NothingLeft(t: string)
    requires t == "op#2B(op#2B"
    ensures OperatorLoop(t) == Ok(t)
  {
    assert 'r' !in t;
    AbsentCharNotFound(t, Operator, 3, 0);
    NotContainsOccZero(t);
    NoOperatorNoLoop(t);
  }

  /** The first turn rewrites both operators at once. */
  lemma TwoOperatorsFirstTurn(d: string, t: string)
    requires d == "operator+(operator+" && t == "op#2B(op#2B"
    ensures Sanitize(d) == OperatorLoop(t)
  {
    TwoOperatorsFixed(d);
    TwoOperatorsFound(d);
    var op := d[|Operator|..9];
    TwoOperatorsRewritten(d, op, t);
  }

  lemma TwoOperatorsRewritten(d: string, op: string, t: string)
    requires d == "operator+(operator+" && op == "+" && t == "op#2B(op#2B"
    ensures ReplaceAll(d, Operator + op, "op#" + OpHex(op)) == t
  {
    var p := Operator + op;
    var rep := "op#" + OpHex(op);
    AroundParenthesis(d, op, t);
    assert p[0] == 'o';
    ReplaceAroundChar(p, '(', rep);
  }

  lemma AroundParenthesis(d: string, op: string, t: string)
    requires d == "operator+(operator+" && op == "+" && t == "op#2B(op#2B"
    ensures d == (Operator + op) + ['('] + (Operator + op)
    ensures t == ("op#" + OpHex(op)) + ['('] + ("op#" + OpHex(op))
  {
    PlusHex();
    var rep := "op#2B";
    assert "op#" + OpHex(op) == rep;
    assert |t| == |rep + ['('] + rep|;
  }

  lemma PlusHex()
    ensures OpHex("+") == "2B"
  {
    assert '+' as int == 43;
    assert HexString(2) == [HexDigit(2)];
    assert HexX2(43) == HexString(2) + [HexDigit(11)];
    assert "+"[..0] == [];
  }

  lemma TwoOperatorsFixed(d: string)
    requires d == "operator+(operator+"
    ensures Replacements(d) == d
  {
    assert ',' !in d && '>' !in d && ')' !in d;
    ReplaceAllWithoutFirst(d, ", ", ",");
    ReplaceAllWithoutFirst(d, "> >", ">>");
    AbsentCharNotFound(d, "operator()", 9, 0);
    ReplaceAllNotFound(d, "operator()", "op#2829");
  }

  lemma TwoOperatorsFound(d: string)
    requires d == "operator+(operator+"
    ensures FindFrom(d, Operator, 0) == Some(0)
    ensures FindFrom(d, "(", 0) == Some(9)
    ensures d[|Operator|..9] == "+"
  {
    assert d[..|Operator|] == Operator;
    forall k | 0 <= k < 9
      ensures !OccursAt(d, "(", k)
    {
      assert d[k..k + 1][0] == d[k] != '(';
    }
    assert OccursAt(d, "(", 9) by {
      assert d[9..10] == "(";
    }
    FirstOccurrence(d, "(", 9);
  }

  /** An occurrence with none before it is what `FindFrom` finds. */
  lemma FirstOccurrence(s: string, p: string, j: nat)
    requires OccursAt(s, p, j)
    requires forall k :: 0 <= k < j ==> !OccursAt(s, p, k)
    ensures FindFrom(s, p, 0) == Some(j)
  {
  }

  lemma NoOperatorNoLoop(r: string)
    ensures Occ(r) == 0 ==> OperatorLoop(r) == Ok(r)
  {
    if Occ(r) == 0 {
      OccZeroNotContains(r);
    }
  }

  /** An operator with no "(" after it is refused: `Substring` gets a negative length. */
  lemma OperatorWithoutParenthesis()
    ensures Sanitize("operator+") == Err(NoParenthesis(0))
  {
    var d := "operator+";
    var chars := ['o', 'p', 'e', 'r', 'a', 't', 'o', 'r', '+'];
    assert d == chars;
    assert ',' !in chars && '>' !in chars && '(' !in chars;
    ReplaceAllWithoutFirst(d, ", ", ",");
    ReplaceAllWithoutFirst(d, "> >", ">>");
    assert Replacements(d) == d;
    assert FindFrom(d, Operator, 0) == Some(0);
    NotFoundWithoutFirst(d, "(", 0);
  }
}
