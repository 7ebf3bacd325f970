/**
 * The `_Parse` loop of the two symbol tokenizers, as one specification
 * parameterised by the dialect: ParserExample.cs and ParserExample.cpp
 * differ in the characters a NAME may hold, in `Sanitize` and in `_Split`,
 * and in nothing else that `_Parse` does.
 *
 * `Parse` sanitizes its text and scans it; every bracket argument is parsed
 * again by `Parse`, sanitizing included, as both sources do by calling
 * the public `Parse` on each piece.
 */
module Tokenizer {
  import opened Wrappers
  import opened Text
  import opened OperatorCount
  import opened SymbolTokens
  import NetSanitize
  import CppStrings

  datatype Dialect = CSharp | Cpp

  /**
   * Membership in the NAME character set: letters, digits and "_~#*&:" in
   * both sources, and ".-+" as well in the C++ one.
   */
  predicate IsNameChar(dialect: Dialect, c: char) {
    || 'a' <= c <= 'z' || 'A' <= c <= 'Z' || '0' <= c <= '9'
    || c == '_' || c == '~' || c == '#' || c == '*' || c == '&' || c == ':'
    || (dialect == Cpp && (c == '.' || c == '-' || c == '+'))
  }

  function Sanitize(dialect: Dialect, d: string): Result<string, ParseError> {
    match dialect
    case CSharp => NetSanitize.Sanitize(d)
    case Cpp => CppStrings.Sanitize(d)
  }

  function Split(dialect: Dialect, t: string): Result<seq<string>, ParseError> {
    match dialect
    case CSharp => SplitCs(t)
    case Cpp => SplitCpp(t)
  }

  /**
   * Termination of the recursion: a C# text with "operator" in it
   * sanitizes to one without, after which the texts only shrink; C++
   * texts shrink from the start, since its `Sanitize` keeps the length.
   */
  function Measure(dialect: Dialect, d: string): nat {
    if dialect == CSharp then Occ(d) else 0
  }

  /** `t` is the sanitized form of `origin` as far as termination needs. */
  predicate Bounded(dialect: Dialect, origin: string, t: string) {
    match dialect
    case CSharp => Occ(t) == 0 && (Occ(origin) == 0 ==> |t| <= |origin|)
    case Cpp => |t| <= |origin|
  }

  /** A bracket argument of the sanitized form of `origin`. */
  predicate Smaller(dialect: Dialect, p: string, origin: string) {
    match dialect
    case CSharp => Occ(p) == 0 && (Occ(origin) == 0 ==> |p| < |origin|)
    case Cpp => |p| < |origin|
  }

  lemma SmallerDecreases(dialect: Dialect, p: string, origin: string)
    requires Smaller(dialect, p, origin)
    ensures || Measure(dialect, p) < Measure(dialect, origin)
            || (Measure(dialect, p) == Measure(dialect, origin) && |p| < |origin|)
  {
  }

  lemma SanitizeBounded(dialect: Dialect, d: string)
    requires Sanitize(dialect, d).Ok?
    ensures Bounded(dialect, d, Sanitize(dialect, d).value)
  {
  }

  /** The arguments cut out of a bounded text are smaller than its origin. */
  lemma PiecesSmaller(dialect: Dialect, origin: string, t: string, cur: nat, pieces: seq<string>)
    requires Bounded(dialect, origin, t) && cur < |t| && Cut(t, cur).Ok?
    requires Split(dialect, Cut(t, cur).value.0) == Ok(pieces)
    ensures forall k :: 0 <= k < |pieces| ==> Smaller(dialect, pieces[k], origin)
  {
    var (inner, close) := Cut(t, cur).value;
    OccSlice(t, cur + 1, close);
    forall k | 0 <= k < |pieces|
      ensures Smaller(dialect, pieces[k], origin)
    {
      assert Fits(pieces[k], inner);
    }
  }

  /** Since a cut is balanced, splitting it never fails. */
  lemma SplitOfCut(dialect: Dialect, t: string, cur: nat)
    requires cur < |t| && Cut(t, cur).Ok?
    ensures Split(dialect, Cut(t, cur).value.0).Ok?
  {
    var inner := Cut(t, cur).value.0;
    CutInnerBalanced(t, cur);
    SplitCsPieces(inner);
    SplitCppDropsShortTail(inner);
  }

  /** The pending NAME, if any, joins the token list. */
  function Flush(toks: seq<Token>, buf: string): seq<Token> {
    if |buf| > 0 then toks + [Name(buf)] else toks
  }

  /** The token an opener other than '{' makes from its parsed arguments. */
  function Group(opener: char, args: seq<Argument>): Token {
    if opener == '<' then Template(args)
    else if opener == '(' then Bracket(args)
    else SquareBracket(args)
  }

  /** The only ways a parse can fail: a bad "operator" and an unclosed bracket. */
  predicate ErrorOk(dialect: Dialect, e: ParseError) {
    || e.Unclosed?
    || (dialect == CSharp && e.NoParenthesis?)
    || (dialect == Cpp && e.Diverges?)
  }

  /** NAME characters only, and no "::" among them. */
  predicate NameRun(dialect: Dialect, n: string) {
    && (forall k :: 0 <= k < |n| ==> IsNameChar(dialect, n[k]))
    && (forall k :: 0 <= k < |n| - 1 ==> !(n[k] == ':' && n[k + 1] == ':'))
  }

  /** A NAME text: not empty, NAME characters only, and no "::" in it. */
  predicate NameOk(dialect: Dialect, n: string) {
    |n| > 0 && NameRun(dialect, n)
  }

  /** Every NAME in the token tree, at any depth, is a good NAME. */
  predicate TokenOk(dialect: Dialect, tok: Token)
    decreases tok
  {
    match tok
    case Name(n) => NameOk(dialect, n)
    case Template(args) => forall i | 0 <= i < |args| :: ArgumentOk(dialect, args[i])
    case Bracket(args) => forall i | 0 <= i < |args| :: ArgumentOk(dialect, args[i])
    case SquareBracket(args) => forall i | 0 <= i < |args| :: ArgumentOk(dialect, args[i])
    case _ => true
  }

  predicate ArgumentOk(dialect: Dialect, arg: Argument)
    decreases arg
  {
    forall j | 0 <= j < |arg.tokens| :: TokenOk(dialect, arg.tokens[j])
  }

  predicate TokensOk(dialect: Dialect, toks: seq<Token>) {
    forall j :: 0 <= j < |toks| ==> TokenOk(dialect, toks[j])
  }

  /**
   * The pending NAME buffer: NAME characters with no "::" in them, and a
   * buffered ':' is never followed by another, since "::" is checked first.
   */
  predicate BufOk(dialect: Dialect, t: string, cur: nat, buf: string) {
    && NameRun(dialect, buf)
    && (|buf| > 0 && buf[|buf| - 1] == ':' && cur < |t| ==> t[cur] != ':')
  }

  lemma FlushOk(dialect: Dialect, t: string, cur: nat, buf: string, toks: seq<Token>, tok: Token)
    ensures TokensOk(dialect, toks) && BufOk(dialect, t, cur, buf) ==>
      && TokensOk(dialect, Flush(toks, buf))
      && (TokenOk(dialect, tok) ==> TokensOk(dialect, Flush(toks, buf) + [tok]))
  {
  }

  lemma GroupOk(dialect: Dialect, opener: char, args: seq<Argument>)
    requires forall i :: 0 <= i < |args| ==> ArgumentOk(dialect, args[i])
    ensures TokenOk(dialect, Group(opener, args))
  {
  }

  /** Buffering a NAME character that does not start "::" keeps the buffer good. */
  lemma BufferStep(dialect: Dialect, t: string, cur: nat, buf: string)
    requires cur < |t| && IsNameChar(dialect, t[cur]) && !ScopeAt(t, cur)
    ensures BufOk(dialect, t, cur, buf) ==> BufOk(dialect, t, cur + 1, buf + [t[cur]])
  {
  }

  /** "::" starts at `cur`: the check `_Check_Token("::")` makes. */
  predicate ScopeAt(t: string, cur: nat) {
    cur + 1 < |t| && t[cur] == ':' && t[cur + 1] == ':'
  }

  lemma ScopeAtOccurs(t: string, cur: nat)
    ensures ScopeAt(t, cur) <==> OccursAt(t, "::", cur)
  {
    if cur + 2 <= |t| {
      assert t[cur..cur + 2] == [t[cur], t[cur + 1]];
    }
  }

  /** `Parse`: sanitize, then scan the sanitized text from its start. */
  function Parse(dialect: Dialect, d: string): (r: Result<seq<Token>, ParseError>)
    decreases Measure(dialect, d), |d|, 1, 0, 0
    ensures r.Err? ==> ErrorOk(dialect, r.error)
  {
    match Sanitize(dialect, d)
    case Err(e) => Err(e)
    case Ok(t) =>
      SanitizeBounded(dialect, d);
      Scan(dialect, d, t, 0, "", [])
  }

  /** `args.push_back(Parse(token))` for each piece, stopping at the first failure. */
  function ParsePieces(dialect: Dialect, origin: string, pieces: seq<string>): (r: Result<seq<Argument>, ParseError>)
    requires forall k :: 0 <= k < |pieces| ==> Smaller(dialect, pieces[k], origin)
    decreases Measure(dialect, origin), |origin|, 0, 0, |pieces|
    ensures r.Ok? ==> |r.value| == |pieces|
    ensures r.Err? ==> ErrorOk(dialect, r.error)
  {
    if |pieces| == 0 then Ok([])
    else
      SmallerDecreases(dialect, pieces[|pieces| - 1], origin);
      match ParsePieces(dialect, origin, pieces[..|pieces| - 1])
      case Err(e) => Err(e)
      case Ok(args) =>
        match Parse(dialect, pieces[|pieces| - 1])
        case Err(e) => Err(e)
        case Ok(toks) => Ok(args + [Argument(toks)])
  }

  /**
   * The `for` loop of `_Parse` at position `cur`, with the pending NAME in
   * `buf` and the tokens made so far in `toks`.  An opener flushes the
   * NAME, cuts out its contents and continues after the closer; "::" makes
   * a SCOPE and skips both colons; a character outside the NAME set makes
   * a BOUNDARY; any other character is buffered.
   */
  function Scan(dialect: Dialect, origin: string, t: string, cur: nat, buf: string, toks: seq<Token>): (r: Result<seq<Token>, ParseError>)
    requires Bounded(dialect, origin, t) && cur <= |t|
    decreases Measure(dialect, origin), |origin|, 0, |t| - cur, 1
    ensures r.Err? ==> ErrorOk(dialect, r.error)
  {
    if cur == |t| then Ok(Flush(toks, buf))
    else if IsOpener(t[cur]) then ScanNested(dialect, origin, t, cur, buf, toks)
    else if ScopeAt(t, cur) then Scan(dialect, origin, t, cur + 2, "", Flush(toks, buf) + [Scope])
    else if !IsNameChar(dialect, t[cur]) then Scan(dialect, origin, t, cur + 1, "", Flush(toks, buf) + [Boundary])
    else Scan(dialect, origin, t, cur + 1, buf + [t[cur]], toks)
  }

  /**
   * The opener branch of `Scan`: flush the pending NAME, cut out the
   * contents, and go on after the closer with a TMP of the raw contents
   * for '{', or with the group of the parsed pieces for the other openers.
   */
  function ScanNested(dialect: Dialect, origin: string, t: string, cur: nat, buf: string, toks: seq<Token>): (r: Result<seq<Token>, ParseError>)
    requires Bounded(dialect, origin, t) && cur < |t| && IsOpener(t[cur])
    decreases Measure(dialect, origin), |origin|, 0, |t| - cur, 0
    ensures r.Err? ==> ErrorOk(dialect, r.error)
  {
    match Cut(t, cur)
    case Err(e) => Err(e)
    case Ok((inner, close)) =>
      if t[cur] == '{' then Scan(dialect, origin, t, close + 1, "", Flush(toks, buf) + [Tmp(inner)])
      else
        SplitOfCut(dialect, t, cur);
        var pieces := Split(dialect, inner).value;
        PiecesSmaller(dialect, origin, t, cur, pieces);
        match ParsePieces(dialect, origin, pieces)
        case Err(e) => Err(e)
        case Ok(args) => Scan(dialect, origin, t, close + 1, "", Flush(toks, buf) + [Group(t[cur], args)])
  }

  /**
   * Every NAME `_Parse` makes, at any depth, is not empty, holds only NAME
   * characters and holds no "::".
   */
  lemma {:induction false} ParseNamesOk(dialect: Dialect, d: string)
    requires Parse(dialect, d).Ok?
    ensures TokensOk(dialect, Parse(dialect, d).value)
    decreases Measure(dialect, d), |d|, 1, 0, 0
  {
    var t := Sanitize(dialect, d).value;
    SanitizeBounded(dialect, d);
    ScanNamesOk(dialect, d, t, 0, "", []);
  }

  lemma {:induction false} PiecesNamesOk(dialect: Dialect, origin: string, pieces: seq<string>)
    requires forall k :: 0 <= k < |pieces| ==> Smaller(dialect, pieces[k], origin)
    requires ParsePieces(dialect, origin, pieces).Ok?
    ensures forall i :: 0 <= i < |pieces| ==> ArgumentOk(dialect, ParsePieces(dialect, origin, pieces).value[i])
    decreases Measure(dialect, origin), |origin|, 0, 0, |pieces|
  {
    if |pieces| > 0 {
      SmallerDecreases(dialect, pieces[|pieces| - 1], origin);
      PiecesNamesOk(dialect, origin, pieces[..|pieces| - 1]);
      ParseNamesOk(dialect, pieces[|pieces| - 1]);
    }
  }

  lemma {:induction false} ScanNamesOk(dialect: Dialect, origin: string, t: string, cur: nat, buf: string, toks: seq<Token>)
    requires Bounded(dialect, origin, t) && cur <= |t|
    requires TokensOk(dialect, toks) && BufOk(dialect, t, cur, buf)
    requires Scan(dialect, origin, t, cur, buf, toks).Ok?
    ensures TokensOk(dialect, Scan(dialect, origin, t, cur, buf, toks).value)
    decreases Measure(dialect, origin), |origin|, 0, |t| - cur, 1
  {
    if cur == |t| {
      FlushOk(dialect, t, cur, buf, toks, Scope);
    } else if t[cur] == '{' {
      TmpNamesOk(dialect, origin, t, cur, buf, toks);
    } else if IsOpener(t[cur]) {
      GroupNamesOk(dialect, origin, t, cur, buf, toks);
    } else if ScopeAt(t, cur) {
      FlushOk(dialect, t, cur, buf, toks, Scope);
      ScanNamesOk(dialect, origin, t, cur + 2, "", Flush(toks, buf) + [Scope]);
    } else if !IsNameChar(dialect, t[cur]) {
      FlushOk(dialect, t, cur, buf, toks, Boundary);
      ScanNamesOk(dialect, origin, t, cur + 1, "", Flush(toks, buf) + [Boundary]);
    } else {
      BufferStep(dialect, t, cur, buf);
      ScanNamesOk(dialect, origin, t, cur + 1, buf + [t[cur]], toks);
    }
  }

  /** The '{' case of `ScanNamesOk`: a TMP token holds no NAME. */
  lemma {:induction false} TmpNamesOk(dialect: Dialect, origin: string, t: string, cur: nat, buf: string, toks: seq<Token>)
    requires Bounded(dialect, origin, t) && cur < |t| && t[cur] == '{'
    requires TokensOk(dialect, toks) && BufOk(dialect, t, cur, buf)
    requires Scan(dialect, origin, t, cur, buf, toks).Ok?
    ensures TokensOk(dialect, Scan(dialect, origin, t, cur, buf, toks).value)
    decreases Measure(dialect, origin), |origin|, 0, |t| - cur, 0
  {
    assert Scan(dialect, origin, t, cur, buf, toks) == ScanNested(dialect, origin, t, cur, buf, toks);
    var (inner, close) := Cut(t, cur).value;
    FlushOk(dialect, t, cur, buf, toks, Tmp(inner));
    ScanNamesOk(dialect, origin, t, close + 1, "", Flush(toks, buf) + [Tmp(inner)]);
  }

  /** The '<', '(' and '[' case of `ScanNamesOk`: each argument is parsed again. */
  lemma {:induction false} GroupNamesOk(dialect: Dialect, origin: string, t: string, cur: nat, buf: string, toks: seq<Token>)
    requires Bounded(dialect, origin, t) && cur < |t| && IsOpener(t[cur]) && t[cur] != '{'
    requires TokensOk(dialect, toks) && BufOk(dialect, t, cur, buf)
    requires Scan(dialect, origin, t, cur, buf, toks).Ok?
    ensures TokensOk(dialect, Scan(dialect, origin, t, cur, buf, toks).value)
    decreases Measure(dialect, origin), |origin|, 0, |t| - cur, 0
  {
    var close, pieces, args := ScanGroup(dialect, origin, t, cur, buf, toks);
    PiecesNamesOk(dialect, origin, pieces);
    GroupOk(dialect, t[cur], args);
    FlushOk(dialect, t, cur, buf, toks, Group(t[cur], args));
    ScanNamesOk(dialect, origin, t, close + 1, "", Flush(toks, buf) + [Group(t[cur], args)]);
  }

  /**
   * A successful scan at a '<', '(' or '[' parses the pieces of its
   * contents and goes on after the closer with their group as a token.
   */
  lemma ScanGroup(dialect: Dialect, origin: string, t: string, cur: nat, buf: string, toks: seq<Token>)
      returns (close: nat, pieces: seq<string>, args: seq<Argument>)
    requires Bounded(dialect, origin, t) && cur < |t| && IsOpener(t[cur]) && t[cur] != '{'
    requires Scan(dialect, origin, t, cur, buf, toks).Ok?
    ensures cur < close < |t|
    ensures forall k :: 0 <= k < |pieces| ==> Smaller(dialect, pieces[k], origin)
    ensures ParsePieces(dialect, origin, pieces) == Ok(args)
    ensures Scan(dialect, origin, t, cur, buf, toks) == Scan(dialect, origin, t, close + 1, "", Flush(toks, buf) + [Group(t[cur], args)])
  {
    assert Scan(dialect, origin, t, cur, buf, toks) == ScanNested(dialect, origin, t, cur, buf, toks);
    var inner := Cut(t, cur).value.0;
    close := Cut(t, cur).value.1;
    SplitOfCut(dialect, t, cur);
    pieces := Split(dialect, inner).value;
    PiecesSmaller(dialect, origin, t, cur, pieces);
    args := ParsePieces(dialect, origin, pieces).value;
  }

  lemma NameRunTail(dialect: Dialect, n: string)
    requires |n| > 0 && NameRun(dialect, n)
    ensures NameRun(dialect, n[1..])
  {
    assert forall k :: 0 <= k < |n| - 1 ==> n[1..][k] == n[k + 1];
  }

  /**
   * Over a run of NAME characters with no "::" in it, and none formed with
   * the character after it, `_Parse` only buffers: scanning from `cur` is
   * scanning from the end of the run with the run added to the pending NAME.
   */
  lemma {:induction false} ScanBuffers(dialect: Dialect, origin: string, t: string, cur: nat, n: string, buf: string, toks: seq<Token>)
    requires Bounded(dialect, origin, t) && cur + |n| <= |t| && t[cur..cur + |n|] == n
    requires NameRun(dialect, n)
    requires |n| > 0 && cur + |n| < |t| ==> n[|n| - 1] != ':' || t[cur + |n|] != ':'
    ensures Scan(dialect, origin, t, cur, buf, toks) == Scan(dialect, origin, t, cur + |n|, buf + n, toks)
    decreases |n|
  {
    if |n| == 0 {
      assert buf + n == buf;
    } else {
      var rest := n[1..];
      assert t[cur] == n[0] by {
        assert t[cur..cur + |n|][0] == t[cur];
      }
      assert cur + 1 < |t| ==> !(t[cur] == ':' && t[cur + 1] == ':') by {
        if |n| > 1 {
          assert t[cur..cur + |n|][1] == t[cur + 1];
        }
      }
      ScanBuffer(dialect, origin, t, cur, buf, toks);
      assert t[cur + 1..cur + 1 + |rest|] == rest by {
        assert t[cur + 1..cur + 1 + |rest|] == t[cur..cur + |n|][1..];
      }
      NameRunTail(dialect, n);
      assert |rest| > 0 ==> rest[|rest| - 1] == n[|n| - 1];
      ScanBuffers(dialect, origin, t, cur + 1, rest, buf + [n[0]], toks);
      BufferAppend(buf, n);
    }
  }

  lemma BufferAppend(buf: string, n: string)
    requires |n| > 0
    ensures buf + [n[0]] + n[1..] == buf + n
  {
    assert [n[0]] + n[1..] == n;
  }

  /** A NAME character that is neither an opener nor the start of "::" is buffered. */
  lemma ScanNameChar(dialect: Dialect, origin: string, t: string, cur: nat, buf: string, toks: seq<Token>)
    requires Bounded(dialect, origin, t) && cur < |t| && !IsOpener(t[cur])
    requires !ScopeAt(t, cur) && IsNameChar(dialect, t[cur])
    ensures Scan(dialect, origin, t, cur, buf, toks) == Scan(dialect, origin, t, cur + 1, buf + [t[cur]], toks)
  {
  }

  /** An opener whose nesting never closes fails the scan; '{' makes a TMP of the raw contents. */
  lemma ScanCut(dialect: Dialect, origin: string, t: string, cur: nat, buf: string, toks: seq<Token>)
    requires Bounded(dialect, origin, t) && cur < |t| && IsOpener(t[cur])
    ensures Cut(t, cur).Err? ==> Scan(dialect, origin, t, cur, buf, toks) == Err(Cut(t, cur).error)
    ensures Cut(t, cur).Ok? && t[cur] == '{' ==>
      Scan(dialect, origin, t, cur, buf, toks)
        == Scan(dialect, origin, t, Cut(t, cur).value.1 + 1, "", Flush(toks, buf) + [Tmp(Cut(t, cur).value.0)])
  {
    assert Scan(dialect, origin, t, cur, buf, toks) == ScanNested(dialect, origin, t, cur, buf, toks);
  }

  /**
   * At '<', '(' or '[' the pieces of the contents are parsed in order; the
   * first failure fails the scan, and otherwise their group is the next token.
   */
  lemma ScanArguments(dialect: Dialect, origin: string, t: string, cur: nat, buf: string, toks: seq<Token>, pieces: seq<string>)
    requires Bounded(dialect, origin, t) && cur < |t| && IsOpener(t[cur]) && t[cur] != '{'
    requires Cut(t, cur).Ok? && Split(dialect, Cut(t, cur).value.0) == Ok(pieces)
    ensures forall k :: 0 <= k < |pieces| ==> Smaller(dialect, pieces[k], origin)
    ensures ParsePieces(dialect, origin, pieces).Err? ==>
      Scan(dialect, origin, t, cur, buf, toks) == Err(ParsePieces(dialect, origin, pieces).error)
    ensures ParsePieces(dialect, origin, pieces).Ok? ==>
      Scan(dialect, origin, t, cur, buf, toks)
        == Scan(dialect, origin, t, Cut(t, cur).value.1 + 1, "", Flush(toks, buf) + [Group(t[cur], ParsePieces(dialect, origin, pieces).value)])
  {
    assert Scan(dialect, origin, t, cur, buf, toks) == ScanNested(dialect, origin, t, cur, buf, toks);
    PiecesSmaller(dialect, origin, t, cur, pieces);
  }

  /** Parsing one piece more: the earlier pieces first, then the new one. */
  lemma ParsePiecesPrefix(dialect: Dialect, origin: string, pieces: seq<string>, k: nat)
    requires forall j :: 0 <= j < |pieces| ==> Smaller(dialect, pieces[j], origin)
    requires k < |pieces|
    ensures ParsePieces(dialect, origin, pieces[..k + 1]) ==
      match ParsePieces(dialect, origin, pieces[..k])
      case Err(e) => Err(e)
      case Ok(args) =>
        match Parse(dialect, pieces[k])
        case Err(e) => Err(e)
        case Ok(toks) => Ok(args + [Argument(toks)])
  {
    assert pieces[..k + 1][..k] == pieces[..k];
  }

  /** Once a piece fails to parse, the pieces after it are never looked at. */
  lemma {:induction false} ParsePiecesStops(dialect: Dialect, origin: string, pieces: seq<string>, k: nat)
    requires forall j :: 0 <= j < |pieces| ==> Smaller(dialect, pieces[j], origin)
    requires k <= |pieces| && ParsePieces(dialect, origin, pieces[..k]).Err?
    ensures ParsePieces(dialect, origin, pieces) == ParsePieces(dialect, origin, pieces[..k])
    decreases |pieces|
  {
    if k == |pieces| {
      assert pieces[..k] == pieces;
    } else {
      var front := pieces[..|pieces| - 1];
      assert front[..k] == pieces[..k];
      ParsePiecesStops(dialect, origin, front, k);
    }
  }

  /** A NAME character that does not start "::" goes to the buffer. */
  lemma ScanBuffer(dialect: Dialect, origin: string, t: string, cur: nat, buf: string, toks: seq<Token>)
    requires Bounded(dialect, origin, t) && cur < |t| && IsNameChar(dialect, t[cur])
    requires cur + 1 < |t| ==> !(t[cur] == ':' && t[cur + 1] == ':')
    ensures Scan(dialect, origin, t, cur, buf, toks) == Scan(dialect, origin, t, cur + 1, buf + [t[cur]], toks)
  {
  }

  /** Neither sanitizer changes a text without spaces, '(' or "operator". */
  lemma SanitizeKeepsPlainText(dialect: Dialect, d: string)
    requires ' ' !in d && '(' !in d && !Contains(d, Operator)
    ensures Sanitize(dialect, d) == Ok(d)
    ensures Bounded(dialect, d, d)
  {
    AbsentCharNotFound(d, ", ", 1, 0);
    AbsentCharNotFound(d, "> >", 1, 0);
    AbsentCharNotFound(d, "operator()", 8, 0);
    NotContainsOccZero(d);
    if dialect == CSharp {
      ReplaceAllNotFound(d, ", ", ",");
      ReplaceAllNotFound(d, "> >", ">>");
      ReplaceAllNotFound(d, "operator()", "op#2829");
      assert NetSanitize.Replacements(d) == d;
    } else {
      CppStrings.ReplaceInPlaceFound(d, "> >", ">>", 0);
      CppStrings.ReplaceInPlaceFound(d, ", ", ",", 0);
      CppStrings.ReplaceInPlaceFound(d, "operator()", "op#2829", 0);
    }
  }

  /** `Parse` is the scan of the sanitized text. */
  lemma ParseScans(dialect: Dialect, d: string, t: string)
    requires Sanitize(dialect, d) == Ok(t) && Bounded(dialect, d, t)
    ensures Parse(dialect, d) == Scan(dialect, d, t, 0, "", [])
  {
  }

  /** "::" flushes the pending NAME, adds a SCOPE and skips both colons. */
  lemma ScanScope(dialect: Dialect, origin: string, t: string, cur: nat, buf: string, toks: seq<Token>)
    requires Bounded(dialect, origin, t) && ScopeAt(t, cur)
    ensures Scan(dialect, origin, t, cur, buf, toks) == Scan(dialect, origin, t, cur + 2, "", Flush(toks, buf) + [Scope])
  {
  }

  /** A character outside the NAME set flushes the pending NAME and adds a BOUNDARY. */
  lemma ScanBoundary(dialect: Dialect, origin: string, t: string, cur: nat, buf: string, toks: seq<Token>)
    requires Bounded(dialect, origin, t) && cur < |t|
    requires !IsOpener(t[cur]) && t[cur] != ':' && !IsNameChar(dialect, t[cur])
    ensures Scan(dialect, origin, t, cur, buf, toks) == Scan(dialect, origin, t, cur + 1, "", Flush(toks, buf) + [Boundary])
  {
  }

  /** At the end of the text the pending NAME is flushed. */
  lemma ScanEnd(dialect: Dialect, origin: string, t: string, buf: string, toks: seq<Token>)
    requires Bounded(dialect, origin, t)
    ensures Scan(dialect, origin, t, |t|, buf, toks) == Ok(Flush(toks, buf))
  {
  }

  /** A good NAME without "operator" parses to itself, in either dialect. */
  lemma ParseName(dialect: Dialect, d: string)
    requires NameOk(dialect, d) && !Contains(d, Operator)
    ensures Parse(dialect, d) == Ok([Name(d)])
  {
    PlainName(dialect, d);
    SanitizeKeepsPlainText(dialect, d);
    ParseScans(dialect, d, d);
    var none: seq<Token> := [];
    assert d[0..|d|] == d;
    ScanBuffers(dialect, d, d, 0, d, "", none);
    assert "" + d == d;
    ScanEnd(dialect, d, d, d, none);
    assert Flush(none, d) == [Name(d)];
  }

  /** NAME characters include neither a space nor '('. */
  lemma PlainName(dialect: Dialect, n: string)
    requires NameRun(dialect, n)
    ensures ' ' !in n && '(' !in n
  {
  }

  /**
   * Scanning a NAME that starts a text at `cur` and ends where a SCOPE or
   * a BOUNDARY character follows it: the NAME is buffered whole.
   */
  lemma ScanNameAt(dialect: Dialect, origin: string, t: string, cur: nat, n: string, toks: seq<Token>)
    requires Bounded(dialect, origin, t) && cur + |n| <= |t| && t[cur..cur + |n|] == n
    requires NameOk(dialect, n)
    requires cur + |n| < |t| ==> n[|n| - 1] != ':' || t[cur + |n|] != ':'
    ensures Scan(dialect, origin, t, cur, "", toks) == Scan(dialect, origin, t, cur + |n|, n, toks)
  {
    ScanBuffers(dialect, origin, t, cur, n, "", toks);
    assert "" + n == n;
  }

  /** A NAME not ending in ':' followed by "::" gives NAME and SCOPE. */
  lemma ScanNameScope(dialect: Dialect, origin: string, t: string, cur: nat, n: string, toks: seq<Token>)
    requires Bounded(dialect, origin, t) && cur + |n| + 2 <= |t|
    requires t[cur..cur + |n|] == n && ScopeAt(t, cur + |n|)
    requires NameOk(dialect, n) && n[|n| - 1] != ':'
    ensures Scan(dialect, origin, t, cur, "", toks) == Scan(dialect, origin, t, cur + |n| + 2, "", toks + [Name(n), Scope])
  {
    ScanNameAt(dialect, origin, t, cur, n, toks);
    ScanScope(dialect, origin, t, cur + |n|, n, toks);
    assert Flush(toks, n) + [Scope] == toks + [Name(n), Scope];
  }

  /** A NAME followed by a character outside the NAME set gives NAME and BOUNDARY. */
  lemma ScanNameBoundary(dialect: Dialect, origin: string, t: string, cur: nat, n: string, toks: seq<Token>)
    requires Bounded(dialect, origin, t) && cur + |n| < |t| && t[cur..cur + |n|] == n
    requires NameOk(dialect, n)
    requires var c := t[cur + |n|]; !IsOpener(c) && c != ':' && !IsNameChar(dialect, c)
    ensures Scan(dialect, origin, t, cur, "", toks) == Scan(dialect, origin, t, cur + |n| + 1, "", toks + [Name(n), Boundary])
  {
    ScanNameAt(dialect, origin, t, cur, n, toks);
    ScanBoundary(dialect, origin, t, cur + |n|, n, toks);
    assert Flush(toks, n) + [Boundary] == toks + [Name(n), Boundary];
  }

  /** A NAME that ends the text is its last token. */
  lemma ScanLastName(dialect: Dialect, origin: string, t: string, cur: nat, n: string, toks: seq<Token>)
    requires Bounded(dialect, origin, t) && cur + |n| == |t| && t[cur..] == n
    requires NameOk(dialect, n)
    ensures Scan(dialect, origin, t, cur, "", toks) == Ok(toks + [Name(n)])
  {
    assert t[cur..cur + |n|] == n;
    ScanNameAt(dialect, origin, t, cur, n, toks);
    ScanEnd(dialect, origin, t, n, toks);
  }

  /** A text without spaces, '(' or "operator" is scanned as it is. */
  lemma ParsePlain(dialect: Dialect, d: string)
    requires ' ' !in d && '(' !in d && !Contains(d, Operator)
    ensures Bounded(dialect, d, d)
    ensures Parse(dialect, d) == Scan(dialect, d, d, 0, "", [])
  {
    SanitizeKeepsPlainText(dialect, d);
    ParseScans(dialect, d, d);
  }

  /**
   * "::" is checked before ':' is buffered: two NAMEs joined by "::" give
   * NAME, SCOPE, NAME in both dialects, as long as the first does not end
   * in ':' (which would make the first two colons the SCOPE).
   */
  lemma ScopeBetweenNames(dialect: Dialect, a: string, b: string)
    requires NameOk(dialect, a) && NameOk(dialect, b) && a[|a| - 1] != ':'
    requires !Contains(a + "::" + b, Operator)
    ensures Parse(dialect, a + "::" + b) == Ok([Name(a), Scope, Name(b)])
  {
    var d := a + "::" + b;
    var none: seq<Token> := [];
    PlainName(dialect, a);
    PlainName(dialect, b);
    ParsePlain(dialect, d);
    assert d[0..|a|] == a && d[|a|] == ':' && d[|a| + 1] == ':' && d[|a| + 2..] == b;
    ScanNameScope(dialect, d, d, 0, a, none);
    var toks := none + [Name(a), Scope];
    ScanLastName(dialect, d, d, |a| + 2, b, toks);
    assert toks + [Name(b)] == [Name(a), Scope, Name(b)];
  }

  /** Every C# NAME character is a C++ one. */
  lemma CsNameRunIsCpp(n: string)
    requires NameRun(CSharp, n)
    ensures NameRun(Cpp, n)
  {
  }

  /** Two NAME runs joined by a NAME character other than ':' make one run. */
  lemma NameRunJoin(dialect: Dialect, a: string, c: char, b: string)
    requires NameRun(dialect, a) && NameRun(dialect, b) && IsNameChar(dialect, c) && c != ':'
    ensures NameRun(dialect, a + [c] + b)
  {
    var d := a + [c] + b;
    forall k | 0 <= k < |d|
      ensures IsNameChar(dialect, d[k])
    {
      if k < |a| {
        assert d[k] == a[k];
      } else if k > |a| {
        assert d[k] == b[k - |a| - 1];
      }
    }
    forall k | 0 <= k < |d| - 1
      ensures !(d[k] == ':' && d[k + 1] == ':')
    {
      if k + 1 < |a| {
        assert d[k] == a[k] && d[k + 1] == a[k + 1];
      } else if k > |a| {
        assert d[k] == b[k - |a| - 1] && d[k + 1] == b[k - |a|];
      } else if k == |a| {
        assert d[k] == c;
      } else {
        assert d[k + 1] == c;
      }
    }
  }

  /** '.' is a NAME character of the C++ tokenizer: two NAMEs around it make one. */
  lemma DotJoinsCppNames(a: string, b: string)
    requires NameOk(CSharp, a) && NameOk(CSharp, b)
    requires !Contains(a + "." + b, Operator)
    ensures Parse(Cpp, a + "." + b) == Ok([Name(a + "." + b)])
  {
    CsNameRunIsCpp(a);
    CsNameRunIsCpp(b);
    NameRunJoin(Cpp, a, '.', b);
    assert a + "." + b == a + ['.'] + b;
    ParseName(Cpp, a + "." + b);
  }

  /** '.' is not a NAME character of the C# tokenizer: between two NAMEs it is a BOUNDARY. */
  lemma DotSeparatesCsNames(a: string, b: string)
    requires NameOk(CSharp, a) && NameOk(CSharp, b)
    requires !Contains(a + "." + b, Operator)
    ensures Parse(CSharp, a + "." + b) == Ok([Name(a), Boundary, Name(b)])
  {
    var d := a + "." + b;
    var none: seq<Token> := [];
    PlainName(CSharp, a);
    PlainName(CSharp, b);
    ParsePlain(CSharp, d);
    assert d[0..|a|] == a && d[|a|] == '.' && d[|a| + 1..] == b;
    ScanNameBoundary(CSharp, d, d, 0, a, none);
    var toks := none + [Name(a), Boundary];
    ScanLastName(CSharp, d, d, |a| + 1, b, toks);
    assert toks + [Name(b)] == [Name(a), Boundary, Name(b)];
  }
}
