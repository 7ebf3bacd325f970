/**
 * The C# tokenizer (ParserExample.cs) as the class it is: a parser object
 * holding the sanitized text, the cursor `Current` and the token list
 * `Tokens`, whose `_Parse` loop advances the cursor and appends tokens,
 * and whose static `Parse` builds one parser per text, recursively for
 * every bracket argument.  Each method is proved to compute what the
 * functions of Tokenizer, NetSanitize and SymbolTokens specify; an
 * exception is an `Err` result.
 */
module SymbolParserCs {
  import opened Wrappers
  import opened Text
  import opened OperatorCount
  import opened SymbolTokens
  import opened Tokenizer
  import NetSanitize

  class Parser {
    /** The `Demangled` property: the sanitized text this parser reads. */
    const demangled: string
    var current: nat
    var tokens: seq<Token>

    constructor (demangled: string)
      ensures this.demangled == demangled && current == 0 && tokens == []
    {
      this.demangled := demangled;
      current := 0;
      tokens := [];
    }

    /**
     * The three fixed replacements, then the loop that rewrites the first
     * remaining "operator<op>(" until none is left.
     */
    static method Sanitize(demangled: string) returns (r: Result<string, ParseError>)
      ensures r == NetSanitize.Sanitize(demangled)
    {
      var result := ReplaceAll(ReplaceAll(ReplaceAll(demangled, ", ", ","), "> >", ">>"), "operator()", "op#2829");
      while Contains(result, Operator)
        invariant NetSanitize.OperatorLoop(result) == NetSanitize.OperatorLoop(NetSanitize.Replacements(demangled))
        decreases Occ(result)
      {
        var opIndex := FindFrom(result, Operator, 0).value;
        var endIndex := FindFrom(result, "(", opIndex);
        if endIndex.None? {
          return Err(NoParenthesis(opIndex));
        }
        NetSanitize.OperatorRewrite(result, opIndex, endIndex.value);
        var op := result[opIndex + |Operator|..endIndex.value];
        result := ReplaceAll(result, Operator + op, "op#" + NetSanitize.OpHex(op));
      }
      return Ok(result);
    }

    /** `Parse`: a parser over the sanitized text runs `_Parse`, and its tokens are the result. */
    static method Parse(demangled: string) returns (r: Result<seq<Token>, ParseError>)
      decreases Measure(CSharp, demangled), |demangled|, 1, 0
      ensures r == Tokenizer.Parse(CSharp, demangled)
    {
      var sanitized := Sanitize(demangled);
      if sanitized.Err? {
        return Err(sanitized.error);
      }
      SanitizeBounded(CSharp, demangled);
      var parser := new Parser(sanitized.value);
      var result := parser.ParseLoop(demangled);
      if result.Err? {
        return result;
      }
      return Ok(parser.tokens);
    }

    /** `_Split(...).Select(d => Parse(d))`: each piece parsed in order, the first failure ending it. */
    static method ParseArguments(pieces: seq<string>, ghost origin: string) returns (r: Result<seq<Argument>, ParseError>)
      requires forall k :: 0 <= k < |pieces| ==> Smaller(CSharp, pieces[k], origin)
      decreases Measure(CSharp, origin), |origin|, 0, 0
      ensures r == ParsePieces(CSharp, origin, pieces)
    {
      var args: seq<Argument> := [];
      var k := 0;
      while k < |pieces|
        invariant k <= |pieces|
        invariant ParsePieces(CSharp, origin, pieces[..k]) == Ok(args)
      {
        SmallerDecreases(CSharp, pieces[k], origin);
        var toks := Parse(pieces[k]);
        ParsePiecesPrefix(CSharp, origin, pieces, k);
        if toks.Err? {
          ParsePiecesStops(CSharp, origin, pieces, k + 1);
          return Err(toks.error);
        }
        args := args + [Argument(toks.value)];
        k := k + 1;
      }
      assert pieces[..k] == pieces;
      return Ok(args);
    }

    /**
     * `_Parse`: one pass of the cursor over the text with a pending NAME in
     * `buf`; `origin` is the text before sanitizing, which only bounds the
     * recursion.
     */
    method ParseLoop(ghost origin: string) returns (r: Result<seq<Token>, ParseError>)
      requires Bounded(CSharp, origin, demangled) && current == 0 && tokens == []
      modifies this
      decreases Measure(CSharp, origin), |origin|, 0, 2
      ensures r == Scan(CSharp, origin, demangled, 0, "", [])
      ensures r.Ok? ==> tokens == r.value
    {
      ghost var goal := Scan(CSharp, origin, demangled, 0, "", []);
      var buf := "";
      while current < |demangled|
        invariant current <= |demangled|
        invariant Scan(CSharp, origin, demangled, current, buf, tokens) == goal
        decreases |demangled| - current
      {
        if IsOpener(demangled[current]) {
          var failure := ParseNesting(origin, buf, goal);
          if failure.Some? {
            return Err(failure.value);
          }
          buf := "";
        } else {
          buf := ParseSimple(origin, buf, goal);
        }
        current := current + 1;
      }
      ScanEnd(CSharp, origin, demangled, buf, tokens);
      if |buf| > 0 {
        tokens := tokens + [Name(buf)];
      }
      return Ok(tokens);
    }

    /**
     * The other branches of `_Parse`'s loop: "::" flushes the pending NAME
     * and adds a SCOPE, leaving the cursor on the second colon; a character
     * outside the NAME set flushes it and adds a BOUNDARY; a NAME character
     * is buffered.  `next` is the pending NAME afterwards.
     */
    method ParseSimple(ghost origin: string, buf: string, ghost goal: Result<seq<Token>, ParseError>) returns (next: string)
      requires Bounded(CSharp, origin, demangled) && current < |demangled| && !IsOpener(demangled[current])
      requires Scan(CSharp, origin, demangled, current, buf, tokens) == goal
      modifies this`current, this`tokens
      ensures old(current) <= current < |demangled|
      ensures Scan(CSharp, origin, demangled, current + 1, next, tokens) == goal
    {
      var c := demangled[current];
      var scope := CheckToken("::");
      ScopeAtOccurs(demangled, current);
      if scope {
        ScanScope(CSharp, origin, demangled, current, buf, tokens);
        ghost var after := Flush(tokens, buf) + [Scope];
        if |buf| > 0 {
          tokens := tokens + [Name(buf)];
        }
        tokens := tokens + [Scope];
        assert tokens == after;
        current := current + 1;
        next := "";
      } else if !IsNameChar(CSharp, c) {
        ScanBoundary(CSharp, origin, demangled, current, buf, tokens);
        ghost var after := Flush(tokens, buf) + [Boundary];
        if |buf| > 0 {
          tokens := tokens + [Name(buf)];
        }
        tokens := tokens + [Boundary];
        assert tokens == after;
        next := "";
      } else {
        ScanNameChar(CSharp, origin, demangled, current, buf, tokens);
        next := buf + [c];
      }
    }

    /**
     * The opener branch of `_Parse`'s loop: flush the pending NAME, cut out
     * the bracket's contents, and add a TMP for '{' or, for the other
     * openers, the group of the parsed pieces; the cursor is left on the
     * closer.  A failure is the exception that ends the parse.
     */
    method ParseNesting(ghost origin: string, buf: string, ghost goal: Result<seq<Token>, ParseError>) returns (failure: Option<ParseError>)
      requires Bounded(CSharp, origin, demangled) && current < |demangled| && IsOpener(demangled[current])
      requires Scan(CSharp, origin, demangled, current, buf, tokens) == goal
      modifies this
      decreases Measure(CSharp, origin), |origin|, 0, 1
      ensures failure.Some? ==> goal == Err(failure.value)
      ensures failure.None? ==> old(current) < current < |demangled| && Scan(CSharp, origin, demangled, current + 1, "", tokens) == goal
    {
      var c := demangled[current];
      ScanCut(CSharp, origin, demangled, current, buf, tokens);
      ghost var at := current;
      ghost var before := tokens;
      if |buf| > 0 {
        tokens := tokens + [Name(buf)];
      }
      assert tokens == Flush(before, buf);
      var inner := Cut();
      if inner.Err? {
        return Some(inner.error);
      }
      if c == '{' {
        tokens := tokens + [Tmp(inner.value)];
        return None;
      }
      var pieces := Split(inner.value);
      SplitOfCut(CSharp, demangled, at);
      ScanArguments(CSharp, origin, demangled, at, buf, before, pieces.value);
      var args := ParseArguments(pieces.value, origin);
      if args.Err? {
        return Some(args.error);
      }
      var token: Token;
      if c == '<' {
        token := Template(args.value);
      } else if c == '(' {
        token := Bracket(args.value);
      } else {
        token := SquareBracket(args.value);
      }
      assert token == Group(c, args.value);
      tokens := tokens + [token];
      return None;
    }

    /** `_Check_Token`: whether `str` occurs at the cursor, entirely within the text. */
    method CheckToken(str: string) returns (b: bool)
      ensures b == OccursAt(demangled, str, current)
    {
      if current + |str| > |demangled| {
        return false;
      }
      var i := 0;
      while i < |str|
        invariant i <= |str|
        invariant forall j :: 0 <= j < i ==> str[j] == demangled[current + j]
      {
        if str[i] != demangled[current + i] {
          return false;
        }
        i := i + 1;
      }
      assert demangled[current..current + |str|] == str;
      return true;
    }

    /**
     * `_Cut`: from the opener at the cursor, count the nesting up to the
     * closer that brings it back to zero, leave the cursor on that closer
     * and give the text in between.
     */
    method Cut() returns (r: Result<string, ParseError>)
      requires current < |demangled|
      modifies this`current
      ensures match SymbolTokens.Cut(demangled, old(current))
        case Ok(v) => r == Ok(v.0) && current == v.1
        case Err(e) => r == Err(e)
    {
      var nest := 0;
      var offset := current;
      if !IsOpener(demangled[current]) {
        return Err(NotAnOpener(offset));
      }
      while current < |demangled|
        invariant offset <= current <= |demangled|
        invariant CutFrom(demangled, current, nest) == CutFrom(demangled, offset, 0)
        decreases |demangled| - current
      {
        if IsOpener(demangled[current]) {
          nest := nest + 1;
        } else if IsCloser(demangled[current]) {
          nest := nest - 1;
          if nest == 0 {
            break;
          }
        }
        current := current + 1;
      }
      if nest > 0 || current == |demangled| || !IsCloser(demangled[current]) {
        return Err(Unclosed(offset));
      }
      return Ok(demangled[offset + 1..current]);
    }

    /** `_Split`: cut at every comma outside brackets, always keeping the last piece. */
    method Split(target: string) returns (r: Result<seq<string>, ParseError>)
      ensures r == SplitCs(target)
    {
      var nest := 0;
      var offset := 0;
      var list: seq<string> := [];
      var i := 0;
      while i < |target|
        invariant offset <= i <= |target|
        invariant AllFit(list, target)
        invariant SplitFrom(target, i, SplitState(list, offset, nest)) == SplitLoop(target)
      {
        if IsOpener(target[i]) {
          nest := nest + 1;
        } else if IsCloser(target[i]) {
          nest := nest - 1;
        } else if target[i] == ',' && nest == 0 {
          OccSlice(target, offset, i);
          list := list + [target[offset..i]];
          offset := i + 1;
        }
        i := i + 1;
      }
      if nest > 0 {
        return Err(SplitUnclosed);
      }
      list := list + [target[offset..]];
      return Ok(list);
    }
  }
}
