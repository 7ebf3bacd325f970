/**
 * The C++ tokenizer (ParserExample.cpp) as the class it is, with its
 * static string helpers `ReplaceInPlace`, `ToHex` and `Sanitize`.  The
 * parsing methods follow the C# ones except for the NAME characters and
 * the last piece of `_Split`; `Sanitize` returns `Diverges` where the
 * source's operator loop would run forever.  Each method is proved to
 * compute what the functions of Tokenizer, CppStrings and SymbolTokens
 * specify; an exception is an `Err` result.
 */
module SymbolParserCpp {
  import opened Wrappers
  import opened Text
  import opened OperatorCount
  import opened SymbolTokens
  import opened Tokenizer
  import opened CppStrings

  class Parser {
    /** The `Demangled` property: the sanitized text this parser reads. */
    const demangled: string
    var current: nat
    var tokens: seq<Token>

    constructor (demangled: string)
      ensures this.demangled == demangled && current == 0 && tokens == []
    {
      this.demangled := demangled;
      current := 0;
      tokens := [];
    }

    /**
     * `ReplaceInPlace`: at each match from the search position, overwrite
     * as many characters as `newValue` has and search again after them.
     */
    static method ReplaceInPlace(str: string, oldValue: string, newValue: string) returns (r: string)
      requires |oldValue| > 0 && |newValue| > 0
      ensures r == ReplaceInPlaceFrom(str, oldValue, newValue, 0)
    {
      r := str;
      var index: nat := 0;
      var found := FindFrom(r, oldValue, index);
      while found.Some?
        invariant found == FindFrom(r, oldValue, index)
        invariant ReplaceInPlaceFrom(r, oldValue, newValue, index) == ReplaceInPlaceFrom(str, oldValue, newValue, 0)
        decreases |r| - index
      {
        ReplaceInPlaceFound(r, oldValue, newValue, index);
        index := found.value;
        r := Overwrite(r, index, newValue);
        index := index + |newValue|;
        found := FindFrom(r, oldValue, index);
      }
      ReplaceInPlaceFound(r, oldValue, newValue, index);
    }

    /** `ToHex`: each character's byte as two upper-case hexadecimal digits, high nibble first. */
    static method ToHex(str: string) returns (result: string)
      ensures result == Hex(str)
    {
      result := "";
      var i := 0;
      while i < |str|
        invariant i <= |str|
        invariant result == Hex(str[..i])
      {
        var c := Byte(str[i]);
        result := result + [HexDigit(c / 16)];
        result := result + [HexDigit(c % 16)];
        assert str[..i + 1][..i] == str[..i];
        i := i + 1;
      }
      assert str[..i] == str;
    }

    /**
     * `Sanitize`: the three rewrites in place, then the operator loop.  The
     * loop searches the unchanged `str` from an `index` it never moves, so
     * once it finds an "operator" it finds the same one on every turn: one
     * turn is run and the loop is reported as `Diverges` at that position.
     */
    static method Sanitize(str: string) returns (r: Result<string, ParseError>)
      ensures r == CppStrings.Sanitize(str)
    {
      var result := str;
      result := ReplaceInPlace(result, "> >", ">>");
      result := ReplaceInPlace(result, ", ", ",");
      result := ReplaceInPlace(result, "operator()", "op#2829");
      var index := FindFrom(str, Operator, 0);
      if index.Some? {
        var i := index.value;
        OperatorLoopStuck(str);
        var paren := FindFrom(str, "(", i);
        var end := if paren.Some? && i + |Operator| <= paren.value then paren.value else |str|;
        var op := str[i + |Operator|..end];
        var hex := ToHex(op);
        result := ReplaceInPlace(result, Operator + op, "op#" + hex);
        assert FindFrom(str, Operator, i) == Some(i);
        return Err(Diverges(i));
      }
      return Ok(result);
    }

    /** `Parse`: a parser over the sanitized text runs `_Parse`, and its tokens are the result. */
    static method Parse(demangled: string) returns (r: Result<seq<Token>, ParseError>)
      decreases Measure(Cpp, demangled), |demangled|, 1, 0
      ensures r == Tokenizer.Parse(Cpp, demangled)
    {
      var sanitized := Sanitize(demangled);
      if sanitized.Err? {
        return Err(sanitized.error);
      }
      SanitizeBounded(Cpp, demangled);
      var parser := new Parser(sanitized.value);
      var result := parser.ParseLoop(demangled);
      if result.Err? {
        return result;
      }
      return Ok(parser.tokens);
    }

    /** `args.push_back(Parse(token))` for each piece of `_Split(_Cut())`: each piece parsed in order, the first failure ending it. */
    static method ParseArguments(pieces: seq<string>, ghost origin: string) returns (r: Result<seq<Argument>, ParseError>)
      requires forall k :: 0 <= k < |pieces| ==> Smaller(Cpp, pieces[k], origin)
      decreases Measure(Cpp, origin), |origin|, 0, 0
      ensures r == ParsePieces(Cpp, origin, pieces)
    {
      var args: seq<Argument> := [];
      var k := 0;
      while k < |pieces|
        invariant k <= |pieces|
        invariant ParsePieces(Cpp, origin, pieces[..k]) == Ok(args)
      {
        SmallerDecreases(Cpp, pieces[k], origin);
        var toks := Parse(pieces[k]);
        ParsePiecesPrefix(Cpp, origin, pieces, k);
        if toks.Err? {
          ParsePiecesStops(Cpp, origin, pieces, k + 1);
          return Err(toks.error);
        }
        args := args + [Argument(toks.value)];
        k := k + 1;
      }
      assert pieces[..k] == pieces;
      return Ok(args);
    }

    /**
     * `_Parse`: one pass of the cursor over the text with a pending NAME in
     * `buf`; `origin` is the text before sanitizing, which only bounds the
     * recursion.
     */
    method ParseLoop(ghost origin: string) returns (r: Result<seq<Token>, ParseError>)
      requires Bounded(Cpp, origin, demangled) && current == 0 && tokens == []
      modifies this
      decreases Measure(Cpp, origin), |origin|, 0, 2
      ensures r == Scan(Cpp, origin, demangled, 0, "", [])
      ensures r.Ok? ==> tokens == r.value
    {
      ghost var goal := Scan(Cpp, origin, demangled, 0, "", []);
      var buf := "";
      while current < |demangled|
        invariant current <= |demangled|
        invariant Scan(Cpp, origin, demangled, current, buf, tokens) == goal
        decreases |demangled| - current
      {
        if IsOpener(demangled[current]) {
          var failure := ParseNesting(origin, buf, goal);
          if failure.Some? {
            return Err(failure.value);
          }
          buf := "";
        } else {
          buf := ParseSimple(origin, buf, goal);
        }
        current := current + 1;
      }
      ScanEnd(Cpp, origin, demangled, buf, tokens);
      if |buf| > 0 {
        tokens := tokens + [Name(buf)];
      }
      return Ok(tokens);
    }

    /**
     * The other branches of `_Parse`'s loop: "::" flushes the pending NAME
     * and adds a SCOPE, leaving the cursor on the second colon; a character
     * outside the NAME set flushes it and adds a BOUNDARY; a NAME character
     * is buffered.  `next` is the pending NAME afterwards.
     */
    method ParseSimple(ghost origin: string, buf: string, ghost goal: Result<seq<Token>, ParseError>) returns (next: string)
      requires Bounded(Cpp, origin, demangled) && current < |demangled| && !IsOpener(demangled[current])
      requires Scan(Cpp, origin, demangled, current, buf, tokens) == goal
      modifies this`current, this`tokens
      ensures old(current) <= current < |demangled|
      ensures Scan(Cpp, origin, demangled, current + 1, next, tokens) == goal
    {
      var c := demangled[current];
      var scope := CheckToken("::");
      ScopeAtOccurs(demangled, current);
      if scope {
        ScanScope(Cpp, origin, demangled, current, buf, tokens);
        ghost var after := Flush(tokens, buf) + [Scope];
        if |buf| > 0 {
          tokens := tokens + [Name(buf)];
        }
        tokens := tokens + [Scope];
        assert tokens == after;
        current := current + 1;
        next := "";
      } else if !IsNameChar(Cpp, c) {
        ScanBoundary(Cpp, origin, demangled, current, buf, tokens);
        ghost var after := Flush(tokens, buf) + [Boundary];
        if |buf| > 0 {
          tokens := tokens + [Name(buf)];
        }
        tokens := tokens + [Boundary];
        assert tokens == after;
        next := "";
      } else {
        ScanNameChar(Cpp, origin, demangled, current, buf, tokens);
        next := buf + [c];
      }
    }

    /**
     * The opener branch of `_Parse`'s loop: flush the pending NAME, cut out
     * the bracket's contents, and add a TMP for '{' or, for the other
     * openers, the group of the parsed pieces; the cursor is left on the
     * closer.  A failure is the exception that ends the parse.
     */
    method ParseNesting(ghost origin: string, buf: string, ghost goal: Result<seq<Token>, ParseError>) returns (failure: Option<ParseError>)
      requires Bounded(Cpp, origin, demangled) && current < |demangled| && IsOpener(demangled[current])
      requires Scan(Cpp, origin, demangled, current, buf, tokens) == goal
      modifies this
      decreases Measure(Cpp, origin), |origin|, 0, 1
      ensures failure.Some? ==> goal == Err(failure.value)
      ensures failure.None? ==> old(current) < current < |demangled| && Scan(Cpp, origin, demangled, current + 1, "", tokens) == goal
    {
      var c := demangled[current];
      ScanCut(Cpp, origin, demangled, current, buf, tokens);
      ghost var at := current;
      ghost var before := tokens;
      if |buf| > 0 {
        tokens := tokens + [Name(buf)];
      }
      assert tokens == Flush(before, buf);
      var inner := Cut();
      if inner.Err? {
        return Some(inner.error);
      }
      if c == '{' {
        tokens := tokens + [Tmp(inner.value)];
        return None;
      }
      var pieces := Split(inner.value);
      SplitOfCut(Cpp, demangled, at);
      ScanArguments(Cpp, origin, demangled, at, buf, before, pieces.value);
      var args := ParseArguments(pieces.value, origin);
      if args.Err? {
        return Some(args.error);
      }
      var token: Token;
      if c == '<' {
        token := Template(args.value);
      } else if c == '(' {
        token := Bracket(args.value);
      } else {
        token := SquareBracket(args.value);
      }
      assert token == Group(c, args.value);
      tokens := tokens + [token];
      return None;
    }

    /** `_CheckToken`: whether `str` occurs at the cursor, entirely within the text. */
    method CheckToken(str: string) returns (b: bool)
      ensures b == OccursAt(demangled, str, current)
    {
      if current + |str| > |demangled| {
        return false;
      }
      var i := 0;
      while i < |str|
        invariant i <= |str|
        invariant forall j :: 0 <= j < i ==> str[j] == demangled[current + j]
      {
        if str[i] != demangled[current + i] {
          return false;
        }
        i := i + 1;
      }
      assert demangled[current..current + |str|] == str;
      return true;
    }

    /**
     * `_Cut`: from the opener at the cursor, count the nesting up to the
     * closer that brings it back to zero, leave the cursor on that closer
     * and give the text in between.
     */
    method Cut() returns (r: Result<string, ParseError>)
      requires current < |demangled|
      modifies this`current
      ensures match SymbolTokens.Cut(demangled, old(current))
        case Ok(v) => r == Ok(v.0) && current == v.1
        case Err(e) => r == Err(e)
    {
      var nest := 0;
      var offset := current;
      if !IsOpener(demangled[current]) {
        return Err(NotAnOpener(offset));
      }
      while current < |demangled|
        invariant offset <= current <= |demangled|
        invariant CutFrom(demangled, current, nest) == CutFrom(demangled, offset, 0)
        decreases |demangled| - current
      {
        if IsOpener(demangled[current]) {
          nest := nest + 1;
        } else if IsCloser(demangled[current]) {
          nest := nest - 1;
          if nest == 0 {
            break;
          }
        }
        current := current + 1;
      }
      if nest > 0 || current == |demangled| || !IsCloser(demangled[current]) {
        return Err(Unclosed(offset));
      }
      return Ok(demangled[offset + 1..current]);
    }

    /**
     * `_Split`: cut at every comma outside brackets; the last piece is kept
     * only when its start is below `target.length() - 1` in `size_t`.
     */
    method Split(target: string) returns (r: Result<seq<string>, ParseError>)
      ensures r == SplitCpp(target)
    {
      var nest := 0;
      var offset := 0;
      var list: seq<string> := [];
      var i := 0;
      while i < |target|
        invariant offset <= i <= |target|
        invariant AllFit(list, target)
        invariant SplitFrom(target, i, SplitState(list, offset, nest)) == SplitLoop(target)
      {
        if IsOpener(target[i]) {
          nest := nest + 1;
        } else if IsCloser(target[i]) {
          nest := nest - 1;
        } else if target[i] == ',' && nest == 0 {
          OccSlice(target, offset, i);
          list := list + [target[offset..i]];
          offset := i + 1;
        }
        i := i + 1;
      }
      if nest > 0 {
        return Err(SplitUnclosed);
      }
      if offset < LengthLessOne(target) {
        list := list + [target[offset..]];
      }
      return Ok(list);
    }
  }
}
