/**
 * The C++ tokenizer's `serialize` and `deserialize`.  `serialize` writes
 * one entry per top-level token, "@" + its index + ">" + its kind, a NAME
 * adding its text between '<' and '>'.  `deserialize` reads the entries
 * back by index into the token list it is given, with a `read` flag set by
 * '@' and a buffer `num` of the digits that follow.  The round trip gives
 * back the tokens whenever no NAME holds an '@', which every NAME that
 * `_Parse` makes satisfies.
 */
module TokenSerialization {
  import opened Wrappers
  import opened Text
  import opened SymbolTokens
  import Tokenizer

  /** `INT_MAX`: the largest value `std::stoi` returns. */
  const IntMax: nat := 0x7fff_ffff

  /** What an entry holds after "@<index>>" for each kind of token. */
  function KindText(token: Token): string {
    match token
    case Name(n) => "NAME<" + n + ">"
    case Scope => "SCOPE"
    case Boundary => "BOUNDARY"
    case Template(_) => "TEMPLATE"
    case Bracket(_) => "BRACKET"
    case SquareBracket(_) => "SQUARE_BRACKET"
    case Tmp(_) => "TMP"
  }

  /** The entry `serialize` writes for the token at `index`. */
  function Entry(index: nat, token: Token): string {
    "@" + DecimalString(index) + ">" + KindText(token)
  }

  /** What `serialize` writes: the entries of the tokens in index order. */
  function Serialized(tokens: seq<Token>): string
    decreases |tokens|
  {
    if |tokens| == 0 then ""
    else Serialized(tokens[..|tokens| - 1]) + Entry(|tokens| - 1, tokens[|tokens| - 1])
  }

  lemma SerializedSnoc(tokens: seq<Token>, index: nat)
    requires index < |tokens|
    ensures Serialized(tokens[..index + 1]) == Serialized(tokens[..index]) + Entry(index, tokens[index])
  {
    assert tokens[..index + 1][..index] == tokens[..index];
  }

  /** `serialize`: the stream gets one entry per token, in index order. */
  method Serialize(tokens: seq<Token>) returns (str: string)
    ensures str == Serialized(tokens)
  {
    str := "";
    var index := 0;
    while index < |tokens|
      invariant index <= |tokens|
      invariant str == Serialized(tokens[..index])
    {
      var token := tokens[index];
      var kind: string;
      if token.Name? {
        kind := "NAME<" + token.name + ">";
      } else if token.Scope? {
        kind := "SCOPE";
      } else if token.Boundary? {
        kind := "BOUNDARY";
      } else if token.Template? {
        kind := "TEMPLATE";
      } else if token.Bracket? {
        kind := "BRACKET";
      } else if token.SquareBracket? {
        kind := "SQUARE_BRACKET";
      } else {
        kind := "TMP";
      }
      assert kind == KindText(token);
      SerializedSnoc(tokens, index);
      str := str + ("@" + DecimalString(index) + ">" + kind);
      index := index + 1;
    }
    assert tokens[..index] == tokens;
  }

  /**
   * How `deserialize` fails: `std::stoi` throws on an empty buffer and on a
   * value above `INT_MAX`, and an index past the end of the token list
   * reads outside it.
   */
  datatype DeserializeError =
    | NotANumber
    | OutOfRange(digits: string)
    | NoSuchToken(index: nat)

  /** `tokens[std::stoi(num)]` for a buffer of digits. */
  function Lookup(tokens: seq<Token>, num: string): Result<Token, DeserializeError>
    requires AllDigits(num)
  {
    if |num| == 0 then Err(NotANumber)
    else if DecimalValue(num) > IntMax then Err(OutOfRange(num))
    else if DecimalValue(num) >= |tokens| then Err(NoSuchToken(DecimalValue(num)))
    else Ok(tokens[DecimalValue(num)])
  }

  /** The loop state of `deserialize`: the `read` flag, the digits in `num`, and `list`. */
  datatype Reader = Reader(read: bool, num: string, list: seq<Token>)

  /**
   * One character of the loop: while reading, a digit joins `num` and any
   * other character looks the number up and stops the reading; then '@'
   * starts a new reading, even right after a lookup.
   */
  function Step(tokens: seq<Token>, st: Reader, c: char): (r: Result<Reader, DeserializeError>)
    requires AllDigits(st.num)
    ensures r.Ok? ==> AllDigits(r.value.num)
  {
    var after :=
      if !st.read then Ok(st)
      else if IsDigit(c) then Ok(st.(num := st.num + [c]))
      else match Lookup(tokens, st.num)
        case Err(e) => Err(e)
        case Ok(token) => Ok(Reader(false, "", st.list + [token]));
    if after.Ok? && c == '@' then Ok(after.value.(read := true)) else after
  }

  /** The loop over the characters of `s`, from state `st`. */
  function Run(tokens: seq<Token>, s: string, st: Reader): (r: Result<Reader, DeserializeError>)
    requires AllDigits(st.num)
    ensures r.Ok? ==> AllDigits(r.value.num)
    decreases |s|
  {
    if |s| == 0 then Ok(st)
    else
      match Step(tokens, st, s[0])
      case Err(e) => Err(e)
      case Ok(next) => Run(tokens, s[1..], next)
  }

  /** What `deserialize` returns: the list the loop builds; digits left at the end are dropped. */
  function Deserialized(tokens: seq<Token>, serialized: string): Result<seq<Token>, DeserializeError> {
    match Run(tokens, serialized, Reader(false, "", []))
    case Err(e) => Err(e)
    case Ok(st) => Ok(st.list)
  }

  /** `deserialize`: the character loop with its `read` flag and `num` buffer. */
  method Deserialize(tokens: seq<Token>, serialized: string) returns (r: Result<seq<Token>, DeserializeError>)
    ensures r == Deserialized(tokens, serialized)
  {
    var list: seq<Token> := [];
    var read := false;
    var num := "";
    var i := 0;
    while i < |serialized|
      invariant i <= |serialized| && AllDigits(num)
      invariant Run(tokens, serialized[i..], Reader(read, num, list)) == Run(tokens, serialized, Reader(false, "", []))
    {
      var c := serialized[i];
      assert serialized[i..][1..] == serialized[i + 1..];
      if read {
        if '0' <= c <= '9' {
          num := num + [c];
        } else {
          var token := Lookup(tokens, num);
          if token.Err? {
            return Err(token.error);
          }
          list := list + [token.value];
          read := false;
          num := "";
        }
      }
      if c == '@' {
        read := true;
      }
      i := i + 1;
    }
    return Ok(list);
  }

  /** Running over `a + b` runs over `a`, then over `b` from where `a` left off. */
  lemma {:induction false} RunAppend(tokens: seq<Token>, a: string, b: string, st: Reader)
    requires AllDigits(st.num)
    ensures Run(tokens, a + b, st) ==
      match Run(tokens, a, st)
      case Err(e) => Err(e)
      case Ok(mid) => Run(tokens, b, mid)
    decreases |a|
  {
    if |a| > 0 {
      assert (a + b)[0] == a[0];
      assert (a + b)[1..] == a[1..] + b;
      match Step(tokens, st, a[0])
      case Err(_) =>
      case Ok(next) => RunAppend(tokens, a[1..], b, next);
    } else {
      assert a + b == b;
    }
  }

  /** Outside a reading, text without '@' changes nothing. */
  lemma {:induction false} RunIdle(tokens: seq<Token>, s: string, list: seq<Token>)
    requires forall k :: 0 <= k < |s| ==> s[k] != '@'
    ensures Run(tokens, s, Reader(false, "", list)) == Ok(Reader(false, "", list))
    decreases |s|
  {
    if |s| > 0 {
      assert s[0] != '@';
      assert Step(tokens, Reader(false, "", list), s[0]) == Ok(Reader(false, "", list));
      assert forall k :: 0 <= k < |s[1..]| ==> s[1..][k] == s[k + 1];
      RunIdle(tokens, s[1..], list);
    }
  }

  /** While reading, digits only collect in `num`. */
  lemma {:induction false} RunDigits(tokens: seq<Token>, s: string, num: string, list: seq<Token>)
    requires AllDigits(s) && AllDigits(num)
    ensures Run(tokens, s, Reader(true, num, list)) == Ok(Reader(true, num + s, list))
    decreases |s|
  {
    if |s| > 0 {
      assert IsDigit(s[0]) && s[0] != '@';
      assert AllDigits(num + [s[0]]);
      assert Step(tokens, Reader(true, num, list), s[0]) == Ok(Reader(true, num + [s[0]], list));
      assert forall k :: 0 <= k < |s[1..]| ==> s[1..][k] == s[k + 1];
      RunDigits(tokens, s[1..], num + [s[0]], list);
      assert num + [s[0]] + s[1..] == num + s;
    } else {
      assert num + s == num;
    }
  }

  /** A NAME without '@' gives an entry tail without '@'. */
  lemma KindTextWithoutAt(token: Token)
    requires token.Name? ==> forall k :: 0 <= k < |token.name| ==> token.name[k] != '@'
    ensures forall k :: 0 <= k < |KindText(token)| ==> KindText(token)[k] != '@'
  {
    if token.Name? {
      var n := token.name;
      assert KindText(token) == "NAME<" + n + ">";
      forall k | 0 <= k < |KindText(token)|
        ensures KindText(token)[k] != '@'
      {
        if 5 <= k < 5 + |n| {
          assert KindText(token)[k] == n[k - 5];
        }
      }
    }
  }

  /** '@' outside a reading starts one. */
  lemma RunAt(tokens: seq<Token>, list: seq<Token>)
    ensures Run(tokens, "@", Reader(false, "", list)) == Ok(Reader(true, "", list))
  {
    assert Step(tokens, Reader(false, "", list), '@') == Ok(Reader(true, "", list));
    assert "@"[1..] == "";
  }

  /** '>' ends a reading of the digits of `index`: the token at `index` joins the list. */
  lemma RunClose(tokens: seq<Token>, index: nat, list: seq<Token>)
    requires index < |tokens| && index <= IntMax
    ensures Run(tokens, ">", Reader(true, DecimalString(index), list)) == Ok(Reader(false, "", list + [tokens[index]]))
  {
    DecimalRoundTrip(index);
    assert Lookup(tokens, DecimalString(index)) == Ok(tokens[index]);
    assert Step(tokens, Reader(true, DecimalString(index), list), '>') == Ok(Reader(false, "", list + [tokens[index]]));
    assert ">"[1..] == "";
  }

  /** The head "@<index>>" of an entry reads back the token at `index`. */
  lemma RunHead(tokens: seq<Token>, index: nat, list: seq<Token>)
    requires index < |tokens| && index <= IntMax
    ensures Run(tokens, "@" + DecimalString(index) + ">", Reader(false, "", list)) == Ok(Reader(false, "", list + [tokens[index]]))
  {
    var digits := DecimalString(index);
    assert "@" + digits + ">" == "@" + (digits + ">");
    RunAppend(tokens, "@", digits + ">", Reader(false, "", list));
    RunAt(tokens, list);
    RunAppend(tokens, digits, ">", Reader(true, "", list));
    RunDigits(tokens, digits, "", list);
    assert "" + digits == digits;
    RunClose(tokens, index, list);
  }

  /** One entry read back: the token at its index joins the list, and the reading is over. */
  lemma RunEntry(tokens: seq<Token>, index: nat, list: seq<Token>)
    requires index < |tokens| && index <= IntMax
    requires tokens[index].Name? ==> forall k :: 0 <= k < |tokens[index].name| ==> tokens[index].name[k] != '@'
    ensures Run(tokens, Entry(index, tokens[index]), Reader(false, "", list)) == Ok(Reader(false, "", list + [tokens[index]]))
  {
    var head := "@" + DecimalString(index) + ">";
    var tail := KindText(tokens[index]);
    RunAppend(tokens, head, tail, Reader(false, "", list));
    RunHead(tokens, index, list);
    KindTextWithoutAt(tokens[index]);
    RunIdle(tokens, tail, list + [tokens[index]]);
  }

  /** No top-level NAME holds an '@'. */
  predicate NoAtInNames(tokens: seq<Token>) {
    forall j :: 0 <= j < |tokens| && tokens[j].Name? ==> forall k :: 0 <= k < |tokens[j].name| ==> tokens[j].name[k] != '@'
  }

  /** Reading back the entries of the first `n` tokens gives those tokens. */
  lemma {:induction false} RunSerializedPrefix(tokens: seq<Token>, n: nat)
    requires n <= |tokens| <= IntMax + 1 && NoAtInNames(tokens)
    ensures Run(tokens, Serialized(tokens[..n]), Reader(false, "", [])) == Ok(Reader(false, "", tokens[..n]))
  {
    if n > 0 {
      var prefix := tokens[..n];
      assert prefix[..n - 1] == tokens[..n - 1];
      assert Serialized(prefix) == Serialized(tokens[..n - 1]) + Entry(n - 1, tokens[n - 1]);
      RunSerializedPrefix(tokens, n - 1);
      RunAppend(tokens, Serialized(tokens[..n - 1]), Entry(n - 1, tokens[n - 1]), Reader(false, "", []));
      RunEntry(tokens, n - 1, tokens[..n - 1]);
      assert tokens[..n - 1] + [tokens[n - 1]] == prefix;
    }
  }

  /**
   * `deserialize(tokens, serialize(tokens))` gives back `tokens`, in order,
   * when no NAME holds an '@' and every index fits in an `int`.
   */
  lemma RoundTrip(tokens: seq<Token>)
    requires |tokens| <= IntMax + 1 && NoAtInNames(tokens)
    ensures Deserialized(tokens, Serialized(tokens)) == Ok(tokens)
  {
    RunSerializedPrefix(tokens, |tokens|);
    assert tokens[..|tokens|] == tokens;
  }

  /** No NAME that `_Parse` makes holds an '@', which is not a NAME character. */
  lemma ParsedNamesWithoutAt(dialect: Tokenizer.Dialect, d: string)
    requires Tokenizer.Parse(dialect, d).Ok?
    ensures NoAtInNames(Tokenizer.Parse(dialect, d).value)
  {
    var tokens := Tokenizer.Parse(dialect, d).value;
    Tokenizer.ParseNamesOk(dialect, d);
    forall j, k | 0 <= j < |tokens| && tokens[j].Name? && 0 <= k < |tokens[j].name|
      ensures tokens[j].name[k] != '@'
    {
      assert Tokenizer.TokenOk(dialect, tokens[j]);
      assert Tokenizer.IsNameChar(dialect, tokens[j].name[k]);
    }
  }

  /** The round trip the C++ `main` runs on each parsed line gives back its tokens. */
  lemma ParsedRoundTrip(d: string)
    requires Tokenizer.Parse(Tokenizer.Cpp, d).Ok?
    requires |Tokenizer.Parse(Tokenizer.Cpp, d).value| <= IntMax + 1
    ensures var tokens := Tokenizer.Parse(Tokenizer.Cpp, d).value;
      Deserialized(tokens, Serialized(tokens)) == Ok(tokens)
  {
    ParsedNamesWithoutAt(Tokenizer.Cpp, d);
    RoundTrip(Tokenizer.Parse(Tokenizer.Cpp, d).value);
  }

  /** Digits still being read when the text ends are never looked up. */
  lemma TrailingDigitsDropped(tokens: seq<Token>, digits: string)
    requires AllDigits(digits)
    ensures Deserialized(tokens, "@" + digits) == Ok([])
  {
    RunAppend(tokens, "@", digits, Reader(false, "", []));
    RunAt(tokens, []);
    RunDigits(tokens, digits, "", []);
  }

  /**
   * A NAME holding '@' followed by a non-digit breaks the round trip: that
   * '@' starts a reading with no digits, and `std::stoi("")` throws.
   */
  lemma AtInNameBreaksRoundTrip(a: string, b: string)
    requires forall k :: 0 <= k < |a| ==> a[k] != '@'
    requires |b| > 0 && !IsDigit(b[0])
    ensures var tokens := [Name(a + "@" + b)];
      Deserialized(tokens, Serialized(tokens)) == Err(NotANumber)
  {
    var tokens := [Name(a + "@" + b)];
    var head := "@" + DecimalString(0) + ">";
    var front := "NAME<" + a;
    assert tokens[..0] == [];
    assert Serialized(tokens) == head + front + ("@" + (b + ">"));
    RunAppend(tokens, head + front, "@" + (b + ">"), Reader(false, "", []));
    RunAppend(tokens, head, front, Reader(false, "", []));
    RunHead(tokens, 0, []);
    assert [] + [tokens[0]] == tokens;
    assert forall k :: 0 <= k < |front| ==> front[k] != '@' by {
      forall k | 0 <= k < |front|
        ensures front[k] != '@'
      {
        if k >= 5 {
          assert front[k] == a[k - 5];
        }
      }
    }
    RunIdle(tokens, front, tokens);
    RunAppend(tokens, "@", b + ">", Reader(false, "", tokens));
    RunAt(tokens, tokens);
    assert (b + ">")[0] == b[0];
    assert Step(tokens, Reader(true, "", tokens), b[0]) == Err(NotANumber);
  }
}
