/**
 * The hand-written demangler for a small subset of the Itanium C++ ABI
 * mangling grammar (section 5.1 of the Itanium C++ ABI):
 *
 *   <mangled-name>  ::= _Z <encoding>
 *   <source-name>   ::= <length> <identifier>
 *   <nested-name>   ::= N <name>+ E
 *   <template-args> ::= I <component>+ E
 *
 * exactly as FunctionDemangler implements it, defects included: the
 * length accumulator computes 11*num + digit, peeking at the end of the
 * input fails, ReadNested can stop making progress, and input after the
 * first component is ignored.  There is no substitution table, no builtin
 * type and no special name.
 *
 * The functions below are the specification: each takes the text and a
 * cursor position and gives the value read and the position after it, or
 * the error the source would throw.  The class FunctionDemangler is the
 * imperative code, proved to follow them.
 */
module Demangler {
  import opened Wrappers
  import opened Text
  import opened DemangleNames

  datatype Error =
    | NotMangled                                  // ArgumentException from the constructor
    | IndexOutOfRange(index: nat)                 // MangledText[Index] at or past the end
    | SubstringOutOfRange(start: nat, length: nat) // Substring(Index, length) past the end
    | SpecialNameNotImplemented(index: nat)       // ReadSpecialName
    | NotNested(index: nat)                       // ReadNested without its 'N'
    | NotTemplate(index: nat)                     // ReadTemplate without its 'I'
    | NoProgress(index: nat)                      // ReadNested would repeat one iteration forever

  /** The character under the cursor (the Peek property). */
  function PeekAt(s: string, i: nat): (r: Result<char, Error>)
    ensures r.Ok? <==> i < |s|
    ensures r.Ok? ==> r.value == s[i]
  {
    if i < |s| then Ok(s[i]) else Err(IndexOutOfRange(i))
  }

  /**
   * ReadNumber's loop from position i with accumulator acc: while the
   * peeked character is a digit d, acc becomes acc + acc*10 + d.
   */
  function NumberFrom(s: string, i: nat, acc: nat): (r: Result<(nat, nat), Error>)
    requires i <= |s|
    decreases |s| - i
    ensures r.Ok? ==> i <= r.value.1 < |s| && !IsDigit(s[r.value.1])
    ensures r.Ok? && i < |s| && IsDigit(s[i]) ==> i < r.value.1
    ensures r.Err? ==> r.error == IndexOutOfRange(|s|)
  {
    if i == |s| then Err(IndexOutOfRange(i))
    else if IsDigit(s[i]) then NumberFrom(s, i + 1, acc + acc * 10 + DigitValue(s[i]))
    else Ok((acc, i))
  }

  /**
   * The loop moves over digits only; it fails exactly when every character
   * from the cursor to the end is a digit.
   */
  lemma {:induction false} NumberFromDigits(s: string, i: nat, acc: nat)
    requires i <= |s|
    decreases |s| - i
    ensures NumberFrom(s, i, acc).Ok? ==> forall k :: i <= k < NumberFrom(s, i, acc).value.1 ==> IsDigit(s[k])
    ensures NumberFrom(s, i, acc).Err? <==> forall k :: i <= k < |s| ==> IsDigit(s[k])
  {
    if i < |s| && IsDigit(s[i]) {
      NumberFromDigits(s, i + 1, acc + acc * 10 + DigitValue(s[i]));
    }
  }

  /** ReadSourceName: a length, then exactly that many characters taken verbatim. */
  function SourceNameAt(s: string, i: nat): (r: Result<(string, nat), Error>)
    requires i <= |s|
    ensures r.Ok? ==> i <= r.value.1 <= |s|
    ensures r.Ok? && i < |s| && IsDigit(s[i]) ==> i < r.value.1
    ensures r.Err? ==> r.error != NotMangled
  {
    match NumberFrom(s, i, 0)
    case Err(e) => Err(e)
    case Ok((length, j)) =>
      if j + length > |s| then Err(SubstringOutOfRange(j, length))
      else Ok((s[j..j + length], j + length))
  }

  /**
   * Once the length is read, the source name fails exactly when that many
   * characters do not fit, with the `Substring` error; otherwise it ends
   * exactly `length` characters after the digits.
   */
  lemma SourceNameOverrun(s: string, i: nat)
    requires i <= |s| && NumberFrom(s, i, 0).Ok?
    ensures var (length, j) := NumberFrom(s, i, 0).value;
            && (SourceNameAt(s, i).Err? <==> j + length > |s|)
            && (SourceNameAt(s, i).Err? ==> SourceNameAt(s, i).error == SubstringOutOfRange(j, length))
            && (SourceNameAt(s, i).Ok? ==> SourceNameAt(s, i).value.1 == j + length)
  {
  }

  /** ReadName: a source name, then a template when the next character is 'I'. */
  function NameAt(s: string, i: nat): (r: Result<(SName, nat), Error>)
    requires i <= |s|
    decreases |s| - i, 2
    ensures r.Ok? ==> i <= r.value.1 <= |s|
    ensures r.Ok? && i < |s| && IsDigit(s[i]) ==> i < r.value.1
    ensures r.Err? ==> r.error != NotMangled
  {
    match SourceNameAt(s, i)
    case Err(e) => Err(e)
    case Ok((source, j)) =>
      if j == |s| then Err(IndexOutOfRange(j))
      else if s[j] == 'I' then
        match TemplateAt(s, j)
        case Err(e) => Err(e)
        case Ok((t, k)) => Ok((SName(source, Some(t)), k))
      else Ok((SName(source, None), j))
  }

  /** ReadNameOrNested: a digit starts a name, 'N' a nested name; anything else is a special name. */
  function NameOrNestedAt(s: string, i: nat): (r: Result<(SComponent, nat), Error>)
    requires i <= |s|
    decreases |s| - i, 3
    ensures r.Ok? ==> i < r.value.1 <= |s|
    ensures r.Err? ==> r.error != NotMangled
  {
    if i == |s| then Err(IndexOutOfRange(i))
    else if IsDigit(s[i]) then
      match NameAt(s, i)
      case Err(e) => Err(e)
      case Ok((n, j)) => Ok((Name(n), j))
    else if s[i] == 'N' then NestedAt(s, i)
    else Err(SpecialNameNotImplemented(i))
  }

  /** ReadNested: 'N', then names until the peeked character is 'E', then that 'E'. */
  function NestedAt(s: string, i: nat): (r: Result<(SComponent, nat), Error>)
    requires i <= |s|
    decreases |s| - i, 2
    ensures r.Ok? ==> i < r.value.1 <= |s|
    ensures r.Err? ==> r.error != NotMangled
  {
    if i == |s| then Err(IndexOutOfRange(i))
    else if s[i] != 'N' then Err(NotNested(i))
    else NestedNamesFrom(s, i + 1, [])
  }

  /**
   * The do-while loop of ReadNested from position i, with the names read
   * so far.  An iteration that reads a name without moving the cursor and
   * does not stop at 'E' leaves the cursor where it was, so the loop never
   * reaches 'E'; the source keeps adding empty names until memory runs
   * out.  That case is NoProgress.
   */
  function NestedNamesFrom(s: string, i: nat, names: seq<SName>): (r: Result<(SComponent, nat), Error>)
    requires i <= |s|
    decreases |s| - i, 3
    ensures r.Ok? ==> i < r.value.1 <= |s|
    ensures r.Err? ==> r.error != NotMangled
  {
    match NameAt(s, i)
    case Err(e) => Err(e)
    case Ok((n, j)) =>
      if j == |s| then Err(IndexOutOfRange(j))
      else if s[j] == 'E' then Ok((Nested(names + [n]), j + 1))
      else if j == i then Err(NoProgress(i))
      else NestedNamesFrom(s, j, names + [n])
  }

  /** ReadTemplate: 'I', then components until the peeked character is 'E', then that 'E'. */
  function TemplateAt(s: string, i: nat): (r: Result<(STemplate, nat), Error>)
    requires i <= |s|
    decreases |s| - i, 1
    ensures r.Ok? ==> i < r.value.1 <= |s|
    ensures r.Err? ==> r.error != NotMangled
  {
    if i == |s| then Err(IndexOutOfRange(i))
    else if s[i] != 'I' then Err(NotTemplate(i))
    else TemplateArgsFrom(s, i + 1, [])
  }

  /** The do-while loop of ReadTemplate from position i, with the arguments read so far. */
  function TemplateArgsFrom(s: string, i: nat, args: seq<SComponent>): (r: Result<(STemplate, nat), Error>)
    requires i <= |s|
    decreases |s| - i, 4
    ensures r.Ok? ==> i < r.value.1 <= |s|
    ensures r.Err? ==> r.error != NotMangled
  {
    match NameOrNestedAt(s, i)
    case Err(e) => Err(e)
    case Ok((a, j)) =>
      if j == |s| then Err(IndexOutOfRange(j))
      else if s[j] == 'E' then Ok((STemplate(args + [a]), j + 1))
      else TemplateArgsFrom(s, j, args + [a])
  }

  /**
   * The constructor followed by Parse: "_Z" is checked one character at a
   * time, then one component is read and whatever follows it is ignored.
   */
  function Demangle(s: string): (r: Result<SComponent, Error>)
  {
    if |s| == 0 then Err(IndexOutOfRange(0))
    else if s[0] != '_' then Err(NotMangled)
    else if |s| == 1 then Err(IndexOutOfRange(1))
    else if s[1] != 'Z' then Err(NotMangled)
    else
      match NameOrNestedAt(s, 2)
      case Err(e) => Err(e)
      case Ok((c, _)) => Ok(c)
  }

  /** The value a method returned and the cursor it left agree with a specification result. */
  predicate Tracks<T(==)>(r: Result<T, Error>, spec: Result<(T, nat), Error>, index: nat) {
    match spec
    case Ok(v) => r == Ok(v.0) && index == v.1
    case Err(e) => r == Err(e)
  }

  class FunctionDemangler {
    const mangledText: string
    var index: nat
    /** The Demangled property; an exception thrown while constructing is kept as an Err. */
    var demangled: Result<SComponent, Error>

    constructor (mangled: string)
      ensures mangledText == mangled
      ensures demangled == Demangle(mangled)
    {
      mangledText := mangled;
      index := 0;
      demangled := Err(NotMangled);
      new;
      var underscore := CheckChar('_');
      if underscore.Err? {
        demangled := Err(underscore.error);
        return;
      }
      if !underscore.value {
        demangled := Err(NotMangled);
        return;
      }
      var z := CheckChar('Z');
      if z.Err? {
        demangled := Err(z.error);
        return;
      }
      if !z.value {
        demangled := Err(NotMangled);
        return;
      }
      Parse();
    }

    method Parse()
      requires index <= |mangledText|
      modifies this
      ensures match NameOrNestedAt(mangledText, old(index))
              case Ok(v) => demangled == Ok(v.0)
              case Err(e) => demangled == Err(e)
    {
      demangled := ReadNameOrNested();
    }

    /** `MangledText[Index++]`: the cursor moves even when the read fails. */
    method ReadChar() returns (r: Result<char, Error>)
      modifies this`index
      ensures index == old(index) + 1
      ensures r == PeekAt(mangledText, old(index))
    {
      r := PeekAt(mangledText, index);
      index := index + 1;
    }

    method CheckChar(c: char) returns (r: Result<bool, Error>)
      modifies this`index
      ensures index == old(index) + 1
      ensures r.Ok? <==> old(index) < |mangledText|
      ensures r.Ok? ==> r.value == (mangledText[old(index)] == c)
      ensures r.Err? ==> r.error == IndexOutOfRange(old(index))
    {
      var read := ReadChar();
      match read
      case Ok(x) => r := Ok(x == c);
      case Err(e) => r := Err(e);
    }

    function Peek(): Result<char, Error>
      reads this
    {
      PeekAt(mangledText, index)
    }

    method ReadNumber() returns (r: Result<nat, Error>)
      requires index <= |mangledText|
      modifies this`index
      ensures Tracks(r, NumberFrom(mangledText, old(index), 0), index)
    {
      var num: nat := 0;
      while Peek().Ok? && IsDigit(Peek().value)
        invariant old(index) <= index <= |mangledText|
        invariant NumberFrom(mangledText, index, num) == NumberFrom(mangledText, old(index), 0)
        decreases |mangledText| - index
      {
        var c := ReadChar();
        num := num + num * 10 + DigitValue(c.value);
      }
      match Peek()
      case Err(e) => r := Err(e);
      case Ok(_) => r := Ok(num);
    }

    method ReadSourceName() returns (r: Result<string, Error>)
      requires index <= |mangledText|
      modifies this`index
      ensures Tracks(r, SourceNameAt(mangledText, old(index)), index)
    {
      var length := ReadNumber();
      if length.Err? {
        return Err(length.error);
      }
      if index + length.value > |mangledText| {
        return Err(SubstringOutOfRange(index, length.value));
      }
      var sourceName := mangledText[index..index + length.value];
      index := index + length.value;
      return Ok(sourceName);
    }

    method ReadName() returns (r: Result<SName, Error>)
      requires index <= |mangledText|
      modifies this`index
      decreases |mangledText| - index, 2
      ensures Tracks(r, NameAt(mangledText, old(index)), index)
    {
      var sourceName := ReadSourceName();
      if sourceName.Err? {
        return Err(sourceName.error);
      }
      var next := Peek();
      if next.Err? {
        return Err(next.error);
      }
      var template: Option<STemplate> := None;
      if next.value == 'I' {
        var t := ReadTemplate();
        if t.Err? {
          return Err(t.error);
        }
        template := Some(t.value);
      }
      return Ok(SName(sourceName.value, template));
    }

    method ReadNameOrNested() returns (r: Result<SComponent, Error>)
      requires index <= |mangledText|
      modifies this`index
      decreases |mangledText| - index, 3
      ensures Tracks(r, NameOrNestedAt(mangledText, old(index)), index)
    {
      var next := Peek();
      if next.Err? {
        return Err(next.error);
      }
      if IsDigit(next.value) {
        var n := ReadName();
        if n.Err? {
          return Err(n.error);
        }
        return Ok(Name(n.value));
      } else if next.value == 'N' {
        r := ReadNested();
      } else {
        var special := ReadSpecialName();
        return Err(special.error);
      }
    }

    /** Special names are not implemented: the source throws NotImplementedException. */
    method ReadSpecialName() returns (r: Result<SName, Error>)
      ensures r == Err(SpecialNameNotImplemented(index))
    {
      r := Err(SpecialNameNotImplemented(index));
    }

    method ReadNested() returns (r: Result<SComponent, Error>)
      requires index <= |mangledText|
      modifies this`index
      decreases |mangledText| - index, 2
      ensures Tracks(r, NestedAt(mangledText, old(index)), index)
    {
      var start := index;
      var isNested := CheckChar('N');
      if isNested.Err? {
        return Err(isNested.error);
      }
      if !isNested.value {
        return Err(NotNested(start));
      }
      var names: seq<SName> := [];
      var done := false;
      while !done
        invariant old(index) < index <= |mangledText|
        invariant !done ==> NestedNamesFrom(mangledText, index, names) == NestedAt(mangledText, old(index))
        invariant done ==> index < |mangledText| && mangledText[index] == 'E'
        invariant done ==> NestedAt(mangledText, old(index)) == Ok((Nested(names), index + 1))
        decreases |mangledText| - index, if done then 0 else 1
      {
        var before := index;
        var name := ReadName();
        if name.Err? {
          return Err(name.error);
        }
        names := names + [name.value];
        var next := Peek();
        if next.Err? {
          return Err(next.error);
        }
        if next.value == 'E' {
          done := true;
        } else if index == before {
          return Err(NoProgress(before));
        }
      }
      var _ := CheckChar('E');
      return Ok(Nested(names));
    }

    method ReadTemplate() returns (r: Result<STemplate, Error>)
      requires index <= |mangledText|
      modifies this`index
      decreases |mangledText| - index, 1
      ensures Tracks(r, TemplateAt(mangledText, old(index)), index)
    {
      var start := index;
      var isTemplate := CheckChar('I');
      if isTemplate.Err? {
        return Err(isTemplate.error);
      }
      if !isTemplate.value {
        return Err(NotTemplate(start));
      }
      var args: seq<SComponent> := [];
      var done := false;
      while !done
        invariant old(index) < index <= |mangledText|
        invariant !done ==> TemplateArgsFrom(mangledText, index, args) == TemplateAt(mangledText, old(index))
        invariant done ==> index < |mangledText| && mangledText[index] == 'E'
        invariant done ==> TemplateAt(mangledText, old(index)) == Ok((STemplate(args), index + 1))
        decreases |mangledText| - index, if done then 0 else 1
      {
        var arg := ReadNameOrNested();
        if arg.Err? {
          return Err(arg.error);
        }
        args := args + [arg.value];
        var next := Peek();
        if next.Err? {
          return Err(next.error);
        }
        if next.value == 'E' {
          done := true;
        }
      }
      var _ := CheckChar('E');
      return Ok(STemplate(args));
    }
  }
}
