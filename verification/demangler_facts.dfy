/**
 * What the hand-written demangler does and does not accept.
 *
 *  - Lengths are read in base eleven with decimal digits: "10" means 11,
 *    and no run of digits denotes a length whose base-eleven spelling needs
 *    the eleventh digit (10, 21, 32, ...), so names of those lengths can
 *    never be read back.
 *  - An encoder that spells lengths the way the reader reads them is
 *    inverted by the demangler for every well-formed tree.
 *  - Input after the first component is ignored.
 *  - The special cases: a bare name at the very end fails on the peek for
 *    'I', an 'N' followed by a letter loops without progress, "_ZNE" is a
 *    nested name holding one empty name.
 */
module DemanglerFacts {
  import opened Wrappers
  import opened Text
  import opened DemangleNames
  import opened Demangler

  // ---------------------------------------------------------------------
  // Lengths in base eleven

  /** ReadNumber's accumulation over a run of digits, starting from `acc`. */
  function Base11From(acc: nat, d: string): nat
    requires AllDigits(d)
    decreases |d|
  {
    if |d| == 0 then acc else Base11From(11 * acc + DigitValue(d[0]), d[1..])
  }

  function Base11Value(d: string): nat
    requires AllDigits(d)
  {
    Base11From(0, d)
  }

  lemma {:induction false} Base11Snoc(acc: nat, x: string, c: char)
    requires AllDigits(x) && IsDigit(c)
    ensures AllDigits(x + [c])
    ensures Base11From(acc, x + [c]) == 11 * Base11From(acc, x) + DigitValue(c)
    decreases |x|
  {
    assert AllDigits(x + [c]) by {
      forall k | 0 <= k < |x + [c]| ensures IsDigit((x + [c])[k]) {
        if k < |x| {
          assert (x + [c])[k] == x[k];
        }
      }
    }
    if |x| == 0 {
      assert x + [c] == [c] && [c][1..] == [];
    } else {
      assert (x + [c])[0] == x[0];
      assert (x + [c])[1..] == x[1..] + [c];
      Base11Snoc(11 * acc + DigitValue(x[0]), x[1..], c);
    }
  }

  /**
   * ReadNumber over digits `d` that sit at position i and are followed by a
   * non-digit: it consumes exactly that run and yields its base-eleven value.
   */
  lemma {:induction false} NumberReadsBase11(s: string, i: nat, d: string, acc: nat)
    requires AllDigits(d) && OccursAt(s, d, i)
    requires i + |d| < |s| && !IsDigit(s[i + |d|])
    ensures NumberFrom(s, i, acc) == Ok((Base11From(acc, d), i + |d|))
    decreases |d|
  {
    if |d| > 0 {
      OccursAtFirst(s, d, i);
      assert OccursAt(s, d[1..], i + 1) by {
        assert s[i + 1..i + 1 + |d[1..]|] == s[i..i + |d|][1..];
      }
      NumberReadsBase11(s, i + 1, d[1..], 11 * acc + DigitValue(d[0]));
    }
  }

  lemma SingleDigitIsItsValue(c: char)
    requires IsDigit(c)
    ensures Base11Value([c]) == DigitValue(c)
  {
    assert [c][1..] == [];
    assert Base11From(0, [c]) == Base11From(DigitValue(c), []);
  }

  lemma TenReadsAsEleven()
    ensures Base11Value("10") == 11
  {
    assert "10"[1..] == "0";
  }

  /** Lengths whose base-eleven spelling uses only the digits 0-9. */
  predicate Writable(n: nat)
    decreases n
  {
    n % 11 != 10 && (n >= 11 ==> Writable(n / 11))
  }

  /** The shortest run of digits ReadNumber turns into `n`. */
  function Base11String(n: nat): (d: string)
    requires Writable(n)
    decreases n
    ensures |d| > 0 && AllDigits(d)
  {
    if n < 11 then [DigitChar(n)] else Base11String(n / 11) + [DigitChar(n % 11)]
  }

  lemma {:induction false} Base11RoundTrip(n: nat)
    requires Writable(n)
    ensures Base11Value(Base11String(n)) == n
    decreases n
  {
    if n < 11 {
      assert [DigitChar(n)][1..] == [];
      assert Base11From(0, [DigitChar(n)]) == Base11From(n, []);
    } else {
      Base11RoundTrip(n / 11);
      Base11Snoc(0, Base11String(n / 11), DigitChar(n % 11));
    }
  }

  /** Every run of digits denotes a writable length: lengths 10, 21, 32, ... are never read. */
  lemma {:induction false} ReadLengthsAreWritable(d: string)
    requires AllDigits(d)
    ensures Writable(Base11Value(d))
    decreases |d|
  {
    if |d| > 0 {
      var x := d[..|d| - 1];
      assert AllDigits(x);
      assert d == x + [d[|d| - 1]];
      Base11Snoc(0, x, d[|d| - 1]);
      ReadLengthsAreWritable(x);
      var v := Base11Value(x);
      var c := DigitValue(d[|d| - 1]);
      assert Base11Value(d) == 11 * v + c;
      assert (11 * v + c) % 11 == c && (11 * v + c) / 11 == v;
    }
  }

  /** Decimal and base-eleven spellings agree only below ten. */
  lemma SmallLengthsAreDecimal(n: nat)
    requires n < 10
    ensures Writable(n) && Base11String(n) == DecimalString(n)
  {
  }

  // ---------------------------------------------------------------------
  // An encoder the demangler inverts

  function EncodeName(n: SName): string
    requires WellFormedName(n)
    decreases n, 1
  {
    Base11String(|n.sourceName|) + n.sourceName
      + (if n.template.Some? then EncodeTemplate(n.template.value) else "")
  }

  function EncodeTemplate(t: STemplate): string
    requires WellFormedTemplate(t)
    decreases t, 1
  {
    "I" + EncodeArgs(t.arguments) + "E"
  }

  function EncodeArgs(args: seq<SComponent>): string
    requires WellFormedComponents(args)
    decreases args, 1
  {
    if |args| == 0 then "" else EncodeComponent(args[0]) + EncodeArgs(args[1..])
  }

  function EncodeComponent(c: SComponent): string
    requires WellFormedComponent(c)
    decreases c, 1
  {
    match c
    case Name(n) => EncodeName(n)
    case Nested(names) => "N" + EncodeNames(names) + "E"
  }

  function EncodeNames(names: seq<SName>): string
    requires WellFormedNames(names)
    decreases names, 1
  {
    if |names| == 0 then "" else EncodeName(names[0]) + EncodeNames(names[1..])
  }

  /**
   * Trees the encoder can spell unambiguously: lengths the reader can
   * read, identifiers that do not start with a digit, and at least one
   * name in every nested name and one argument in every template.
   */
  predicate WellFormedName(n: SName)
    decreases n, 0
  {
    && Writable(|n.sourceName|)
    && |n.sourceName| > 0
    && !IsDigit(n.sourceName[0])
    && (n.template.Some? ==> WellFormedTemplate(n.template.value))
  }

  predicate WellFormedTemplate(t: STemplate)
    decreases t, 0
  {
    && |t.arguments| > 0
    && WellFormedComponents(t.arguments)
  }

  predicate WellFormedComponent(c: SComponent)
    decreases c, 0
  {
    match c
    case Name(n) => WellFormedName(n)
    case Nested(names) => |names| > 0 && WellFormedNames(names)
  }

  predicate WellFormedComponents(args: seq<SComponent>)
    decreases args, 0
  {
    |args| > 0 ==> WellFormedComponent(args[0]) && WellFormedComponents(args[1..])
  }

  predicate WellFormedNames(names: seq<SName>)
    decreases names, 0
  {
    |names| > 0 ==> WellFormedName(names[0]) && WellFormedNames(names[1..])
  }

  lemma OccursAtSplit(s: string, a: string, b: string, i: nat)
    requires OccursAt(s, a + b, i)
    ensures OccursAt(s, a, i) && OccursAt(s, b, i + |a|)
  {
    assert s[i..i + |a|] == s[i..i + |a + b|][..|a|];
    assert s[i + |a|..i + |a| + |b|] == s[i..i + |a + b|][|a|..];
  }

  lemma OccursAtFirst(s: string, p: string, i: nat)
    requires OccursAt(s, p, i) && |p| > 0
    ensures i < |s| && s[i] == p[0]
  {
    assert s[i..i + |p|][0] == s[i];
  }

  /** The character a component's encoding starts with: a digit for a name, 'N' for a nested name. */
  lemma EncodeComponentStart(c: SComponent)
    requires WellFormedComponent(c)
    ensures |EncodeComponent(c)| > 0
    ensures c.Name? ==> IsDigit(EncodeComponent(c)[0])
    ensures c.Nested? ==> EncodeComponent(c)[0] == 'N'
  {
    if c.Name? {
      var n := c.name;
      var b := Base11String(|n.sourceName|);
      var t := if n.template.Some? then EncodeTemplate(n.template.value) else "";
      assert EncodeComponent(c) == b + n.sourceName + t;
      assert EncodeComponent(c)[0] == b[0];
    }
  }

  lemma EncodeNameStart(n: SName)
    requires WellFormedName(n)
    ensures |EncodeName(n)| > 0 && IsDigit(EncodeName(n)[0])
  {
    EncodeComponentStart(Name(n));
  }

  /** ReadSourceName reads back a length spelled in base eleven followed by that many characters. */
  lemma ReadSourceNameBack(s: string, i: nat, src: string)
    requires Writable(|src|) && |src| > 0 && !IsDigit(src[0])
    requires OccursAt(s, Base11String(|src|) + src, i)
    ensures SourceNameAt(s, i) == Ok((src, i + |Base11String(|src|)| + |src|))
  {
    var b := Base11String(|src|);
    OccursAtSplit(s, b, src, i);
    var j := i + |b|;
    OccursAtFirst(s, src, j);
    NumberReadsBase11(s, i, b, 0);
    Base11RoundTrip(|src|);
  }

  /** ReadName after its source name: a template follows exactly when the next character is 'I'. */
  lemma NameAfterSourceName(s: string, i: nat, src: string, k: nat)
    requires i <= |s| && SourceNameAt(s, i) == Ok((src, k)) && k < |s|
    ensures s[k] != 'I' ==> NameAt(s, i) == Ok((SName(src, None), k))
    ensures s[k] == 'I' && TemplateAt(s, k).Ok? ==>
      NameAt(s, i) == Ok((SName(src, Some(TemplateAt(s, k).value.0)), TemplateAt(s, k).value.1))
  {
  }

  /**
   * A name is read back from its encoding; a name without a template must
   * be followed by some character other than 'I'.
   */
  lemma {:induction false} ReadNameBack(s: string, i: nat, n: SName)
    requires WellFormedName(n) && OccursAt(s, EncodeName(n), i)
    requires n.template.None? ==> i + |EncodeName(n)| < |s| && s[i + |EncodeName(n)|] != 'I'
    ensures NameAt(s, i) == Ok((n, i + |EncodeName(n)|))
    decreases n, 0
  {
    var src := n.sourceName;
    var k := EncodedNameParts(s, i, n);
    ReadSourceNameBack(s, i, src);
    if n.template.Some? {
      var t := EncodeTemplate(n.template.value);
      OccursAtFirst(s, t, k);
      ReadTemplateBack(s, k, n.template.value);
      NameAfterSourceName(s, i, src, k);
    } else {
      NameAfterSourceName(s, i, src, k);
    }
  }

  /** Where a name's encoding puts its length and identifier, and its template. */
  lemma EncodedNameParts(s: string, i: nat, n: SName) returns (k: nat)
    requires WellFormedName(n) && OccursAt(s, EncodeName(n), i)
    ensures OccursAt(s, Base11String(|n.sourceName|) + n.sourceName, i)
    ensures k == i + |Base11String(|n.sourceName|)| + |n.sourceName|
    ensures n.template.None? ==> k == i + |EncodeName(n)|
    ensures n.template.Some? ==>
      OccursAt(s, EncodeTemplate(n.template.value), k)
      && k + |EncodeTemplate(n.template.value)| == i + |EncodeName(n)|
  {
    var b := Base11String(|n.sourceName|);
    var t := if n.template.Some? then EncodeTemplate(n.template.value) else "";
    assert EncodeName(n) == b + n.sourceName + t;
    OccursAtSplit(s, b + n.sourceName, t, i);
    k := i + |b| + |n.sourceName|;
  }

  lemma {:induction false} ReadTemplateBack(s: string, i: nat, t: STemplate)
    requires WellFormedTemplate(t) && OccursAt(s, EncodeTemplate(t), i)
    ensures TemplateAt(s, i) == Ok((t, i + |EncodeTemplate(t)|))
    decreases t, 1
  {
    var body := EncodeArgs(t.arguments);
    assert EncodeTemplate(t) == "I" + (body + "E");
    OccursAtSplit(s, "I", body + "E", i);
    OccursAtFirst(s, "I", i);
    ReadArgsBack(s, i + 1, [], t.arguments);
    assert [] + t.arguments == t.arguments;
  }

  /** ReadTemplate's loop reads the remaining arguments in order and stops on the closing 'E'. */
  lemma {:induction false} ReadArgsBack(s: string, i: nat, done: seq<SComponent>, rest: seq<SComponent>)
    requires |rest| > 0
    requires WellFormedComponents(rest)
    requires OccursAt(s, EncodeArgs(rest) + "E", i)
    ensures TemplateArgsFrom(s, i, done) == Ok((STemplate(done + rest), i + |EncodeArgs(rest)| + 1))
    decreases rest, 2
  {
    var j := FirstArgStep(s, i, done, rest);
    if |rest| == 1 {
      assert rest == [rest[0]];
    } else {
      ReadArgsBack(s, j, done + [rest[0]], rest[1..]);
      MoveFirst(done, rest);
    }
  }

  /** ReadTemplate's loop reads the first remaining argument and either stops or goes on after it. */
  lemma {:induction false} FirstArgStep(s: string, i: nat, done: seq<SComponent>, rest: seq<SComponent>) returns (j: nat)
    requires |rest| > 0 && WellFormedComponents(rest)
    requires OccursAt(s, EncodeArgs(rest) + "E", i)
    ensures j <= |s|
    ensures |rest| == 1 ==> TemplateArgsFrom(s, i, done) == Ok((STemplate(done + [rest[0]]), i + |EncodeArgs(rest)| + 1))
    ensures |rest| > 1 ==>
      && OccursAt(s, EncodeArgs(rest[1..]) + "E", j)
      && j + |EncodeArgs(rest[1..])| == i + |EncodeArgs(rest)|
      && TemplateArgsFrom(s, i, done) == TemplateArgsFrom(s, j, done + [rest[0]])
    decreases rest, 1
  {
    j := ArgsParts(s, i, rest);
    ReadComponentBack(s, i, rest[0]);
    TemplateArgsStep(s, i, done, rest[0], j);
  }

  /** Where the first argument's encoding ends, and what follows it. */
  lemma ArgsParts(s: string, i: nat, rest: seq<SComponent>) returns (j: nat)
    requires |rest| > 0
    requires WellFormedComponents(rest)
    requires OccursAt(s, EncodeArgs(rest) + "E", i)
    ensures OccursAt(s, EncodeComponent(rest[0]), i)
    ensures j == i + |EncodeComponent(rest[0])| && j < |s| && s[j] != 'I'
    ensures |rest| == 1 ==> s[j] == 'E' && j == i + |EncodeArgs(rest)|
    ensures |rest| > 1 ==>
      s[j] != 'E' && OccursAt(s, EncodeArgs(rest[1..]) + "E", j)
      && j + |EncodeArgs(rest[1..])| == i + |EncodeArgs(rest)|
  {
    var first := EncodeComponent(rest[0]);
    var tail := EncodeArgs(rest[1..]);
    assert EncodeArgs(rest) + "E" == first + (tail + "E");
    OccursAtSplit(s, first, tail + "E", i);
    j := i + |first|;
    OccursAtFirst(s, tail + "E", j);
    if |rest| == 1 {
      assert tail == "";
    } else {
      EncodeComponentStart(rest[1]);
      assert (tail + "E")[0] == EncodeComponent(rest[1])[0];
    }
  }

  /** One iteration of ReadTemplate's loop after an argument has been read. */
  lemma TemplateArgsStep(s: string, i: nat, args: seq<SComponent>, a: SComponent, j: nat)
    requires i <= |s| && NameOrNestedAt(s, i) == Ok((a, j)) && j < |s|
    ensures s[j] == 'E' ==> TemplateArgsFrom(s, i, args) == Ok((STemplate(args + [a]), j + 1))
    ensures s[j] != 'E' ==> TemplateArgsFrom(s, i, args) == TemplateArgsFrom(s, j, args + [a])
  {
  }

  lemma {:induction false} ReadComponentBack(s: string, i: nat, c: SComponent)
    requires WellFormedComponent(c) && OccursAt(s, EncodeComponent(c), i)
    requires c.Name? && c.name.template.None? ==>
      i + |EncodeComponent(c)| < |s| && s[i + |EncodeComponent(c)|] != 'I'
    ensures NameOrNestedAt(s, i) == Ok((c, i + |EncodeComponent(c)|))
    decreases c, 1
  {
    EncodeComponentStart(c);
    OccursAtFirst(s, EncodeComponent(c), i);
    if c.Name? {
      NameComponentBack(s, i, c);
    } else {
      NestedComponentBack(s, i, c);
    }
  }

  lemma {:induction false} NameComponentBack(s: string, i: nat, c: SComponent)
    requires c.Name? && WellFormedComponent(c) && OccursAt(s, EncodeComponent(c), i)
    requires i < |s| && IsDigit(s[i])
    requires c.name.template.None? ==>
      i + |EncodeComponent(c)| < |s| && s[i + |EncodeComponent(c)|] != 'I'
    ensures NameOrNestedAt(s, i) == Ok((c, i + |EncodeComponent(c)|))
    decreases c, 0
  {
    var n := c.name;
    var end := i + |EncodeName(n)|;
    assert c == Name(n) && EncodeComponent(c) == EncodeName(n);
    assert WellFormedName(n);
    assert OccursAt(s, EncodeName(n), i);
    assert n.template.None? ==> end < |s| && s[end] != 'I';
    ReadNameBack(s, i, n);
    NameDispatch(s, i, n, end);
  }

  lemma {:induction false} NestedComponentBack(s: string, i: nat, c: SComponent)
    requires c.Nested? && WellFormedComponent(c) && OccursAt(s, EncodeComponent(c), i)
    requires i < |s| && s[i] == 'N'
    ensures NameOrNestedAt(s, i) == Ok((c, i + |EncodeComponent(c)|))
    decreases c, 0
  {
    var names := c.names;
    assert c == Nested(names);
    var end := i + |EncodeComponent(c)|;
    NestedParts(s, i, names);
    assert [] + names == names;
    ReadNamesTo(s, i + 1, [], names, c, end);
    NestedDispatch(s, i);
  }

  lemma NameDispatch(s: string, i: nat, n: SName, end: nat)
    requires i < |s| && IsDigit(s[i]) && NameAt(s, i) == Ok((n, end))
    ensures NameOrNestedAt(s, i) == Ok((Name(n), end))
  {
  }

  lemma NestedDispatch(s: string, i: nat)
    requires i < |s| && s[i] == 'N'
    ensures NameOrNestedAt(s, i) == NestedNamesFrom(s, i + 1, [])
  {
  }

  lemma NestedParts(s: string, i: nat, names: seq<SName>)
    requires |names| > 0 && WellFormedNames(names)
    requires OccursAt(s, EncodeComponent(Nested(names)), i)
    ensures OccursAt(s, EncodeNames(names) + "E", i + 1)
    ensures |EncodeComponent(Nested(names))| == |EncodeNames(names)| + 2
  {
    var body := EncodeNames(names);
    assert EncodeComponent(Nested(names)) == "N" + (body + "E");
    OccursAtSplit(s, "N", body + "E", i);
  }

  /** One iteration of ReadNested's loop after a name has been read. */
  lemma NestedNamesStep(s: string, i: nat, names: seq<SName>, n: SName, j: nat)
    requires i <= |s| && NameAt(s, i) == Ok((n, j)) && j < |s|
    ensures s[j] == 'E' ==> NestedNamesFrom(s, i, names) == Ok((Nested(names + [n]), j + 1))
    ensures s[j] != 'E' && j != i ==> NestedNamesFrom(s, i, names) == NestedNamesFrom(s, j, names + [n])
  {
  }

  /** ReadNested's loop reads the remaining names in order and stops on the closing 'E'. */
  lemma {:induction false} ReadNamesBack(s: string, i: nat, done: seq<SName>, rest: seq<SName>)
    requires |rest| > 0
    requires WellFormedNames(rest)
    requires OccursAt(s, EncodeNames(rest) + "E", i)
    ensures NestedNamesFrom(s, i, done) == Ok((Nested(done + rest), i + |EncodeNames(rest)| + 1))
    decreases rest, 3
  {
    ReadNamesTo(s, i, done, rest, Nested(done + rest), i + |EncodeNames(rest)| + 1);
  }

  /**
   * The same, with the final names and end position fixed, so that every
   * turn of the loop is shown to reach the same result.
   */
  lemma {:induction false} ReadNamesTo(s: string, i: nat, done: seq<SName>, rest: seq<SName>, result: SComponent, end: nat)
    requires |rest| > 0
    requires WellFormedNames(rest)
    requires OccursAt(s, EncodeNames(rest) + "E", i)
    requires result == Nested(done + rest) && end == i + |EncodeNames(rest)| + 1
    ensures NestedNamesFrom(s, i, done) == Ok((result, end))
    decreases rest, 2
  {
    if |rest| == 1 {
      LastNameStep(s, i, done, rest);
    } else {
      var j := FirstNameRead(s, i, done, rest);
      MoveFirst(done, rest);
      ReadNamesTo(s, j, done + [rest[0]], rest[1..], result, end);
    }
  }

  /** ReadNested's loop reads the last remaining name and stops at the 'E' after it. */
  lemma {:induction false} LastNameStep(s: string, i: nat, done: seq<SName>, rest: seq<SName>)
    requires |rest| == 1 && WellFormedNames(rest)
    requires OccursAt(s, EncodeNames(rest) + "E", i)
    ensures NestedNamesFrom(s, i, done) == Ok((Nested(done + rest), i + |EncodeNames(rest)| + 1))
    decreases rest, 1
  {
    var j := NamesParts(s, i, rest);
    ReadNameBack(s, i, rest[0]);
    EncodeNameStart(rest[0]);
    NestedNamesStep(s, i, done, rest[0], j);
    assert rest == [rest[0]];
  }

  /** The first of several names is read, and the loop goes on after it. */
  lemma {:induction false} FirstNameRead(s: string, i: nat, done: seq<SName>, rest: seq<SName>) returns (j: nat)
    requires |rest| > 1 && WellFormedNames(rest)
    requires OccursAt(s, EncodeNames(rest) + "E", i)
    ensures j <= |s| && WellFormedNames(rest[1..])
    ensures OccursAt(s, EncodeNames(rest[1..]) + "E", j)
    ensures j + |EncodeNames(rest[1..])| == i + |EncodeNames(rest)|
    ensures NestedNamesFrom(s, i, done) == NestedNamesFrom(s, j, done + [rest[0]])
    decreases rest, 0
  {
    j := NamesParts(s, i, rest);
    ReadNameBack(s, i, rest[0]);
    EncodeNameStart(rest[0]);
    NestedNamesStep(s, i, done, rest[0], j);
  }

  /** Moving the first of the remaining items to the done ones keeps their concatenation. */
  lemma MoveFirst<T>(done: seq<T>, rest: seq<T>)
    requires |rest| > 0
    ensures done + [rest[0]] + rest[1..] == done + rest
  {
    assert [rest[0]] + rest[1..] == rest;
  }

  /** Where the first name's encoding ends, and what follows it. */
  lemma NamesParts(s: string, i: nat, rest: seq<SName>) returns (j: nat)
    requires |rest| > 0
    requires WellFormedNames(rest)
    requires OccursAt(s, EncodeNames(rest) + "E", i)
    ensures OccursAt(s, EncodeName(rest[0]), i)
    ensures j == i + |EncodeName(rest[0])| && j < |s| && s[j] != 'I'
    ensures |rest| == 1 ==> s[j] == 'E' && j == i + |EncodeNames(rest)|
    ensures |rest| > 1 ==>
      s[j] != 'E' && OccursAt(s, EncodeNames(rest[1..]) + "E", j)
      && j + |EncodeNames(rest[1..])| == i + |EncodeNames(rest)|
  {
    var first := EncodeName(rest[0]);
    var tail := EncodeNames(rest[1..]);
    assert EncodeNames(rest) + "E" == first + (tail + "E");
    OccursAtSplit(s, first, tail + "E", i);
    j := i + |first|;
    OccursAtFirst(s, tail + "E", j);
    if |rest| == 1 {
      assert tail == "";
    } else {
      EncodeNameStart(rest[1]);
      assert (tail + "E")[0] == EncodeName(rest[1])[0];
    }
  }

  /**
   * Round trip: "_Z" followed by the encoding of a well-formed component
   * demangles to that component, whatever follows it (a bare top-level
   * name must be followed by a character other than 'I').
   */
  lemma DemangleEncoded(c: SComponent, rest: string)
    requires WellFormedComponent(c)
    requires c.Name? && c.name.template.None? ==> |rest| > 0 && rest[0] != 'I'
    ensures Demangle("_Z" + EncodeComponent(c) + rest) == Ok(c)
  {
    var s := "_Z" + EncodeComponent(c) + rest;
    var e := EncodeComponent(c);
    assert s[2..2 + |e|] == e;
    if c.Name? && c.name.template.None? {
      assert s[2 + |e|] == rest[0];
    }
    ReadComponentBack(s, 2, c);
  }

  // ---------------------------------------------------------------------
  // The mangled-name prefix and the dispatch

  /** The constructor rejects exactly the texts whose first two characters are not "_Z". */
  lemma NotMangledExactly(s: string)
    ensures Demangle(s) == Err(NotMangled) <==>
      |s| > 0 && (s[0] != '_' || (|s| > 1 && s[1] != 'Z'))
    ensures Demangle(s).Ok? ==> StartsWith(s, "_Z")
    ensures StartsWith(s, "_Z") ==>
      Demangle(s) == match NameOrNestedAt(s, 2) case Ok(v) => Ok(v.0) case Err(e) => Err(e)
  {
    if StartsWith(s, "_Z") {
      assert s[0] == s[..2][0] && s[1] == s[..2][1];
    }
    if |s| >= 2 && s[0] == '_' && s[1] == 'Z' {
      assert s[..2] == "_Z";
    }
  }

  /** A digit starts a plain name, 'N' a nested name, and anything else is a special name. */
  lemma Dispatch(s: string, i: nat)
    requires i <= |s|
    ensures NameOrNestedAt(s, i).Ok? ==>
      || (IsDigit(s[i]) && NameOrNestedAt(s, i).value.0.Name?)
      || (s[i] == 'N' && NameOrNestedAt(s, i).value.0.Nested?)
    ensures i < |s| && !IsDigit(s[i]) && s[i] != 'N' ==>
      NameOrNestedAt(s, i) == Err(SpecialNameNotImplemented(i))
  {
    if i < |s| && !IsDigit(s[i]) && s[i] == 'N' {
      NestedShape(s, i);
    }
  }

  /** The loop of ReadNested keeps the names it has, adds at least one, and ends just after an 'E'. */
  lemma {:induction false} NestedLoopShape(s: string, i: nat, names: seq<SName>)
    requires i <= |s|
    ensures NestedNamesFrom(s, i, names).Ok? ==>
      var (c, k) := NestedNamesFrom(s, i, names).value;
      && c.Nested? && |c.names| > |names| && c.names[..|names|] == names
      && s[k - 1] == 'E'
    decreases |s| - i
  {
    match NameAt(s, i)
    case Err(_) =>
    case Ok((n, j)) =>
      if j < |s| && s[j] != 'E' && j != i {
        NestedLoopShape(s, j, names + [n]);
        var r := NestedNamesFrom(s, j, names + [n]);
        if r.Ok? {
          assert r.value.0.names[..|names|] == r.value.0.names[..|names| + 1][..|names|];
        }
      } else if j < |s| && s[j] == 'E' {
        assert (names + [n])[..|names|] == names;
      }
  }

  /** ReadNested needs its 'N' and yields one or more names, having consumed a closing 'E'. */
  lemma NestedShape(s: string, i: nat)
    requires i <= |s|
    ensures NestedAt(s, i).Ok? ==>
      var (c, k) := NestedAt(s, i).value;
      s[i] == 'N' && c.Nested? && |c.names| >= 1 && s[k - 1] == 'E'
    ensures i < |s| && s[i] != 'N' ==> NestedAt(s, i) == Err(NotNested(i))
  {
    if i < |s| && s[i] == 'N' {
      NestedLoopShape(s, i + 1, []);
    }
  }

  /** The loop of ReadTemplate keeps the arguments it has, adds at least one, and ends just after an 'E'. */
  lemma {:induction false} TemplateLoopShape(s: string, i: nat, args: seq<SComponent>)
    requires i <= |s|
    ensures TemplateArgsFrom(s, i, args).Ok? ==>
      var (t, k) := TemplateArgsFrom(s, i, args).value;
      |t.arguments| > |args| && t.arguments[..|args|] == args && s[k - 1] == 'E'
    decreases |s| - i
  {
    match NameOrNestedAt(s, i)
    case Err(_) =>
    case Ok((a, j)) =>
      if j < |s| && s[j] != 'E' {
        TemplateLoopShape(s, j, args + [a]);
        var r := TemplateArgsFrom(s, j, args + [a]);
        if r.Ok? {
          assert r.value.0.arguments[..|args|] == r.value.0.arguments[..|args| + 1][..|args|];
        }
      } else if j < |s| && s[j] == 'E' {
        assert (args + [a])[..|args|] == args;
      }
  }

  /** ReadTemplate needs its 'I' and yields one or more arguments, having consumed a closing 'E'. */
  lemma TemplateShape(s: string, i: nat)
    requires i <= |s|
    ensures TemplateAt(s, i).Ok? ==>
      var (t, k) := TemplateAt(s, i).value;
      s[i] == 'I' && |t.arguments| >= 1 && s[k - 1] == 'E'
    ensures i < |s| && s[i] != 'I' ==> TemplateAt(s, i) == Err(NotTemplate(i))
  {
    if i < |s| && s[i] == 'I' {
      TemplateLoopShape(s, i + 1, []);
    }
  }

  // ---------------------------------------------------------------------
  // No progress in ReadNested

  /**
   * At a character that is not a digit, not 'I' and not 'E', ReadName
   * reads an empty name without moving, so an iteration of ReadNested's
   * loop leaves the cursor where it was and the loop never ends.
   */
  lemma NoProgressInNested(s: string, i: nat, names: seq<SName>)
    requires i < |s| && !IsDigit(s[i]) && s[i] != 'I' && s[i] != 'E'
    ensures NameAt(s, i) == Ok((SName("", None), i))
    ensures NestedNamesFrom(s, i, names) == Err(NoProgress(i))
  {
    assert NumberFrom(s, i, 0) == Ok((0, i));
    assert s[i..i] == "";
  }

  lemma NoProgressExample()
    ensures Demangle("_ZNX") == Err(NoProgress(3))
  {
    NoProgressInNested("_ZNX", 3, []);
  }

  /** At an 'E' the same empty name ends the nested name instead. */
  lemma EmptyNestedName()
    ensures Demangle("_ZNE") == Ok(Nested([SName("", None)]))
  {
    var s := "_ZNE";
    assert NumberFrom(s, 3, 0) == Ok((0, 3));
    assert s[3..3] == "";
    assert SourceNameAt(s, 3) == Ok(("", 3));
    assert NameAt(s, 3) == Ok((SName("", None), 3));
    assert [] + [SName("", None)] == [SName("", None)];
    assert NestedNamesFrom(s, 3, []) == Ok((Nested([SName("", None)]), 4));
  }

  // ---------------------------------------------------------------------
  // The end of the input and what follows the first component

  /** A bare name that ends the input fails when ReadName peeks for 'I'. */
  lemma BareNameAtEnd()
    ensures Demangle("_Z3foo") == Err(IndexOutOfRange(6))
  {
    var s := "_Z3foo";
    assert NumberFrom(s, 2, 0) == Ok((3, 3));
    assert SourceNameAt(s, 2) == Ok((s[3..6], 6));
  }

  /** The decimal length "10" is read as eleven, so the standard spelling of a ten-letter name fails. */
  lemma DecimalTenFails()
    ensures Demangle("_Z10abcdefghijv") == Err(IndexOutOfRange(15))
  {
    var s := "_Z10abcdefghijv";
    assert NumberFrom(s, 4, 11) == Ok((11, 4));
    assert NumberFrom(s, 2, 0) == Ok((11, 4));
    assert SourceNameAt(s, 2) == Ok((s[4..15], 15));
  }

  lemma TrailingExample()
    ensures Demangle("_Z3fooi") == Ok(Name(SName("foo", None)))
  {
    var s := "_Z3fooi";
    assert NumberFrom(s, 2, 0) == Ok((3, 3));
    assert SourceNameAt(s, 2) == Ok((s[3..6], 6));
    assert s[3..6] == "foo";
    assert NameAt(s, 2) == Ok((SName("foo", None), 6));
  }

  predicate Extends(s: string, s2: string) {
    |s| <= |s2| && s2[..|s|] == s
  }

  lemma ExtendsAt(s: string, s2: string, i: nat)
    requires Extends(s, s2) && i < |s|
    ensures s2[i] == s[i]
  {
    assert s2[..|s|][i] == s2[i];
  }

  lemma {:induction false} NumberExtends(s: string, s2: string, i: nat, acc: nat)
    requires Extends(s, s2) && i <= |s|
    ensures NumberFrom(s, i, acc).Ok? ==> NumberFrom(s2, i, acc) == NumberFrom(s, i, acc)
    decreases |s| - i
  {
    if i < |s| {
      ExtendsAt(s, s2, i);
      if IsDigit(s[i]) {
        NumberExtends(s, s2, i + 1, acc + acc * 10 + DigitValue(s[i]));
      }
    }
  }

  lemma SourceNameExtends(s: string, s2: string, i: nat)
    requires Extends(s, s2) && i <= |s|
    ensures SourceNameAt(s, i).Ok? ==> SourceNameAt(s2, i) == SourceNameAt(s, i)
  {
    NumberExtends(s, s2, i, 0);
    match NumberFrom(s, i, 0)
    case Err(_) =>
    case Ok((length, j)) =>
      if j + length <= |s| {
        forall k | j <= k < j + length ensures s2[k] == s[k] {
          ExtendsAt(s, s2, k);
        }
        assert s2[j..j + length] == s[j..j + length];
      }
  }

  lemma {:induction false} NameExtends(s: string, s2: string, i: nat)
    requires Extends(s, s2) && i <= |s|
    ensures NameAt(s, i).Ok? ==> NameAt(s2, i) == NameAt(s, i)
    decreases |s| - i, 2
  {
    SourceNameExtends(s, s2, i);
    match SourceNameAt(s, i)
    case Err(_) =>
    case Ok((_, j)) =>
      if j < |s| {
        ExtendsAt(s, s2, j);
        if s[j] == 'I' {
          TemplateExtends(s, s2, j);
        }
      }
  }

  lemma {:induction false} NameOrNestedExtends(s: string, s2: string, i: nat)
    requires Extends(s, s2) && i <= |s|
    ensures NameOrNestedAt(s, i).Ok? ==> NameOrNestedAt(s2, i) == NameOrNestedAt(s, i)
    decreases |s| - i, 3
  {
    if i < |s| {
      ExtendsAt(s, s2, i);
      if IsDigit(s[i]) {
        NameExtends(s, s2, i);
      } else if s[i] == 'N' {
        NestedExtends(s, s2, i);
      }
    }
  }

  lemma {:induction false} NestedExtends(s: string, s2: string, i: nat)
    requires Extends(s, s2) && i <= |s|
    ensures NestedAt(s, i).Ok? ==> NestedAt(s2, i) == NestedAt(s, i)
    decreases |s| - i, 2
  {
    if i < |s| {
      ExtendsAt(s, s2, i);
      if s[i] == 'N' {
        NestedNamesExtends(s, s2, i + 1, []);
      }
    }
  }

  lemma {:induction false} NestedNamesExtends(s: string, s2: string, i: nat, names: seq<SName>)
    requires Extends(s, s2) && i <= |s|
    ensures NestedNamesFrom(s, i, names).Ok? ==> NestedNamesFrom(s2, i, names) == NestedNamesFrom(s, i, names)
    decreases |s| - i, 3
  {
    NameExtends(s, s2, i);
    match NameAt(s, i)
    case Err(_) =>
    case Ok((n, j)) =>
      if j < |s| {
        ExtendsAt(s, s2, j);
        if s[j] != 'E' && j != i {
          NestedNamesExtends(s, s2, j, names + [n]);
        }
      }
  }

  lemma {:induction false} TemplateExtends(s: string, s2: string, i: nat)
    requires Extends(s, s2) && i <= |s|
    ensures TemplateAt(s, i).Ok? ==> TemplateAt(s2, i) == TemplateAt(s, i)
    decreases |s| - i, 1
  {
    if i < |s| {
      ExtendsAt(s, s2, i);
      if s[i] == 'I' {
        TemplateArgsExtends(s, s2, i + 1, []);
      }
    }
  }

  lemma {:induction false} TemplateArgsExtends(s: string, s2: string, i: nat, args: seq<SComponent>)
    requires Extends(s, s2) && i <= |s|
    ensures TemplateArgsFrom(s, i, args).Ok? ==> TemplateArgsFrom(s2, i, args) == TemplateArgsFrom(s, i, args)
    decreases |s| - i, 4
  {
    NameOrNestedExtends(s, s2, i);
    match NameOrNestedAt(s, i)
    case Err(_) =>
    case Ok((a, j)) =>
      if j < |s| {
        ExtendsAt(s, s2, j);
        if s[j] != 'E' {
          TemplateArgsExtends(s, s2, j, args + [a]);
        }
      }
  }

  /** Only one component is read: once a text demangles, appending anything leaves the result unchanged. */
  lemma TrailingInputIgnored(s: string, t: string)
    requires Demangle(s).Ok?
    ensures Demangle(s + t) == Demangle(s)
  {
    assert Extends(s, s + t) by {
      assert (s + t)[..|s|] == s;
    }
    NotMangledExactly(s);
    assert (s + t)[0] == s[0] && (s + t)[1] == s[1];
    NameOrNestedExtends(s, s + t, 2);
  }
}
