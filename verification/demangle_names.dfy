/**
 * The tree the hand-written demangler builds (S_Name, S_Nested, S_Template)
 * and its rendering as text (GetNameString).  An S_Name holds a source
 * name and an optional template; an S_Nested holds one or more S_Names; a
 * template holds one or more components, each an S_Name or an S_Nested.
 */
module DemangleNames {
  import opened Wrappers
  import opened Text

  datatype SName = SName(sourceName: string, template: Option<STemplate>)

  datatype STemplate = STemplate(arguments: seq<SComponent>)

  /** The S_Component interface: either an S_Name or an S_Nested. */
  datatype SComponent = Name(name: SName) | Nested(names: seq<SName>)

  /** S_Name.GetNameString: the source name, then `<a, b>` only when there is a template. */
  function NameString(n: SName): string
    decreases n, 0
  {
    match n.template
    case None => n.sourceName
    case Some(t) => n.sourceName + "<" + Join(ComponentStrings(t.arguments), ", ") + ">"
  }

  /** S_Component.GetNameString, dispatched on the kind of component. */
  function ComponentString(c: SComponent): string
    decreases c, 1
  {
    match c
    case Name(n) => NameString(n)
    case Nested(names) => Join(NameStrings(names), "::")
  }

  function ComponentStrings(args: seq<SComponent>): (r: seq<string>)
    decreases args, 2
    ensures |r| == |args|
    ensures forall k :: 0 <= k < |args| ==> r[k] == ComponentString(args[k])
  {
    if |args| == 0 then []
    else ComponentStrings(args[..|args| - 1]) + [ComponentString(args[|args| - 1])]
  }

  function NameStrings(names: seq<SName>): (r: seq<string>)
    decreases names, 2
    ensures |r| == |names|
    ensures forall k :: 0 <= k < |names| ==> r[k] == NameString(names[k])
  {
    if |names| == 0 then []
    else NameStrings(names[..|names| - 1]) + [NameString(names[|names| - 1])]
  }

  /**
   * S_Nested.GetNameString: one name renders as that name alone, and each
   * further name adds "::" and its own rendering at the end.
   */
  lemma NestedStringSnoc(names: seq<SName>, n: SName)
    ensures ComponentString(Nested(names + [n])) ==
              if |names| == 0 then NameString(n)
              else ComponentString(Nested(names)) + "::" + NameString(n)
  {
    assert (names + [n])[..|names|] == names;
    assert NameStrings(names + [n]) == NameStrings(names) + [NameString(n)];
    JoinSnoc(NameStrings(names), NameString(n), "::");
  }

  /** One more argument extends the joined text by a separator (after the first) and that argument. */
  lemma BuilderStep(prefix: string, args: seq<SComponent>, k: nat)
    requires k < |args|
    ensures k == 0 ==> prefix + Join(ComponentStrings(args[..k + 1]), ", ") == prefix + Join(ComponentStrings(args[..k]), ", ") + ComponentString(args[k])
    ensures k > 0 ==> prefix + Join(ComponentStrings(args[..k + 1]), ", ") == prefix + Join(ComponentStrings(args[..k]), ", ") + ", " + ComponentString(args[k])
  {
    var before := ComponentStrings(args[..k]);
    assert args[..k + 1][..k] == args[..k];
    assert ComponentStrings(args[..k + 1]) == before + [ComponentString(args[k])];
    JoinSnoc(before, ComponentString(args[k]), ", ");
    if k == 0 {
      assert Join(before, ", ") == [];
    }
  }

  /**
   * S_Name.GetNameString as the source writes it: a builder that appends
   * the source name, then for a template an opening `<`, each argument
   * preceded by ", " once a first argument has been written, and `>`.
   */
  method GetNameString(n: SName) returns (r: string)
    ensures r == NameString(n)
  {
    var builder := n.sourceName;
    if n.template.Some? {
      var args := n.template.value.arguments;
      builder := builder + "<";
      var comma := false;
      var k := 0;
      while k < |args|
        invariant 0 <= k <= |args|
        invariant comma == (k > 0)
        invariant builder == n.sourceName + "<" + Join(ComponentStrings(args[..k]), ", ")
      {
        BuilderStep(n.sourceName + "<", args, k);
        if comma {
          builder := builder + ", ";
        }
        builder := builder + ComponentString(args[k]);
        comma := true;
        k := k + 1;
      }
      assert args[..|args|] == args;
      builder := builder + ">";
    }
    r := builder;
  }
}
