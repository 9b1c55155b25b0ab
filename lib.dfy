/** The shared helpers of the crate root: the declaration-kind check
    `assert_enum`, the variant shape check `get_wrapped_unnamed`, and the
    panics they raise. A panic inside a derive macro aborts compilation; here
    it is the `Err` arm of `Result`. */
module Lib {
  import opened Syntax

  /** The panics of the helpers, with the names their messages are built from. */
  datatype Panic =
    | NotEnum(name: Ident, macroName: string)
    | UnitVariant(name: Ident, macroName: string)
    | NamedVariant(name: Ident, macroName: string)

  datatype Result<+T> = Ok(value: T) | Err(panic: Panic)

  /** The text of a panic, as the `panic!` and `format!` calls build it. */
  function Message(p: Panic): string
  {
    match p
    case NotEnum(id, m) => id + " must be an enum to use " + m
    case UnitVariant(e, m) => ShapePrefix(e, m) + " with unit variant"
    case NamedVariant(e, m) => ShapePrefix(e, m) + " with named variant"
  }

  /** The common start of both shape panics. */
  function ShapePrefix(enumName: Ident, macroName: string): string
  {
    enumName + ": can not use " + macroName
  }

  predicate Contains(s: string, t: string)
  {
    exists i :: 0 <= i <= |s| && t <= s[i..]
  }

  /** Every panic message starts with the type's name and mentions the macro. */
  lemma MessageNamesTypeAndMacro(p: Panic)
    ensures |p.name| <= |Message(p)| && Message(p)[..|p.name|] == p.name
    ensures Contains(Message(p), p.macroName)
  {
    var s := Message(p);
    var sep := if p.NotEnum? then " must be an enum to use " else ": can not use ";
    var tail := if p.NotEnum? then "" else if p.UnitVariant? then " with unit variant" else " with named variant";
    assert s == p.name + sep + p.macroName + tail;
    var i := |p.name| + |sep|;
    assert p.macroName <= s[i..];
  }

  /** `s` and `t` agree character by character. */
  lemma SameText(s: string, t: string)
    requires |s| == |t|
    requires forall i :: 0 <= i < |s| ==> s[i] == t[i]
    ensures s == t
  {
  }

  /** The exact text of the panic of `assert_enum`. */
  lemma NotEnumMessageText()
    ensures Message(NotEnum("Point", "EnumFromWrapped")) == "Point must be an enum to use EnumFromWrapped"
  {
    SameText(Message(NotEnum("Point", "EnumFromWrapped")), "Point must be an enum to use EnumFromWrapped");
  }

  /** The exact text of the unit-variant panic of `get_wrapped_unnamed`. */
  lemma UnitVariantMessageText()
    ensures Message(UnitVariant("E", "EnumFromWrapped")) == "E: can not use EnumFromWrapped with unit variant"
  {
    SameText(ShapePrefix("E", "EnumFromWrapped"), "E: can not use EnumFromWrapped");
    SameText("E: can not use EnumFromWrapped" + " with unit variant", "E: can not use EnumFromWrapped with unit variant");
  }

  /** The exact text of the named-variant panic of `get_wrapped_unnamed`. */
  lemma NamedVariantMessageText()
    ensures Message(NamedVariant("E", "EnumFromWrapped")) == "E: can not use EnumFromWrapped with named variant"
  {
    SameText(ShapePrefix("E", "EnumFromWrapped"), "E: can not use EnumFromWrapped");
    SameText("E: can not use EnumFromWrapped" + " with named variant", "E: can not use EnumFromWrapped with named variant");
  }

  /** The unit-variant and named-variant panics can never be confused:
      their messages differ whatever the names. */
  lemma ShapeMessagesDiffer(e1: Ident, m1: string, e2: Ident, m2: string)
    ensures Message(UnitVariant(e1, m1)) != Message(NamedVariant(e2, m2))
  {
    var s := Message(UnitVariant(e1, m1));
    var t := Message(NamedVariant(e2, m2));
    var us := " with unit variant";
    var ns := " with named variant";
    assert s == ShapePrefix(e1, m1) + us;
    assert t == ShapePrefix(e2, m2) + ns;
    assert s[|s| - 9] == us[|us| - 9] == 't';
    assert t[|t| - 9] == ns[|ns| - 9] == 'd';
  }

  /** `assert_enum`: hand back the identifier and the enum body, or panic
      naming the type and the macro that needs an enum. */
  function AssertEnum(name: string, input: DeriveInput): (r: Result<(Ident, DataEnum)>)
    ensures r.Ok? <==> input.data.Enum?
    ensures r.Ok? ==> r.value.0 == input.ident && input.data == Enum(r.value.1)
    ensures r.Err? ==> r.panic == NotEnum(input.ident, name)
  {
    match input.data
    case Enum(data) => Ok((input.ident, data))
    case _ => Err(NotEnum(input.ident, name))
  }

  /** `get_wrapped_unnamed`: the whole positional field list of a variant.
      Its length is not checked, so zero or several fields are returned too. */
  function GetWrappedUnnamed(macroName: string, enumName: Ident, fields: Fields): (r: Result<seq<Field>>)
    ensures r.Ok? <==> fields.Unnamed?
    ensures r.Ok? ==> fields == Unnamed(r.value)
    ensures fields.Unit? ==> r.panic == UnitVariant(enumName, macroName)
    ensures fields.Named? ==> r.panic == NamedVariant(enumName, macroName)
  {
    match fields
    case Unnamed(unnamed) => Ok(unnamed)
    case Unit => Err(UnitVariant(enumName, macroName))
    case Named(_) => Err(NamedVariant(enumName, macroName))
  }
}
