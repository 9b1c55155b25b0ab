/** The `EnumFromWrapped` derive entry point of the crate root: check that the
    declaration is an enum, then build the generator and write its output. */
module Derive {
  import opened Syntax
  import opened Lib
  import opened EnumFromWrapped

  /** `enum_from_wrapped`, from the parsed declaration to the emitted impls.
      A non-enum declaration panics before the generator is built. */
  function EnumFromWrappedDerive(input: DeriveInput): (r: Result<seq<Impl>>)
    ensures !input.data.Enum? ==> r == Err(NotEnum(input.ident, MacroName))
    ensures r.Ok? <==> input.data.Enum? && AllUnnamed(input.data.data.variants)
    ensures r.Ok? ==> Emits(input.ident, input.data.data.variants, r.value)
    ensures input.data.Enum? && r.Err? ==> FailsAtFirst(input.ident, input.data.data.variants, r.panic)
  {
    match AssertEnum(MacroName, input)
    case Err(p) => Err(p)
    case Ok((id, data)) => WriteOutput(New(id, data))
  }

  /** An enum with no variants derives successfully and emits nothing. */
  lemma EmptyEnumEmitsNothing(attrs: seq<Attribute>, name: Ident)
    ensures EnumFromWrappedDerive(DeriveInput(attrs, name, Enum(DataEnum([])))) == Ok([])
  {
  }

  /** The declaration of the crate's documentation example:
      `enum Number { Integer(i32), Float(f64) }`. */
  function NumberDecl(): DeriveInput
  {
    DeriveInput([], "Number", Enum(DataEnum([
      Variant([], "Integer", Unnamed([Field([], None, Type("i32"))])),
      Variant([], "Float", Unnamed([Field([], None, Type("f64"))]))])))
  }

  /** `Number::from(1) == Number::Integer(1)` and
      `Number::from(1.0) == Number::Float(1.0)`: each argument type selects
      exactly one generated impl, which builds the matching variant. */
  lemma NumberExample()
    ensures EnumFromWrappedDerive(NumberDecl()) == Ok([
      FromImpl([Field([], None, Type("i32"))], "Number", "Integer"),
      FromImpl([Field([], None, Type("f64"))], "Number", "Float")])
    ensures var out := EnumFromWrappedDerive(NumberDecl()).value;
      && Candidates(out, [Type("i32")]) == [out[0]]
      && Candidates(out, [Type("f64")]) == [out[1]]
      && From(out[0], 1) == EnumValue("Number", "Integer", 1)
      && From(out[1], 1.0) == EnumValue("Number", "Float", 1.0)
  {
    var vs := NumberDecl().data.data.variants;
    assert vs[0].fields.Unnamed? && vs[1].fields.Unnamed?;
    assert AllUnnamed(vs);
    var out := EnumFromWrappedDerive(NumberDecl()).value;
    assert out[0] == FromImpl([Field([], None, Type("i32"))], "Number", "Integer");
    assert out[1] == FromImpl([Field([], None, Type("f64"))], "Number", "Float");
    assert |out| == 2 && out == [out[0], out[1]];
    assert Types(out[0].wrapped) == [Type("i32")];
    assert Types(out[1].wrapped) == [Type("f64")];
    assert [Type("i32")] != [Type("f64")];
    CandidatesOnly(out, [Type("i32")], 0);
    CandidatesOnly(out, [Type("f64")], 1);
  }

  /** A unit variant before a named one: the unit variant's panic is raised,
      it names the enum and the macro, and nothing is emitted. */
  lemma FirstBadVariantWins()
    ensures EnumFromWrappedDerive(DeriveInput([], "E", Enum(DataEnum([
      Variant([], "A", Unnamed([Field([], None, Type("u8"))])),
      Variant([], "B", Unit),
      Variant([], "C", Named([Field([], Some("x"), Type("u8"))]))]))))
      == Err(UnitVariant("E", "EnumFromWrapped"))
  {
  }

  /** A struct declaration is refused with the panic naming it and the macro. */
  lemma StructRefused(fields: Fields)
    ensures EnumFromWrappedDerive(DeriveInput([], "Point", Struct(fields)))
      == Err(NotEnum("Point", "EnumFromWrapped"))
  {
  }
}
