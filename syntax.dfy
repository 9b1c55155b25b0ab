/** The part of a parsed Rust type declaration (the `syn` crate's `DeriveInput`)
    that the derive macros look at. Token-level details (spans, punctuation,
    generics, visibility, discriminant expressions) are not represented. */
module Syntax {

  /** An identifier, as its `Display` text. */
  type Ident = string

  datatype Option<+T> = None | Some(value: T)

  /** An abstract type token, such as `i32` or `Complex`. */
  datatype Type = Type(path: string)

  /** An outer attribute `#[path tokens]`. */
  datatype Attribute = Attribute(path: string, tokens: string)

  /** A field of a variant or struct; `ident` is `None` for a positional field. */
  datatype Field = Field(attrs: seq<Attribute>, ident: Option<Ident>, ty: Type)

  /** The three field shapes a variant can have:
      `A`, `A { x: T, .. }` and `A(T, ..)`. */
  datatype Fields =
    | Unit
    | Named(named: seq<Field>)
    | Unnamed(unnamed: seq<Field>)

  datatype Variant = Variant(attrs: seq<Attribute>, ident: Ident, fields: Fields)

  /** The body of an `enum` declaration: its variants in declaration order. */
  datatype DataEnum = DataEnum(variants: seq<Variant>)

  /** The kind of a type declaration. */
  datatype Data =
    | Enum(data: DataEnum)
    | Struct(fields: Fields)
    | Union(named: seq<Field>)

  /** The input of a derive macro: the declaration it is attached to. */
  datatype DeriveInput = DeriveInput(attrs: seq<Attribute>, ident: Ident, data: Data)

  /** The types of a field list, in order. */
  function Types(fs: seq<Field>): (tys: seq<Type>)
    ensures |tys| == |fs|
    ensures forall i :: 0 <= i < |fs| ==> tys[i] == fs[i].ty
  {
    if fs == [] then [] else [fs[0].ty] + Types(fs[1..])
  }
}
