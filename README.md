# roset: the `EnumFromWrapped` derive macro, modelled in Dafny

The roset crate provides derive macros for Rust enums. This project models the
"wrap-all" macro `EnumFromWrapped` and the shared helpers it depends on.

Given a type declaration, the macro does four things:
1. It refuses the declaration unless it is an `enum` (`assert_enum`).
2. It checks each variant's field shape (`get_wrapped_unnamed`).
3. It emits one `impl From<T> for Enum` per variant, in declaration order.
   The generated `from(inner)` returns `Self::Variant(inner)`.
4. It panics on the first unit variant (`A`) or named-fields variant
   (`A { x: T }`). A panic aborts compilation, so nothing is emitted.

Modules:
- `Syntax` (`syntax.dfy`) holds the parts of a parsed declaration that the
  macro reads.
- `Lib` (`lib.dfy`) holds the panics, `assert_enum`, `get_wrapped_unnamed`
  and the text of the panic messages.
- `EnumFromWrapped` (`enum_from_wrapped.dfy`) holds the generator struct,
  `new`, `write_output` and what a generated `from` evaluates to.
- `Derive` (`derive.dfy`) holds the `enum_from_wrapped` entry point and the
  crate's documentation example.

The Rust crate root and the generator file import each other. Dafny modules
cannot import each other in a cycle, so `src/lib.rs` is split: its helpers
are in `Lib` and its entry point is in `Derive`.

A panic is the `Err` arm of `Lib.Result`. It carries a `Lib.Panic` kind
(`NotEnum`, `UnitVariant`, `NamedVariant`) with the type's name and the macro's
name. `Lib.Message` renders the panic text as the `format!` calls build it.

Two behaviours of the code are easy to miss:
- `get_wrapped_unnamed` returns the variant's whole positional field list. It
  does not check that there is exactly one field, so `A()` and `A(u8, u16)`
  pass. A generated impl's `wrapped` is that whole list.
- The shape panics name the enum and the macro, not the offending variant.

## Model

| member | source | states |
|---|---|---|
| `Lib.AssertEnum` | src/lib.rs:126-132 | Succeeds exactly when the declaration is an enum. On success it returns the declaration's identifier and its enum body unchanged. Otherwise it panics with `NotEnum` naming the type and the macro. |
| `Lib.GetWrappedUnnamed` | src/lib.rs:134-145 | Succeeds exactly on positional fields and returns that field list itself, whatever its length. A unit variant gives `UnitVariant` and a named-fields variant gives `NamedVariant`, both carrying the enum name and the macro name. |
| `Lib.NotEnumMessageText` | src/lib.rs:130 | `Lib.Message` renders the `assert_enum` panic as its `format!` builds it: "Point must be an enum to use EnumFromWrapped". |
| `Lib.UnitVariantMessageText` | src/lib.rs:139-142 | `Lib.Message` renders the unit-variant panic as "E: can not use EnumFromWrapped with unit variant". |
| `Lib.NamedVariantMessageText` | src/lib.rs:139-143 | `Lib.Message` renders the named-variant panic as "E: can not use EnumFromWrapped with named variant". |
| `Lib.MessageNamesTypeAndMacro` | src/lib.rs:130-143 | Every panic message starts with the type's name and contains the macro's name. |
| `Lib.ShapeMessagesDiffer` | src/lib.rs:139-143 | The unit-variant message and the named-variant message are never equal, whatever enum and macro names they carry. |
| `EnumFromWrapped.New` | src/enum_from_wrapped.rs:13-18 | The generator stores the enum name and the enum body unchanged. |
| `EnumFromWrapped.VariantImpl` | src/enum_from_wrapped.rs:24-36 | The `map` closure succeeds exactly on a positional-fields variant. It then gives the impl from that variant's whole field list into the enum through that variant's constructor. Otherwise it gives the unit-variant or named-variant panic with the enum name and `EnumFromWrapped`. |
| `EnumFromWrapped.From` | src/enum_from_wrapped.rs:31-33 | The generated `from(inner)` yields a value of the impl's target enum whose active variant is the impl's constructor and whose payload is `inner` itself. |
| `EnumFromWrapped.ImplsOf` | src/enum_from_wrapped.rs:21-37 | Succeeds exactly when every variant has positional fields. Then the output has one impl per variant, and impl i is built from variant i's field list, targets the enum and uses variant i's constructor. Otherwise the panic is the one for the first unsupported variant in declaration order. |
| `EnumFromWrapped.WriteOutput` | src/enum_from_wrapped.rs:20-38 | The same success condition, per-variant output and first-failure panic, stated for the generator's stored name and variants. |
| `EnumFromWrapped.ImplsOfAppend` | src/enum_from_wrapped.rs:21-37 | Generating for `a + b` gives the items for `a` followed by the items for `b`. A panic in `a` takes precedence over one in `b`, and any panic discards all output. |
| `EnumFromWrapped.ImplsOfIgnoresAttributes` | src/enum_from_wrapped.rs:24-27 | Two variant lists with the same names and field shapes produce the same outcome, whatever the variants' attributes. |
| `EnumFromWrapped.FromBuildsDeclaredVariant` | src/enum_from_wrapped.rs:29-33 | Applying the i-th generated `from` to a value gives the i-th declared variant of the enum holding exactly that value. |
| `EnumFromWrapped.ResolvesToItsVariant` | src/lib.rs:77-90 | Suppose no other variant wraps the same field types. Then exactly one emitted impl accepts those types, and its `from` builds that variant holding the argument. |
| `EnumFromWrapped.SharedTypeBothEmitted` | src/enum_from_wrapped.rs:21-37 | Two variants that wrap the same field types each get their own impl, with their own constructor. Nothing is deduplicated. |
| `Derive.EnumFromWrappedDerive` | src/lib.rs:91-96 | A non-enum declaration panics with `NotEnum` before the generator runs. For an enum, the result is the generator's: success exactly when every variant has positional fields, with one impl per variant in order, and otherwise the first unsupported variant's panic. |
| `Derive.EmptyEnumEmitsNothing` | src/enum_from_wrapped.rs:21-37 | An enum with no variants derives successfully and emits no impls. |
| `Derive.NumberExample` | src/lib.rs:79-90 | For `enum Number { Integer(i32), Float(f64) }` the output is exactly two impls, one from `i32` to `Integer` and one from `f64` to `Float`. `Number::from(1)` is `Integer(1)` and `Number::from(1.0)` is `Float(1.0)`. |
| `Derive.FirstBadVariantWins` | src/enum_from_wrapped.rs:24-37 | If a unit variant comes before a named-fields variant, the derive fails with the unit-variant panic and emits nothing. |
| `Derive.StructRefused` | src/lib.rs:92-95 | A struct declaration fails with `NotEnum` naming the struct and `EnumFromWrapped`. |

## Left out

- The `EnumFrom` and `EnumIntoWrapped` macros (src/lib.rs:68-75, 119-124): their generator files `src/enum_from.rs` and `src/enum_into_wrapped.rs` are not part of this model. Their entry points call `assert_enum` first, just like the modelled entry point.
- Token streams, `parse_macro_input!` and `.into()`: this is compiler plumbing. The model starts from a parsed declaration and ends with a list of structured impls.
- The `quote!` rendering of an impl: an impl is modelled as the record `FromImpl(wrapped, target, ctor)` instead of tokens.
- Generics, visibility, discriminant expressions and spans of the declaration: the generator never reads them, so the model leaves them out.
- Whether the emitted code compiles is a question for the host compiler. For example, `From<>` for a zero-field variant, `From<A, B>` for a two-field variant, and two impls of `From<T>` for the same `T` all fail to compile. The model says which impls are emitted. `Candidates` models only how an argument's type picks among them.
- Rust's trait resolution is modelled only as filtering impls by their list of field types. Type inference and coercions, such as an integer literal defaulting to `i32`, are not modelled.
