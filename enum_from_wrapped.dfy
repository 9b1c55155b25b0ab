/** The `EnumFromWrapped` generator: one `impl From<T> for Enum` per variant,
    where `T` is the variant's positional field list, in declaration order. */
module EnumFromWrapped {
  import opened Syntax
  import opened Lib

  /** The macro name the generator passes to `get_wrapped_unnamed`. */
  const MacroName: string := "EnumFromWrapped"

  /** The generator's state: the enum's name and body, set once by `New`. */
  datatype EnumFromWrapped = EnumFromWrapped(enumName: Ident, enumData: DataEnum)

  /** One emitted item:
      `impl From<wrapped> for target { fn from(inner: wrapped) -> Self { Self::ctor(inner) } }`.
      `wrapped` is the variant's whole positional field list as interpolated. */
  datatype Impl = FromImpl(wrapped: seq<Field>, target: Ident, ctor: Ident)

  /** A value of the enum: the variant that is active and what it holds. */
  datatype EnumValue<+V> = EnumValue(enumName: Ident, variant: Ident, payload: V)

  /** What calling the generated `from` on `inner` evaluates to. */
  function From<V>(impl: Impl, inner: V): (e: EnumValue<V>)
    ensures e.enumName == impl.target && e.variant == impl.ctor
    ensures e.payload == inner
  {
    EnumValue(impl.target, impl.ctor, inner)
  }

  function New(enumName: Ident, enumData: DataEnum): (h: EnumFromWrapped)
    ensures h.enumName == enumName && h.enumData == enumData
  {
    EnumFromWrapped(enumName, enumData)
  }

  /** Every variant has positional fields, the only shape the generator accepts. */
  predicate AllUnnamed(vs: seq<Variant>)
  {
    forall i :: 0 <= i < |vs| ==> vs[i].fields.Unnamed?
  }

  /** `out` holds exactly one impl per variant, the i-th for the i-th variant:
      from that variant's field list, into the enum, through that variant. */
  predicate Emits(enumName: Ident, vs: seq<Variant>, out: seq<Impl>)
  {
    && |out| == |vs|
    && forall i :: 0 <= i < |vs| ==>
         && vs[i].fields == Unnamed(out[i].wrapped)
         && out[i].target == enumName
         && out[i].ctor == vs[i].ident
  }

  /** Variant `k` is the first, in declaration order, without positional fields. */
  predicate FirstUnsupported(vs: seq<Variant>, k: int)
  {
    && 0 <= k < |vs|
    && !vs[k].fields.Unnamed?
    && forall j :: 0 <= j < k ==> vs[j].fields.Unnamed?
  }

  /** `p` is the panic raised for the first unsupported variant, which exists. */
  predicate FailsAtFirst(enumName: Ident, vs: seq<Variant>, p: Panic)
  {
    exists k :: 0 <= k < |vs| && FirstUnsupported(vs, k) &&
      p == (if vs[k].fields.Unit? then UnitVariant(enumName, MacroName) else NamedVariant(enumName, MacroName))
  }

  /** A panic for the first unsupported variant of the tail is one for the
      whole list when its head is supported. */
  lemma FailsAtFirstShift(enumName: Ident, vs: seq<Variant>, p: Panic)
    requires vs != [] && vs[0].fields.Unnamed?
    requires FailsAtFirst(enumName, vs[1..], p)
    ensures FailsAtFirst(enumName, vs, p)
  {
    var k :| 0 <= k < |vs[1..]| && FirstUnsupported(vs[1..], k) &&
      p == (if vs[1..][k].fields.Unit? then UnitVariant(enumName, MacroName) else NamedVariant(enumName, MacroName));
    assert FirstUnsupported(vs, k + 1);
  }

  /** The closure given to `map`: check one variant's shape, then build its impl. */
  function VariantImpl(enumName: Ident, v: Variant): (r: Result<Impl>)
    ensures r.Ok? <==> v.fields.Unnamed?
    ensures r.Ok? ==> r.value == FromImpl(v.fields.unnamed, enumName, v.ident)
    ensures r.Err? ==> r.panic == (if v.fields.Unit? then UnitVariant(enumName, MacroName) else NamedVariant(enumName, MacroName))
  {
    match GetWrappedUnnamed(MacroName, enumName, v.fields)
    case Err(p) => Err(p)
    case Ok(wrapped) => Ok(FromImpl(wrapped, enumName, v.ident))
  }

  /** `map` followed by `collect`: the closure runs on the variants in order and
      the first panic aborts everything, so nothing is emitted then. */
  function ImplsOf(enumName: Ident, vs: seq<Variant>): (r: Result<seq<Impl>>)
    ensures r.Ok? <==> AllUnnamed(vs)
    ensures r.Ok? ==> Emits(enumName, vs, r.value)
    ensures r.Err? ==> FailsAtFirst(enumName, vs, r.panic)
  {
    if vs == [] then Ok([])
    else
      match VariantImpl(enumName, vs[0])
      case Err(p) =>
        assert FirstUnsupported(vs, 0);
        Err(p)
      case Ok(impl) =>
        match ImplsOf(enumName, vs[1..])
        case Err(p) =>
          FailsAtFirstShift(enumName, vs, p);
          Err(p)
        case Ok(rest) => Ok([impl] + rest)
  }

  /** `write_output`. */
  function WriteOutput(h: EnumFromWrapped): (r: Result<seq<Impl>>)
    ensures r.Ok? <==> AllUnnamed(h.enumData.variants)
    ensures r.Ok? ==> Emits(h.enumName, h.enumData.variants, r.value)
    ensures r.Err? ==> FailsAtFirst(h.enumName, h.enumData.variants, r.panic)
  {
    ImplsOf(h.enumName, h.enumData.variants)
  }

  /** The outcome of collecting the items of `a` and then those of `b`. */
  function Then(x: Result<seq<Impl>>, y: Result<seq<Impl>>): Result<seq<Impl>>
  {
    match x
    case Err(p) => Err(p)
    case Ok(xs) =>
      match y
      case Err(q) => Err(q)
      case Ok(ys) => Ok(xs + ys)
  }

  /** Generating for `a + b` is generating for `a`, then for `b`: items keep
      declaration order and a panic in `a` wins over one in `b`. */
  lemma {:induction false} ImplsOfAppend(enumName: Ident, a: seq<Variant>, b: seq<Variant>)
    ensures ImplsOf(enumName, a + b) == Then(ImplsOf(enumName, a), ImplsOf(enumName, b))
  {
    if a == [] {
      assert a + b == b;
      match ImplsOf(enumName, b)
      case Err(_) =>
      case Ok(ys) => assert [] + ys == ys;
    } else {
      assert (a + b)[1..] == a[1..] + b;
      ImplsOfAppend(enumName, a[1..], b);
      match ImplsOf(enumName, a[1..])
      case Err(_) =>
      case Ok(xs) =>
        match ImplsOf(enumName, b)
        case Err(_) =>
        case Ok(ys) =>
          match VariantImpl(enumName, a[0])
          case Err(_) =>
          case Ok(impl) => assert [impl] + (xs + ys) == ([impl] + xs) + ys;
    }
  }

  /** The output reads only each variant's name and field shape: variant
      attributes (and anything else about a variant) change nothing. */
  lemma {:induction false} ImplsOfIgnoresAttributes(enumName: Ident, vs: seq<Variant>, ws: seq<Variant>)
    requires |vs| == |ws|
    requires forall i :: 0 <= i < |vs| ==> vs[i].ident == ws[i].ident && vs[i].fields == ws[i].fields
    ensures ImplsOf(enumName, vs) == ImplsOf(enumName, ws)
  {
    if vs != [] {
      ImplsOfIgnoresAttributes(enumName, vs[1..], ws[1..]);
    }
  }

  /** Calling the i-th generated `from` builds the i-th declared variant
      holding exactly the value passed in. */
  lemma FromBuildsDeclaredVariant<V>(h: EnumFromWrapped, out: seq<Impl>, i: int, inner: V)
    requires WriteOutput(h) == Ok(out)
    requires 0 <= i < |out|
    ensures i < |h.enumData.variants|
    ensures From(out[i], inner) == EnumValue(h.enumName, h.enumData.variants[i].ident, inner)
  {
  }

  /** The emitted impls whose source type list is `tys`: those the host
      compiler would consider for `Enum::from` on an argument of that type. */
  function Candidates(out: seq<Impl>, tys: seq<Type>): (r: seq<Impl>)
    ensures |r| <= |out|
    ensures forall c :: c in r ==> c in out && Types(c.wrapped) == tys
  {
    if out == [] then []
    else if Types(out[0].wrapped) == tys then [out[0]] + Candidates(out[1..], tys)
    else Candidates(out[1..], tys)
  }

  lemma {:induction false} CandidatesNone(out: seq<Impl>, tys: seq<Type>)
    requires forall j :: 0 <= j < |out| ==> Types(out[j].wrapped) != tys
    ensures Candidates(out, tys) == []
  {
    if out != [] {
      CandidatesNone(out[1..], tys);
    }
  }

  lemma {:induction false} CandidatesOnly(out: seq<Impl>, tys: seq<Type>, i: int)
    requires 0 <= i < |out| && Types(out[i].wrapped) == tys
    requires forall j :: 0 <= j < |out| && j != i ==> Types(out[j].wrapped) != tys
    ensures Candidates(out, tys) == [out[i]]
  {
    if i == 0 {
      CandidatesNone(out[1..], tys);
    } else {
      CandidatesOnly(out[1..], tys, i - 1);
    }
  }

  lemma {:induction false} CandidatesBoth(out: seq<Impl>, tys: seq<Type>, i: int, j: int)
    requires 0 <= i < j < |out|
    requires Types(out[i].wrapped) == tys && Types(out[j].wrapped) == tys
    ensures out[i] in Candidates(out, tys) && out[j] in Candidates(out, tys)
    ensures |Candidates(out, tys)| >= 2
  {
    if i == 0 {
      CandidatesHas(out[1..], tys, j - 1);
    } else {
      CandidatesBoth(out[1..], tys, i - 1, j - 1);
    }
  }

  lemma {:induction false} CandidatesHas(out: seq<Impl>, tys: seq<Type>, i: int)
    requires 0 <= i < |out| && Types(out[i].wrapped) == tys
    ensures out[i] in Candidates(out, tys)
    ensures |Candidates(out, tys)| >= 1
  {
    if i > 0 {
      CandidatesHas(out[1..], tys, i - 1);
    }
  }

  /** When no other variant wraps the same field types, exactly one impl
      accepts them, and `from` builds that variant holding the value. */
  lemma ResolvesToItsVariant<V>(h: EnumFromWrapped, out: seq<Impl>, i: int, inner: V)
    requires WriteOutput(h) == Ok(out)
    requires 0 <= i < |h.enumData.variants|
    requires forall j :: 0 <= j < |h.enumData.variants| && j != i ==>
               Types(h.enumData.variants[j].fields.unnamed) != Types(h.enumData.variants[i].fields.unnamed)
    ensures h.enumData.variants[i].fields.Unnamed?
    ensures Candidates(out, Types(h.enumData.variants[i].fields.unnamed)) == [out[i]]
    ensures From(out[i], inner) == EnumValue(h.enumName, h.enumData.variants[i].ident, inner)
  {
    var vs := h.enumData.variants;
    forall j | 0 <= j < |out| && j != i
      ensures Types(out[j].wrapped) != Types(vs[i].fields.unnamed)
    {
      assert vs[j].fields == Unnamed(out[j].wrapped);
    }
    CandidatesOnly(out, Types(vs[i].fields.unnamed), i);
  }

  /** Two variants wrapping the same field types both get an impl; nothing
      is deduplicated, and the conflict is left to the host compiler. */
  lemma SharedTypeBothEmitted(h: EnumFromWrapped, out: seq<Impl>, i: int, j: int)
    requires WriteOutput(h) == Ok(out)
    requires 0 <= i < j < |h.enumData.variants|
    requires Types(h.enumData.variants[i].fields.unnamed) == Types(h.enumData.variants[j].fields.unnamed)
    ensures out[i].ctor == h.enumData.variants[i].ident && out[j].ctor == h.enumData.variants[j].ident
    ensures |Candidates(out, Types(h.enumData.variants[i].fields.unnamed))| >= 2
  {
    CandidatesBoth(out, Types(h.enumData.variants[i].fields.unnamed), i, j);
  }
}
