/** The term model of the evaluator: locals, declarations, global references,
    abstractions, applications, and the three term shapes (any, free and
    product), with the conversions between them. */
module Terms {

  datatype Option<+T> = None | Some(value: T)

  /** A bound-variable occurrence.  Substitution compares locals by `id` only;
      `name` is for display. */
  datatype Local = Local(id: nat, name: string)

  /** A named top-level declaration; its body is a free term. */
  datatype Decl = Decl(name: string, term: FreeTerm)

  /** A reference to a declaration.  The reference owns its own copy of the
      declaration, so a chain of references is a finite tree and cannot loop
      back on itself. */
  datatype GlobalRef = GlobalRef(value: Decl)

  /** A one-parameter binder. */
  datatype Abstr = Abstr(parameter: Local, body: AnyTerm)

  /** An application; `func` is the function (left-hand) side. */
  datatype Appl = Appl(func: AnyTerm, argument: AnyTerm)

  /** Head-normal terms: the result of resolution and of global unfolding. */
  datatype ProductTerm =
    | Global(global: GlobalRef)
    | Abstraction(abstr: Abstr)

  /** Terms without a bare local at the top: declaration bodies and queries. */
  datatype FreeTerm =
    | Global(global: GlobalRef)
    | Abstraction(abstr: Abstr)
    | Application(appl: Appl)

  /** Unrestricted terms: what abstraction bodies and application sides hold. */
  datatype AnyTerm =
    | Global(global: GlobalRef)
    | Abstraction(abstr: Abstr)
    | Application(appl: Appl)
    | Local(local: Local)

  /** Widening of a product term to a free term; it never yields an application. */
  function ProductToFree(p: ProductTerm): (r: FreeTerm)
    ensures !r.Application?
  {
    match p
    case Global(g) => FreeTerm.Global(g)
    case Abstraction(a) => FreeTerm.Abstraction(a)
  }

  /** Widening of a free term to an any-term; it never yields a bare local. */
  function FreeToAny(f: FreeTerm): (r: AnyTerm)
    ensures !r.Local?
  {
    match f
    case Global(g) => AnyTerm.Global(g)
    case Abstraction(a) => AnyTerm.Abstraction(a)
    case Application(ap) => AnyTerm.Application(ap)
  }

  /** Narrowing of an any-term to a free term: fails exactly on a bare local,
      and otherwise gives back the term whose widening is the input. */
  function FreeFromAny(t: AnyTerm): (r: Option<FreeTerm>)
    ensures r.None? <==> t.Local?
    ensures r.Some? ==> FreeToAny(r.value) == t
  {
    match t
    case Global(g) => Some(FreeTerm.Global(g))
    case Abstraction(a) => Some(FreeTerm.Abstraction(a))
    case Application(ap) => Some(FreeTerm.Application(ap))
    case Local(_) => None
  }

  /** Narrowing of a free term to a product term: fails exactly on an
      application, and otherwise gives back the term whose widening is the input. */
  function ProductFromFree(f: FreeTerm): (r: Option<ProductTerm>)
    ensures r.None? <==> f.Application?
    ensures r.Some? ==> ProductToFree(r.value) == f
  {
    match f
    case Global(g) => Some(ProductTerm.Global(g))
    case Abstraction(a) => Some(ProductTerm.Abstraction(a))
    case Application(_) => None
  }

  /** Narrowing of an any-term to a product term: fails exactly on an
      application or a bare local. */
  function ProductFromAny(t: AnyTerm): (r: Option<ProductTerm>)
    ensures r.None? <==> (t.Application? || t.Local?)
    ensures r.Some? ==> FreeToAny(ProductToFree(r.value)) == t
  {
    match t
    case Global(g) => Some(ProductTerm.Global(g))
    case Abstraction(a) => Some(ProductTerm.Abstraction(a))
    case Application(_) => None
    case Local(_) => None
  }

  /** Product to free and back gives the original term. */
  lemma ProductFreeRoundTrip(p: ProductTerm)
    ensures ProductFromFree(ProductToFree(p)) == Some(p)
  {
  }

  /** Free to any and back gives the original term. */
  lemma FreeAnyRoundTrip(f: FreeTerm)
    ensures FreeFromAny(FreeToAny(f)) == Some(f)
  {
  }

  /** Product to any and back gives the original term. */
  lemma ProductAnyRoundTrip(p: ProductTerm)
    ensures ProductFromAny(FreeToAny(ProductToFree(p))) == Some(p)
  {
  }

  /** Narrowing any to product is the same as narrowing to free and then
      to product. */
  lemma ProductFromAnyFactors(t: AnyTerm)
    ensures ProductFromAny(t) ==
            match FreeFromAny(t)
            case None => None
            case Some(f) => ProductFromFree(f)
  {
  }
}
