/** Global unfolding: peeling global references into their declaration bodies
    until an abstraction is reached, within a fixed number of iterations. */
module Unfolder {
  import opened Terms
  import opened Errors
  import opened Scoping

  /** The number of iterations the unfolding loop runs at most. */
  const ExpansionLimit: nat := 100

  /** How many global references lead from `f` to the first term of its
      declaration chain that is not a global. */
  function ChainLength(f: FreeTerm): nat {
    match f
    case Global(g) => 1 + ChainLength(g.value.term)
    case _ => 0
  }

  /** The first term of the declaration chain of `f` that is not a global. */
  function ChainEnd(f: FreeTerm): (e: FreeTerm)
    ensures !e.Global?
  {
    match f
    case Global(g) => ChainEnd(g.value.term)
    case _ => f
  }

  /** What unfolding `p` yields, stated by its declaration chain: the
      abstraction at the end when fewer than `ExpansionLimit` globals lead to
      it; the malformed-declaration error when the chain ends in an
      application and its last global is reached within the bound; the limit
      error otherwise.  The two bounds differ by one because the loop checks
      a global's body in the same iteration that peels it. */
  function Expand(p: ProductTerm): Result<Abstr> {
    var start := ProductToFree(p);
    var k := ChainLength(start);
    match ChainEnd(start)
    case Abstraction(a) =>
      if k < ExpansionLimit then Success(a) else Failure(ExpansionLimitReached)
    case Application(_) =>
      if k <= ExpansionLimit then Failure(MalformedDeclaration) else Failure(ExpansionLimitReached)
  }

  /** The unfolding loop itself: at most `ExpansionLimit` iterations, each one
      returning an abstraction, failing on a declaration whose body is an
      application, or replacing a global by its declaration body. */
  method ExpandGlobalRecursive(start: ProductTerm) returns (r: Result<Abstr>)
    ensures r == Expand(start)
  {
    var product := start;
    for i := 0 to ExpansionLimit
      invariant ChainLength(ProductToFree(product)) + i == ChainLength(ProductToFree(start))
      invariant ChainEnd(ProductToFree(product)) == ChainEnd(ProductToFree(start))
    {
      match product
      case Global(global) =>
        var declProduct := ProductFromFree(global.value.term);
        if declProduct.None? {
          return Failure(MalformedDeclaration);
        }
        product := declProduct.value;
      case Abstraction(abstr) =>
        return Success(abstr);
    }
    return Failure(ExpansionLimitReached);
  }

  /** An abstraction unfolds to itself. */
  lemma ExpandAbstraction(a: Abstr)
    ensures Expand(ProductTerm.Abstraction(a)) == Success(a)
  {
  }

  /** A global whose declaration body is an abstraction unfolds to it. */
  lemma ExpandGlobalOfAbstraction(g: GlobalRef)
    requires g.value.term.Abstraction?
    ensures Expand(ProductTerm.Global(g)) == Success(g.value.term.abstr)
  {
    assert ChainLength(FreeTerm.Global(g)) == 1 + ChainLength(g.value.term) == 1;
    assert ChainEnd(FreeTerm.Global(g)) == ChainEnd(g.value.term) == g.value.term;
  }

  /** `k` nested declarations, each named `name`, ending in `last`. */
  function Nest(k: nat, name: string, last: FreeTerm): (f: FreeTerm)
    ensures k > 0 ==> f.Global?
    ensures k == 0 ==> f == last
  {
    if k == 0 then last
    else FreeTerm.Global(GlobalRef(Decl(name, Nest(k - 1, name, last))))
  }

  lemma {:induction false} NestChain(k: nat, name: string, last: FreeTerm)
    requires !last.Global?
    ensures ChainLength(Nest(k, name, last)) == k
    ensures ChainEnd(Nest(k, name, last)) == last
  {
    if k > 0 {
      NestChain(k - 1, name, last);
    }
  }

  /** A chain of `k` globals ending in an abstraction unfolds to that
      abstraction when `k` is at most 99, and hits the limit otherwise. */
  lemma ExpandChainToAbstraction(k: nat, name: string, a: Abstr)
    ensures ProductFromFree(Nest(k, name, FreeTerm.Abstraction(a))).Some?
    ensures Expand(ProductFromFree(Nest(k, name, FreeTerm.Abstraction(a))).value)
            == if k <= 99 then Success(a) else Failure(ExpansionLimitReached)
  {
    NestChain(k, name, FreeTerm.Abstraction(a));
  }

  /** A chain of `k >= 1` globals ending in an application fails as a
      malformed declaration when `k` is at most 100, and hits the limit
      otherwise. */
  lemma ExpandChainToApplication(k: nat, name: string, ap: Appl)
    requires k >= 1
    ensures ProductFromFree(Nest(k, name, FreeTerm.Application(ap))).Some?
    ensures Expand(ProductFromFree(Nest(k, name, FreeTerm.Application(ap))).value)
            == if k <= 100 then Failure(MalformedDeclaration) else Failure(ExpansionLimitReached)
  {
    NestChain(k, name, FreeTerm.Application(ap));
  }

  /** The end of the declaration chain of a closed term is closed. */
  lemma {:induction false} ChainEndClosed(f: FreeTerm)
    requires ScopedFree(f, {})
    ensures ScopedFree(ChainEnd(f), {})
  {
    match f
    case Global(g) => ChainEndClosed(g.value.term);
    case _ =>
  }

  /** Unfolding a closed product yields an abstraction whose body has no
      free local other than its own parameter. */
  lemma ExpandClosed(p: ProductTerm)
    requires ScopedFree(ProductToFree(p), {})
    requires Expand(p).Success?
    ensures ScopedAny(Expand(p).value.body, {Expand(p).value.parameter.id})
  {
    ChainEndClosed(ProductToFree(p));
    assert {} + {Expand(p).value.parameter.id} == {Expand(p).value.parameter.id};
  }
}
