/** The head resolver: call-by-name weak-head reduction of a free term, with
    globals unfolded only in function position. */
module Resolver {
  import opened Terms
  import opened Errors
  import opened Substitution
  import opened Scoping
  import opened Unfolder

  /** Resolves `query` to weak head normal form.  A global or an abstraction is
      returned as it is.  An application `(f a)` narrows `f` to a free term,
      resolves it, unfolds the result to an abstraction `\p. B`, substitutes
      `a` for `p` in `B`, narrows that to a free term and resolves it.  Each
      step's failure is a distinct error.  Resolution need not end (an
      omega-like query loops), so every nested resolution spends one unit
      of `fuel`; `None` means the fuel ran out before an answer was reached. */
  function Resolve(query: FreeTerm, fuel: nat): Option<Result<ProductTerm>>
    decreases fuel
  {
    match query
    case Global(global) => Some(Success(ProductTerm.Global(global)))
    case Abstraction(abstr) => Some(Success(ProductTerm.Abstraction(abstr)))
    case Application(appl) =>
      if fuel == 0 then None
      else
        match FreeFromAny(appl.func)
        case None => Some(Failure(FunctionNotFree))
        case Some(functionFree) =>
          match Resolve(functionFree, fuel - 1)
          case None => None
          case Some(Failure(e)) => Some(Failure(e))
          case Some(Success(functionProduct)) =>
            match Expand(functionProduct)
            case Failure(e) => Some(Failure(e))
            case Success(functionAbstr) =>
              match FreeFromAny(BetaReduce(functionAbstr.parameter, functionAbstr.body, appl.argument))
              case None => Some(Failure(BodyNotFree))
              case Some(bodyFree) => Resolve(bodyFree, fuel - 1)
  }

  /** Resolving a term already in weak head normal form returns it unchanged,
      whatever the fuel. */
  lemma ResolveProductIdentity(p: ProductTerm, fuel: nat)
    ensures Resolve(ProductToFree(p), fuel) == Some(Success(p))
  {
  }

  /** More fuel never changes an answer once there is one. */
  lemma {:induction false} ResolveFuelMonotone(query: FreeTerm, fuel: nat, more: nat)
    requires fuel <= more
    requires Resolve(query, fuel).Some?
    ensures Resolve(query, more) == Resolve(query, fuel)
    decreases fuel
  {
    match query
    case Global(_) =>
    case Abstraction(_) =>
    case Application(appl) =>
      match FreeFromAny(appl.func)
      case None =>
      case Some(functionFree) =>
        ResolveFuelMonotone(functionFree, fuel - 1, more - 1);
        match Resolve(functionFree, fuel - 1)
        case Some(Failure(_)) =>
        case Some(Success(functionProduct)) =>
          match Expand(functionProduct)
          case Failure(_) =>
          case Success(functionAbstr) =>
            match FreeFromAny(BetaReduce(functionAbstr.parameter, functionAbstr.body, appl.argument))
            case None =>
            case Some(bodyFree) =>
              ResolveFuelMonotone(bodyFree, fuel - 1, more - 1);
  }

  /** Resolution is a function of the query alone: any two fuels that both
      reach an answer reach the same one. */
  lemma ResolveDeterministic(query: FreeTerm, fuel1: nat, fuel2: nat)
    requires Resolve(query, fuel1).Some? && Resolve(query, fuel2).Some?
    ensures Resolve(query, fuel1) == Resolve(query, fuel2)
  {
    if fuel1 <= fuel2 {
      ResolveFuelMonotone(query, fuel1, fuel2);
    } else {
      ResolveFuelMonotone(query, fuel2, fuel1);
    }
  }

  /** The four steps of resolving an application, each taken with its own
      fuel: when the function side resolves, unfolds to `\p. B`, and the
      substituted body is a free term that resolves, the application resolves
      to the same answer. */
  lemma ResolveApplicationSteps(functionFree: FreeTerm, argument: AnyTerm, fuel1: nat, fuel2: nat,
                                functionProduct: ProductTerm, functionAbstr: Abstr, bodyFree: FreeTerm)
    requires Resolve(functionFree, fuel1) == Some(Success(functionProduct))
    requires Expand(functionProduct) == Success(functionAbstr)
    requires FreeFromAny(BetaReduce(functionAbstr.parameter, functionAbstr.body, argument)) == Some(bodyFree)
    requires Resolve(bodyFree, fuel2).Some?
    ensures Resolve(FreeTerm.Application(Appl(FreeToAny(functionFree), argument)),
                    1 + (if fuel1 <= fuel2 then fuel2 else fuel1))
            == Resolve(bodyFree, fuel2)
  {
    var fuel := if fuel1 <= fuel2 then fuel2 else fuel1;
    FreeAnyRoundTrip(functionFree);
    ResolveFuelMonotone(functionFree, fuel1, fuel);
    ResolveFuelMonotone(bodyFree, fuel2, fuel);
  }

  /** An error from resolving the function side is the application's answer. */
  lemma ResolveFunctionFailurePropagates(functionFree: FreeTerm, argument: AnyTerm, fuel: nat)
    requires Resolve(functionFree, fuel).Some? && Resolve(functionFree, fuel).value.Failure?
    ensures Resolve(FreeTerm.Application(Appl(FreeToAny(functionFree), argument)), fuel + 1)
            == Resolve(functionFree, fuel)
  {
  }

  /** An error from unfolding the resolved function side is the application's answer. */
  lemma ResolveUnfoldFailurePropagates(functionFree: FreeTerm, argument: AnyTerm, fuel: nat,
                                       functionProduct: ProductTerm)
    requires Resolve(functionFree, fuel) == Some(Success(functionProduct))
    requires Expand(functionProduct).Failure?
    ensures Resolve(FreeTerm.Application(Appl(FreeToAny(functionFree), argument)), fuel + 1)
            == Some(Failure(Expand(functionProduct).error))
  {
  }

  /** When the function side resolves and unfolds to `\p. B` but substituting
      the argument into `B` leaves a bare local, the body internal error is
      reported. */
  lemma ResolveBodyNotFree(functionFree: FreeTerm, argument: AnyTerm, fuel: nat,
                           functionProduct: ProductTerm, functionAbstr: Abstr)
    requires Resolve(functionFree, fuel) == Some(Success(functionProduct))
    requires Expand(functionProduct) == Success(functionAbstr)
    requires BetaReduce(functionAbstr.parameter, functionAbstr.body, argument).Local?
    ensures Resolve(FreeTerm.Application(Appl(FreeToAny(functionFree), argument)), fuel + 1)
            == Some(Failure(BodyNotFree))
  {
  }

  /** An application whose function side is a bare local fails with the
      function-side internal error. */
  lemma ResolveLocalFunction(local: Local, argument: AnyTerm, fuel: nat)
    requires fuel > 0
    ensures Resolve(FreeTerm.Application(Appl(AnyTerm.Local(local), argument)), fuel)
            == Some(Failure(FunctionNotFree))
  {
  }

  /** Applying an abstraction `\x. B` to `A` resolves like `B` with `A`
      substituted for `x`, or fails with the body internal error when that
      substitution leaves a bare local. */
  lemma ResolveBeta(abstr: Abstr, argument: AnyTerm, fuel: nat)
    ensures Resolve(FreeTerm.Application(Appl(AnyTerm.Abstraction(abstr), argument)), fuel + 1)
            == match FreeFromAny(BetaReduce(abstr.parameter, abstr.body, argument))
               case None => Some(Failure(BodyNotFree))
               case Some(bodyFree) => Resolve(bodyFree, fuel)
  {
  }

  /** In function position a global whose declaration body is an abstraction
      behaves exactly like that abstraction. */
  lemma ResolveGlobalFunctionTransparent(g: GlobalRef, argument: AnyTerm, fuel: nat)
    requires g.value.term.Abstraction?
    ensures Resolve(FreeTerm.Application(Appl(AnyTerm.Global(g), argument)), fuel)
            == Resolve(FreeTerm.Application(Appl(FreeToAny(g.value.term), argument)), fuel)
  {
  }

  /** On a closed query the two internal-consistency errors never occur, and
      every answer is closed: a closed function side resolves to a closed
      product, which unfolds to an abstraction whose body is scoped by its
      parameter, and substituting the closed argument leaves a closed term. */
  lemma {:induction false} ResolveClosed(query: FreeTerm, fuel: nat)
    requires ScopedFree(query, {})
    ensures Resolve(query, fuel) != Some(Failure(FunctionNotFree))
    ensures Resolve(query, fuel) != Some(Failure(BodyNotFree))
    ensures Resolve(query, fuel).Some? && Resolve(query, fuel).value.Success? ==>
              ScopedFree(ProductToFree(Resolve(query, fuel).value.value), {})
    decreases fuel
  {
    match query
    case Global(_) =>
    case Abstraction(_) =>
    case Application(appl) =>
      if fuel > 0 {
        ClosedNarrowsToFree(appl.func);
        var functionFree := FreeFromAny(appl.func).value;
        ResolveClosed(functionFree, fuel - 1);
        match Resolve(functionFree, fuel - 1)
        case None =>
        case Some(Failure(_)) =>
        case Some(Success(functionProduct)) =>
          match Expand(functionProduct)
          case Failure(_) =>
          case Success(functionAbstr) =>
            ExpandClosed(functionProduct);
            assert {} + {functionAbstr.parameter.id} == {functionAbstr.parameter.id};
            var body := BetaReduce(functionAbstr.parameter, functionAbstr.body, appl.argument);
            BetaReducePreservesScope(functionAbstr.parameter, functionAbstr.body, appl.argument, {});
            ClosedNarrowsToFree(body);
            ResolveClosed(FreeFromAny(body).value, fuel - 1);
      }
  }
}
