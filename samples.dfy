/** The sample declarations and query of the program's driver, and concrete
    scenarios for each outcome of resolution. */
module Samples {
  import opened Terms
  import opened Errors
  import opened Substitution
  import opened Scoping
  import opened Unfolder
  import opened Resolver

  function Var(l: Local): AnyTerm { AnyTerm.Local(l) }
  function Lam(l: Local, body: AnyTerm): AnyTerm { AnyTerm.Abstraction(Abstr(l, body)) }
  function App(f: AnyTerm, a: AnyTerm): AnyTerm { AnyTerm.Application(Appl(f, a)) }
  function Ref(d: Decl): AnyTerm { AnyTerm.Global(GlobalRef(d)) }

  /** `T = \x. \y. x` */
  const DeclTrue: Decl :=
    Decl("T", FreeTerm.Abstraction(Abstr(Local.Local(10, "x"), Lam(Local.Local(11, "y"), Var(Local.Local(10, "x"))))))

  /** `F = \x. \y. y` */
  const DeclFalse: Decl :=
    Decl("F", FreeTerm.Abstraction(Abstr(Local.Local(20, "x"), Lam(Local.Local(21, "y"), Var(Local.Local(21, "y"))))))

  /** `| = \p. \q. (p p) q` */
  const DeclOr: Decl :=
    Decl("|", FreeTerm.Abstraction(Abstr(Local.Local(30, "p"),
      Lam(Local.Local(31, "q"), App(App(Var(Local.Local(30, "p")), Var(Local.Local(30, "p"))), Var(Local.Local(31, "q")))))))

  /** `(| T) F` */
  const Query: FreeTerm :=
    FreeTerm.Application(Appl(App(Ref(DeclOr), Ref(DeclTrue)), Ref(DeclFalse)))

  /** The sample query is closed. */
  lemma QueryClosed()
    ensures ScopedFree(Query, {})
  {
  }

  /** `(| T) F` reduces via `(T T) F` and `\y. T` to the global `T`: true or
      false is true. */
  lemma QueryResolvesToTrue()
    ensures Resolve(Query, 3) == Some(Success(ProductTerm.Global(GlobalRef(DeclTrue))))
    ensures Resolve(Query, 3).value.value.global.value.name == "T"
  {
  }

  /** `D = A B`, a declaration whose body is an application. */
  const DeclA: Decl := Decl("A", FreeTerm.Abstraction(Abstr(Local.Local(40, "a"), Var(Local.Local(40, "a")))))
  const DeclB: Decl := Decl("B", FreeTerm.Abstraction(Abstr(Local.Local(41, "b"), Var(Local.Local(41, "b")))))
  const DeclMalformed: Decl := Decl("D", FreeTerm.Application(Appl(Ref(DeclA), Ref(DeclB))))

  /** Applying the malformed declaration reports it; the bare global is
      already in weak head normal form and is returned as it is. */
  lemma MalformedDeclarationReported(argument: AnyTerm, fuel: nat)
    requires fuel > 0
    ensures Resolve(FreeTerm.Application(Appl(Ref(DeclMalformed), argument)), fuel)
            == Some(Failure(MalformedDeclaration))
    ensures Resolve(FreeTerm.Global(GlobalRef(DeclMalformed)), fuel)
            == Some(Success(ProductTerm.Global(GlobalRef(DeclMalformed))))
  {
  }

  /** In function position, a chain of 100 declarations hits the expansion
      limit, while a chain of 99 behaves exactly like the abstraction it ends in. */
  lemma LongChainHitsLimit(a: Abstr, argument: AnyTerm, fuel: nat)
    requires fuel > 0
    ensures Resolve(FreeTerm.Application(Appl(FreeToAny(Nest(100, "D", FreeTerm.Abstraction(a))), argument)), fuel)
            == Some(Failure(ExpansionLimitReached))
    ensures Resolve(FreeTerm.Application(Appl(FreeToAny(Nest(99, "D", FreeTerm.Abstraction(a))), argument)), fuel)
            == Resolve(FreeTerm.Application(Appl(AnyTerm.Abstraction(a), argument)), fuel)
  {
    ExpandChainToAbstraction(100, "D", a);
    ExpandChainToAbstraction(99, "D", a);
    ExpandAbstraction(a);
    ProductFreeRoundTrip(ProductFromFree(Nest(100, "D", FreeTerm.Abstraction(a))).value);
    ProductFreeRoundTrip(ProductFromFree(Nest(99, "D", FreeTerm.Abstraction(a))).value);
  }

  /** `(\x. z) A`, where `z` is not bound anywhere: the substituted body is a
      bare local and the body internal error is reported. */
  lemma UnboundBodyReported(argument: AnyTerm, fuel: nat)
    ensures Resolve(FreeTerm.Application(Appl(Lam(Local.Local(50, "x"), Var(Local.Local(51, "z"))), argument)), fuel + 1)
            == Some(Failure(BodyNotFree))
  {
  }

  /** `(\x. u x) A`, where `u` is not bound anywhere: after one reduction the
      function side is a bare local and the function-side internal error is
      reported. */
  lemma UnboundFunctionReported(argument: AnyTerm, fuel: nat)
    ensures Resolve(FreeTerm.Application(Appl(
              Lam(Local.Local(52, "x"), App(Var(Local.Local(53, "u")), Var(Local.Local(52, "x")))),
              argument)), fuel + 2)
            == Some(Failure(FunctionNotFree))
  {
  }

  /** `W = \x. x x` */
  const Omega: AnyTerm := Lam(Local.Local(90, "x"), App(Var(Local.Local(90, "x")), Var(Local.Local(90, "x"))))

  /** `W W` reduces to itself in one step, so no fuel is ever enough: the
      query is closed, and resolution does not end. */
  lemma {:induction false} OmegaNeverResolves(fuel: nat)
    ensures ScopedFree(FreeTerm.Application(Appl(Omega, Omega)), {})
    ensures Resolve(FreeTerm.Application(Appl(Omega, Omega)), fuel) == None
  {
    if fuel > 0 {
      OmegaNeverResolves(fuel - 1);
    }
  }

  /** `Z = \w. w` */
  const DeclZ: Decl := Decl("Z", FreeTerm.Abstraction(Abstr(Local.Local(60, "w"), Var(Local.Local(60, "w")))))

  /** `H = \a. \b. a b` */
  const AbstrH: AnyTerm :=
    Lam(Local.Local(70, "a"), Lam(Local.Local(71, "b"), App(Var(Local.Local(70, "a")), Var(Local.Local(71, "b")))))

  /** `(\f. (f f) Z) H`: a closed query in which every binder has its own id. */
  const DuplicatingQuery: FreeTerm :=
    FreeTerm.Application(Appl(
      Lam(Local.Local(80, "f"), App(App(Var(Local.Local(80, "f")), Var(Local.Local(80, "f"))), Ref(DeclZ))),
      AbstrH))

  /** Reduction copies `H`, so the binder id 71 occurs twice, nested; with
      no shadowing check the later substitution for the outer `b` also
      rewrites the inner copy's `b`.  The answer is `\b. Z Z`, where
      capture-avoiding reduction of `(H H) Z` would give `\b. Z b`. */
  lemma DuplicatingQueryResult()
    ensures ScopedFree(DuplicatingQuery, {})
    ensures Resolve(DuplicatingQuery, 4) ==
            Some(Success(ProductTerm.Abstraction(Abstr(Local.Local(71, "b"), App(Ref(DeclZ), Ref(DeclZ))))))
  {
  }
}
