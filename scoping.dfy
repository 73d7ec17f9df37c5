/** Well-scoped terms: every local is bound by an enclosing abstraction with
    the same id, inside the term itself and in every declaration it refers to.
    This is the closedness invariant that resolution relies on when it
    narrows a function side or a substituted body to a free term. */
module Scoping {
  import opened Terms
  import opened Substitution

  /** Every local of `t` has its id in `bound` or is bound inside `t`, and
      every referenced declaration is closed. */
  predicate ScopedAny(t: AnyTerm, bound: set<nat>)
    decreases t
  {
    match t
    case Global(g) => ClosedDecl(g.value)
    case Abstraction(a) => ScopedAny(a.body, bound + {a.parameter.id})
    case Application(ap) => ScopedAny(ap.func, bound) && ScopedAny(ap.argument, bound)
    case Local(l) => l.id in bound
  }

  /** The same condition on a free term. */
  predicate ScopedFree(f: FreeTerm, bound: set<nat>)
    decreases f
  {
    match f
    case Global(g) => ClosedDecl(g.value)
    case Abstraction(a) => ScopedAny(a.body, bound + {a.parameter.id})
    case Application(ap) => ScopedAny(ap.func, bound) && ScopedAny(ap.argument, bound)
  }

  /** A declaration whose body has no unbound local. */
  predicate ClosedDecl(d: Decl)
    decreases d
  {
    ScopedFree(d.term, {})
  }

  /** The two forms agree across widening. */
  lemma ScopedWidening(f: FreeTerm, bound: set<nat>)
    ensures ScopedFree(f, bound) == ScopedAny(FreeToAny(f), bound)
  {
  }

  /** More bound ids never break scoping. */
  lemma {:induction false} ScopedWeaken(t: AnyTerm, small: set<nat>, large: set<nat>)
    requires small <= large
    requires ScopedAny(t, small)
    ensures ScopedAny(t, large)
  {
    match t
    case Global(_) =>
    case Abstraction(a) =>
      ScopedWeaken(a.body, small + {a.parameter.id}, large + {a.parameter.id});
    case Application(ap) =>
      ScopedWeaken(ap.func, small, large);
      ScopedWeaken(ap.argument, small, large);
    case Local(_) =>
  }

  /** Substituting a closed argument for `parameter` in a body scoped under
      `bound` plus the parameter gives a term scoped under `bound` alone. */
  lemma {:induction false} BetaReducePreservesScope(parameter: Local, body: AnyTerm,
                                                    argument: AnyTerm, bound: set<nat>)
    requires ScopedAny(body, bound + {parameter.id})
    requires ScopedAny(argument, {})
    ensures ScopedAny(BetaReduce(parameter, body, argument), bound)
  {
    match body
    case Global(_) =>
    case Abstraction(a) =>
      assert bound + {parameter.id} + {a.parameter.id} == bound + {a.parameter.id} + {parameter.id};
      BetaReducePreservesScope(parameter, a.body, argument, bound + {a.parameter.id});
    case Application(ap) =>
      BetaReducePreservesScope(parameter, ap.func, argument, bound);
      BetaReducePreservesScope(parameter, ap.argument, argument, bound);
    case Local(l) =>
      if l.id == parameter.id {
        ScopedWeaken(argument, {}, bound);
      }
  }

  /** A closed any-term is never a bare local, so it narrows to a closed free term. */
  lemma ClosedNarrowsToFree(t: AnyTerm)
    requires ScopedAny(t, {})
    ensures FreeFromAny(t).Some? && ScopedFree(FreeFromAny(t).value, {})
  {
  }
}
