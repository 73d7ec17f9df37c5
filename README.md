# Weak-head evaluator for lambda calculus with declarations (Dafny model)

This project models the evaluator of `src/main.rs`. The evaluator works on
closed terms of the untyped lambda calculus extended with named top-level
declarations ("globals"). It computes the weak head normal form of a query
using call-by-name beta reduction. A global is unfolded only when it stands in
function position. The model has four parts:

- **Term model** (`terms.dfy`, module `Terms`). A `Local` is an id plus a
  display name. A `Decl` is a name plus a free term. A `GlobalRef` owns a copy
  of its declaration. `Abstr` is a parameter plus a body, and `Appl` is a
  function plus an argument. There are three term shapes, one datatype each:
  `AnyTerm`, `FreeTerm` (no bare local) and `ProductTerm` (global or
  abstraction only). The widening conversions never fail. The narrowing
  conversions return an `Option`.
- **Substitution** (`substitution.dfy`, module `Substitution`). `BetaReduce`
  replaces every local whose id equals the parameter's id by the argument.
  It leaves globals alone and has no shadowing check.
- **Global unfolder** (`unfolder.dfy`, module `Unfolder`). The function
  `Expand` describes the result through the declaration chain: its length
  and the term it ends in. The method `ExpandGlobalRecursive` is the source's
  100-iteration loop, proved equal to `Expand`.
- **Head resolver** (`resolver.dfy`, module `Resolver`). `Resolve` is the
  recursive driver. The fuel it takes stands for the source's unbounded
  recursion.

Fatal exits are values of `Errors.ResolveError`, one per exit:

- `FunctionNotFree`: the `unreachable!` at line 67.
- `BodyNotFree`: the `unreachable!` at line 82.
- `MalformedDeclaration`: the `unimplemented!` at line 111.
- `ExpansionLimitReached`: the `panic!` at line 119.

`Resolve` returns `None` when its fuel runs out. `ResolveFuelMonotone` and
`ResolveDeterministic` show that the fuel never changes an answer once one
is reached.

`scoping.dfy` (module `Scoping`) defines when a term is well scoped: every
local is bound by an enclosing abstraction, and every referenced declaration
is closed. `ResolveClosed` proves that on such a query the two internal
errors never occur. `samples.dfy` (module `Samples`) holds the declarations
and the query of `main`, plus one concrete scenario for each outcome: an
answer, each of the four errors, and a query (`W W`, with `W = \x. x x`)
that no fuel resolves.

Four behaviours of `src/main.rs` a reader might not expect:

- A bare global query is already in weak head normal form, so `Resolve`
  returns it unchanged. A global is transparent only in function position
  (`ResolveGlobalFunctionTransparent`): resolving a global does not give the
  abstraction it names.
- The boolean query `(| T) F` resolves to the global reference `T`. It does
  not resolve to an abstraction (`QueryResolvesToTrue`).
- A declaration cannot refer to itself, because a `GlobalRef` owns a copy of
  its declaration. The expansion limit is reached only through a chain of 100
  or more nested declarations (`LongChainHitsLimit`).
- Distinct binder ids do not make substitution capture-free. Reduction
  copies an abstraction argument with its binder ids, so the same id can
  show up nested. `DuplicatingQueryResult` shows a closed query with
  distinct ids that resolves to `\b. Z Z`. Capture-avoiding reduction gives
  `\b. Z b`.

## Model

| member | source | states |
|---|---|---|
| `Terms.ProductToFree` | src/main.rs:242-252 | widening a product term never yields an application |
| `Terms.FreeToAny` | src/main.rs:254-265 | widening a free term never yields a bare local |
| `Terms.FreeFromAny` | src/main.rs:285-294 | fails exactly on a bare local; on success, widening the result gives back the input |
| `Terms.ProductFromFree` | src/main.rs:276-282 | fails exactly on an application; on success, widening the result gives back the input |
| `Terms.ProductFromAny` | src/main.rs:267-274 | fails exactly on an application or a bare local; on success, widening twice gives back the input |
| `Terms.ProductFreeRoundTrip` | src/main.rs:242-282 | product to free and back is the identity |
| `Terms.FreeAnyRoundTrip` | src/main.rs:254-294 | free to any and back is the identity |
| `Terms.ProductAnyRoundTrip` | src/main.rs:242-274 | product to any and back is the identity |
| `Terms.ProductFromAnyFactors` | src/main.rs:267-294 | narrowing any to product equals narrowing to free and then to product |
| `Substitution.BetaReduce` | src/main.rs:88-104 | the top node becomes the argument if it is a replaced local and otherwise keeps its label (global, local, abstraction parameter, application); `BetaReduceChangesOnlyReplacedLocals` states this at every position |
| `Substitution.BetaReduceAt` | src/main.rs:88-104 | substitution commutes with taking the subterm at any position of the body |
| `Substitution.BetaReduceChangesOnlyReplacedLocals` | src/main.rs:88-104 | every position of the body survives; replaced locals hold exactly the argument; all other nodes keep their label |
| `Substitution.BetaReduceLocalIds` | src/main.rs:88-104 | the result's local ids are the body's minus the parameter's id, plus the argument's ids exactly when something was replaced |
| `Substitution.BetaReduceNoOccurrence` | src/main.rs:98-102 | a body without a local of the parameter's id is returned unchanged |
| `Substitution.BetaReduceSize` | src/main.rs:88-104 | size of the result = size of the body + occurrences × (argument size − 1): no node is added or lost except at replaced locals |
| `Substitution.BetaReduceIgnoresShadowing` | src/main.rs:91-93 | an inner binder with the parameter's id does not stop substitution |
| `Scoping.ScopedWidening` | src/main.rs:254-265 | scoping of a free term is the same as scoping of its widening |
| `Scoping.ScopedWeaken` | src/main.rs:88-104 | a term scoped under some bound ids stays scoped under more |
| `Scoping.BetaReducePreservesScope` | src/main.rs:88-104 | substituting a closed argument into a body scoped by the parameter leaves a term scoped without it |
| `Scoping.ClosedNarrowsToFree` | src/main.rs:81-83 | a closed any-term always narrows to a closed free term |
| `Unfolder.Expand` | src/main.rs:106-120 | the unfolder's result from the chain length k and the chain end: the abstraction when k < 100, malformed when the chain ends in an application and k ≤ 100, the limit error otherwise |
| `Unfolder.ExpandGlobalRecursive` | src/main.rs:106-120 | the 100-iteration loop returns exactly what the chain description `Expand` gives: abstraction, malformed declaration or limit |
| `Unfolder.ExpandAbstraction` | src/main.rs:115 | an abstraction unfolds to itself (a chain of length 0) |
| `Unfolder.ExpandGlobalOfAbstraction` | src/main.rs:109-115 | a global whose declaration body is an abstraction unfolds to that abstraction |
| `Unfolder.ExpandChainToAbstraction` | src/main.rs:106-120 | a chain of k globals ending in an abstraction gives the abstraction when k ≤ 99 and the limit error when k ≥ 100 |
| `Unfolder.ExpandChainToApplication` | src/main.rs:109-119 | a chain of k ≥ 1 globals ending in an application gives the malformed-declaration error when k ≤ 100 and the limit error beyond |
| `Unfolder.ChainEndClosed` | src/main.rs:109-113 | following declaration bodies from a closed term ends in a closed term |
| `Unfolder.ExpandClosed` | src/main.rs:106-120 | unfolding a closed product yields an abstraction whose body is scoped by its parameter |
| `Resolver.Resolve` | src/main.rs:59-86 | the four-step call-by-name driver with fuel; its properties are the `Resolve*` lemmas below |
| `Resolver.ResolveProductIdentity` | src/main.rs:59-62 | resolving a global or an abstraction returns it as the same product term, whatever the fuel |
| `Resolver.ResolveFuelMonotone` | src/main.rs:59-86 | once resolution answers, more fuel gives the same answer |
| `Resolver.ResolveDeterministic` | src/main.rs:59-86 | any two fuels that both reach an answer reach the same one |
| `Resolver.ResolveApplicationSteps` | src/main.rs:63-85 | resolve the function side, unfold to `\p. B`, substitute, resolve the body: when these steps succeed with any fuels, the application resolves to the body's answer |
| `Resolver.ResolveFunctionFailurePropagates` | src/main.rs:72 | an error from resolving the function side, at any fuel, is the application's answer with one more unit of fuel |
| `Resolver.ResolveUnfoldFailurePropagates` | src/main.rs:73 | when the function side resolves but unfolding it fails, the application reports that unfolding error |
| `Resolver.ResolveBodyNotFree` | src/main.rs:74-83 | when the function side resolves and unfolds to `\p. B` but substituting the argument leaves a bare local, the body internal error is reported |
| `Resolver.ResolveLocalFunction` | src/main.rs:66-70 | a bare local in function position fails with the function-side internal error |
| `Resolver.ResolveBeta` | src/main.rs:72-85 | `(\x. B) A` resolves as `B` with `A` substituted for `x`, or fails with the body internal error when that leaves a bare local |
| `Resolver.ResolveGlobalFunctionTransparent` | src/main.rs:72-73 | in function position, a global whose body is an abstraction behaves exactly like that abstraction |
| `Resolver.ResolveClosed` | src/main.rs:59-86 | on a closed query neither internal error occurs, and every answer is closed |
| `Samples.QueryClosed` | src/main.rs:1-50 | the sample query with its three declarations is closed |
| `Samples.QueryResolvesToTrue` | src/main.rs:44-54 | the sample query, T or F, resolves to the global whose declaration is named `T` |
| `Samples.MalformedDeclarationReported` | src/main.rs:109-112 | applying a declaration whose body is an application reports it as malformed; the bare global resolves to itself |
| `Samples.LongChainHitsLimit` | src/main.rs:106-120 | a chain of 100 declarations in function position fails at the limit; a chain of 99 behaves like its abstraction |
| `Samples.UnboundBodyReported` | src/main.rs:81-83 | `(\x. z)` with `z` unbound fails with the body internal error |
| `Samples.UnboundFunctionReported` | src/main.rs:63-70 | `(\x. u x) A` with `u` unbound fails, after one reduction, with the function-side internal error |
| `Samples.OmegaNeverResolves` | src/main.rs:59-86 | `W W` with `W = \x. x x` is closed and resolves to `None` for every fuel: resolution need not end |
| `Samples.DuplicatingQueryResult` | src/main.rs:88-104 | a closed query with distinct binder ids resolves to `\b. Z Z`: duplicated binders are not told apart |

## Left out

- The `Print` trait, its impls, `print_local` and `print_label` (src/main.rs:296-381) are console output only.
- The `println!` calls and the printing in `main` are I/O. The terms that `main` builds are kept as constants in `Samples`.
- `Box`, `Clone` and the `impl Into<...>` generics are left out. Terms are plain values, so an owned, unshared tree is a datatype value.
- `beta_reduce` overwrites the body in place; `BetaReduce` returns the rewritten tree instead. The tree is owned exclusively, so nothing can observe the difference.
- The single-constructor `From` impls (src/main.rs:218-240) and the `new` functions (src/main.rs:174-216) are the datatype constructors.
- Panics are not modelled as process aborts. Each of the four exits is a distinct `ResolveError` value.
- `Resolve` does not model unbounded recursion or stack overflow. A computation that does not finish within the given fuel returns `None`.
- `Local.id` is `usize` in the source and `nat` here. Ids are only compared for equality, so their width does not matter.
