/** Substitution of an argument for every local with a given id (beta
    reduction of one binder), and what it changes. */
module Substitution {
  import opened Terms

  /** A local that substitution for `parameter` replaces: one with the same id. */
  predicate IsReplaced(parameter: Local, t: AnyTerm) {
    t.Local? && t.local.id == parameter.id
  }

  /** What a node holds apart from its children. */
  datatype Label =
    | GlobalLabel(global: GlobalRef)
    | AbstractionLabel(parameter: Local)
    | ApplicationLabel
    | LocalLabel(local: Local)

  function LabelOf(t: AnyTerm): Label {
    match t
    case Global(g) => GlobalLabel(g)
    case Abstraction(a) => AbstractionLabel(a.parameter)
    case Application(_) => ApplicationLabel
    case Local(l) => LocalLabel(l)
  }

  /** Replaces every local of `body` whose id is `parameter.id` by `argument`.
      Globals are not entered, and abstractions are entered whatever their own
      parameter is: there is no shadowing check.  The node at the top becomes
      `argument` when it is a replaced local and otherwise keeps its label. */
  function BetaReduce(parameter: Local, body: AnyTerm, argument: AnyTerm): (r: AnyTerm)
    ensures IsReplaced(parameter, body) ==> r == argument
    ensures !IsReplaced(parameter, body) ==> LabelOf(r) == LabelOf(body)
  {
    match body
    case Global(_) => body
    case Abstraction(abstr) =>
      AnyTerm.Abstraction(Abstr(abstr.parameter, BetaReduce(parameter, abstr.body, argument)))
    case Application(appl) =>
      AnyTerm.Application(Appl(BetaReduce(parameter, appl.func, argument),
                               BetaReduce(parameter, appl.argument, argument)))
    case Local(local) =>
      if local.id == parameter.id then argument else body
  }

  /** One step down a term: into an abstraction's body, or into either side
      of an application. */
  datatype Step = IntoBody | IntoFunction | IntoArgument

  /** The subterm at `path`, if the path exists in `t`. */
  function Subterm(t: AnyTerm, path: seq<Step>): Option<AnyTerm>
    decreases |path|
  {
    if path == [] then Some(t)
    else
      match (t, path[0])
      case (Abstraction(a), IntoBody) => Subterm(a.body, path[1..])
      case (Application(ap), IntoFunction) => Subterm(ap.func, path[1..])
      case (Application(ap), IntoArgument) => Subterm(ap.argument, path[1..])
      case _ => None
  }

  /** Substitution commutes with taking the subterm at any position of `body`. */
  lemma {:induction false} BetaReduceAt(parameter: Local, body: AnyTerm, argument: AnyTerm,
                                        path: seq<Step>, s: AnyTerm)
    requires Subterm(body, path) == Some(s)
    ensures Subterm(BetaReduce(parameter, body, argument), path) == Some(BetaReduce(parameter, s, argument))
    decreases |path|
  {
    if path != [] {
      match (body, path[0])
      case (Abstraction(a), IntoBody) =>
        BetaReduceAt(parameter, a.body, argument, path[1..], s);
      case (Application(ap), IntoFunction) =>
        BetaReduceAt(parameter, ap.func, argument, path[1..], s);
      case (Application(ap), IntoArgument) =>
        BetaReduceAt(parameter, ap.argument, argument, path[1..], s);
    }
  }

  /** Every position of `body` is still a position of the result; at a
      replaced local the result holds exactly `argument`, and every other node
      (globals, locals with other ids, abstractions with their parameter,
      applications) keeps its label. */
  lemma {:induction false} BetaReduceChangesOnlyReplacedLocals(parameter: Local, body: AnyTerm,
                                                               argument: AnyTerm, path: seq<Step>)
    requires Subterm(body, path).Some?
    ensures Subterm(BetaReduce(parameter, body, argument), path).Some?
    ensures IsReplaced(parameter, Subterm(body, path).value) ==>
              Subterm(BetaReduce(parameter, body, argument), path).value == argument
    ensures !IsReplaced(parameter, Subterm(body, path).value) ==>
              LabelOf(Subterm(BetaReduce(parameter, body, argument), path).value)
              == LabelOf(Subterm(body, path).value)
  {
    BetaReduceAt(parameter, body, argument, path, Subterm(body, path).value);
  }

  /** The ids of the locals of `t`, not looking inside declarations. */
  function LocalIds(t: AnyTerm): set<nat> {
    match t
    case Global(_) => {}
    case Abstraction(a) => LocalIds(a.body)
    case Application(ap) => LocalIds(ap.func) + LocalIds(ap.argument)
    case Local(l) => {l.id}
  }

  /** After substitution, `parameter.id` has gone from the body's locals, and
      the argument's locals have come in exactly when there was something to
      replace. */
  lemma {:induction false} BetaReduceLocalIds(parameter: Local, body: AnyTerm, argument: AnyTerm)
    ensures LocalIds(BetaReduce(parameter, body, argument)) ==
            (LocalIds(body) - {parameter.id}) +
            (if parameter.id in LocalIds(body) then LocalIds(argument) else {})
  {
    match body
    case Global(_) =>
    case Abstraction(a) =>
      BetaReduceLocalIds(parameter, a.body, argument);
    case Application(ap) =>
      BetaReduceLocalIds(parameter, ap.func, argument);
      BetaReduceLocalIds(parameter, ap.argument, argument);
    case Local(_) =>
  }

  /** A body without a local of id `parameter.id` is left unchanged. */
  lemma {:induction false} BetaReduceNoOccurrence(parameter: Local, body: AnyTerm, argument: AnyTerm)
    requires parameter.id !in LocalIds(body)
    ensures BetaReduce(parameter, body, argument) == body
  {
    match body
    case Global(_) =>
    case Abstraction(a) =>
      BetaReduceNoOccurrence(parameter, a.body, argument);
    case Application(ap) =>
      BetaReduceNoOccurrence(parameter, ap.func, argument);
      BetaReduceNoOccurrence(parameter, ap.argument, argument);
    case Local(_) =>
  }

  /** Number of nodes of `t`, not looking inside declarations. */
  function Size(t: AnyTerm): (n: nat)
    ensures n >= 1
  {
    match t
    case Global(_) => 1
    case Abstraction(a) => 1 + Size(a.body)
    case Application(ap) => 1 + Size(ap.func) + Size(ap.argument)
    case Local(_) => 1
  }

  /** Number of locals of `t` whose id is `id`. */
  function Occurrences(id: nat, t: AnyTerm): nat {
    match t
    case Global(_) => 0
    case Abstraction(a) => Occurrences(id, a.body)
    case Application(ap) => Occurrences(id, ap.func) + Occurrences(id, ap.argument)
    case Local(l) => if l.id == id then 1 else 0
  }

  /** Each replaced local (one node) becomes one copy of the argument and no
      other node is added or removed. */
  lemma {:induction false} BetaReduceSize(parameter: Local, body: AnyTerm, argument: AnyTerm)
    ensures Size(BetaReduce(parameter, body, argument)) ==
            Size(body) + Occurrences(parameter.id, body) * (Size(argument) - 1)
  {
    match body
    case Global(_) =>
    case Abstraction(a) =>
      BetaReduceSize(parameter, a.body, argument);
    case Application(ap) =>
      BetaReduceSize(parameter, ap.func, argument);
      BetaReduceSize(parameter, ap.argument, argument);
      var k := Size(argument) - 1;
      assert (Occurrences(parameter.id, ap.func) + Occurrences(parameter.id, ap.argument)) * k
          == Occurrences(parameter.id, ap.func) * k + Occurrences(parameter.id, ap.argument) * k;
    case Local(_) =>
  }

  /** No shadowing check: an inner binder with the parameter's id does not
      stop the substitution, so the locals it binds are replaced too. */
  lemma BetaReduceIgnoresShadowing(parameter: Local, inner: Local, argument: AnyTerm)
    requires inner.id == parameter.id
    ensures BetaReduce(parameter, AnyTerm.Abstraction(Abstr(inner, AnyTerm.Local(inner))), argument)
            == AnyTerm.Abstraction(Abstr(inner, argument))
  {
  }
}
