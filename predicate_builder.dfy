/** PredicateBuilder: lambda expressions `x => body` over an atom type `A`,
    the `True`/`False` constants, and `And`/`Or`, which Compose two lambdas
    under a fresh parameter after a visitor has replaced each lambda's own
    parameter in its body. An atom `Test(a, v)` stands for a member test of
    the expression tree applied to parameter `v` (a property comparison, a
    LIKE call, an `Any` over a navigation collection, ...); what it means
    is given by a `holds` function supplied by the caller. */
module PredicateBuilder {

  /** A ParameterExpression, identified by a number (the trees compare them by reference). */
  type Var = nat

  datatype Expr<A> =
    | Const(value: bool)
    | Test(atom: A, arg: Var)
    | AndAlso(left: Expr<A>, right: Expr<A>)
    | OrElse(left: Expr<A>, right: Expr<A>)
    | Not(operand: Expr<A>)

  /** `Expression<Func<T, bool>>`: one parameter and a body. */
  datatype Lambda<A> = Lambda(param: Var, body: Expr<A>)

  /** The merge function handed to Compose. */
  datatype Merge = MergeAndAlso | MergeOrElse

  function Vars<A>(e: Expr<A>): set<Var> {
    match e
    case Const(_) => {}
    case Test(_, v) => {v}
    case AndAlso(l, r) => Vars(l) + Vars(r)
    case OrElse(l, r) => Vars(l) + Vars(r)
    case Not(o) => Vars(o)
  }

  function MaxVar<A>(e: Expr<A>): (m: Var)
    ensures forall v :: v in Vars(e) ==> v <= m
  {
    match e
    case Const(_) => 0
    case Test(_, v) => v
    case AndAlso(l, r) => Max(MaxVar(l), MaxVar(r))
    case OrElse(l, r) => Max(MaxVar(l), MaxVar(r))
    case Not(o) => MaxVar(o)
  }

  function Max(a: nat, b: nat): nat { if a < b then b else a }

  /** A lambda whose body mentions no parameter but its own. */
  predicate Closed<A>(f: Lambda<A>) {
    Vars(f.body) <= {f.param}
  }

  predicate AllClosed<A>(fs: seq<Lambda<A>>) {
    forall i :: 0 <= i < |fs| ==> Closed(fs[i])
  }

  /** The value of a body under an assignment of its parameters. */
  function Eval<A, T>(e: Expr<A>, env: map<Var, T>, holds: (A, T) -> bool): bool
    requires Vars(e) <= env.Keys
  {
    match e
    case Const(b) => b
    case Test(a, v) => holds(a, env[v])
    case AndAlso(l, r) => Eval(l, env, holds) && Eval(r, env, holds)
    case OrElse(l, r) => Eval(l, env, holds) || Eval(r, env, holds)
    case Not(o) => !Eval(o, env, holds)
  }

  /** Applying a compiled lambda to an argument. */
  function Invoke<A, T>(f: Lambda<A>, x: T, holds: (A, T) -> bool): bool
    requires Closed(f)
  {
    Eval(f.body, map[f.param := x], holds)
  }

  /** `True<T>()`: `param => true`. */
  function True<A>(): (f: Lambda<A>)
    ensures Closed(f)
  {
    Lambda(0, Const(true))
  }

  /** `False<T>()`: `param => false`. */
  function False<A>(): (f: Lambda<A>)
    ensures Closed(f)
  {
    Lambda(0, Const(false))
  }

  /** ReplaceParameterVisitor(source, target).Visit: every `source` node
      becomes `target`; every other node is rebuilt unchanged. */
  function Replace<A>(e: Expr<A>, source: Var, target: Var): Expr<A> {
    match e
    case Const(b) => Const(b)
    case Test(a, v) => Test(a, if v == source then target else v)
    case AndAlso(l, r) => AndAlso(Replace(l, source, target), Replace(r, source, target))
    case OrElse(l, r) => OrElse(Replace(l, source, target), Replace(r, source, target))
    case Not(o) => Not(Replace(o, source, target))
  }

  /** Compose: a parameter no input mentions, both bodies moved onto it, then merged. */
  function Compose<A>(left: Lambda<A>, right: Lambda<A>, merge: Merge): Lambda<A> {
    var p := 1 + Max(Max(left.param, right.param), Max(MaxVar(left.body), MaxVar(right.body)));
    var lb := Replace(left.body, left.param, p);
    var rb := Replace(right.body, right.param, p);
    Lambda(p, if merge == MergeAndAlso then AndAlso(lb, rb) else OrElse(lb, rb))
  }

  function And<A>(left: Lambda<A>, right: Lambda<A>): Lambda<A> {
    Compose(left, right, MergeAndAlso)
  }

  function Or<A>(left: Lambda<A>, right: Lambda<A>): Lambda<A> {
    Compose(left, right, MergeOrElse)
  }

  /** The visitor leaves a tree that does not mention `source` exactly as it was. */
  lemma {:induction false} ReplaceAbsent<A>(e: Expr<A>, source: Var, target: Var)
    requires source !in Vars(e)
    ensures Replace(e, source, target) == e
  {
    match e
    case Const(_) =>
    case Test(_, _) =>
    case AndAlso(l, r) => ReplaceAbsent(l, source, target); ReplaceAbsent(r, source, target);
    case OrElse(l, r) => ReplaceAbsent(l, source, target); ReplaceAbsent(r, source, target);
    case Not(o) => ReplaceAbsent(o, source, target);
  }

  /** After the visit, `source` is gone (unless it is the target) and `target` stands where it stood. */
  lemma {:induction false} ReplaceVars<A>(e: Expr<A>, source: Var, target: Var)
    ensures Vars(Replace(e, source, target)) == (Vars(e) - {source}) + (if source in Vars(e) then {target} else {})
  {
    match e
    case Const(_) =>
    case Test(_, _) =>
    case AndAlso(l, r) => ReplaceVars(l, source, target); ReplaceVars(r, source, target);
    case OrElse(l, r) => ReplaceVars(l, source, target); ReplaceVars(r, source, target);
    case Not(o) => ReplaceVars(o, source, target);
  }

  /** Evaluating the visited body with `target := x` is evaluating the original with `source := x`. */
  lemma {:induction false} ReplaceEval<A, T>(e: Expr<A>, source: Var, target: Var, x: T, holds: (A, T) -> bool)
    requires Vars(e) <= {source}
    ensures Vars(Replace(e, source, target)) <= {target}
    ensures Eval(Replace(e, source, target), map[target := x], holds) == Eval(e, map[source := x], holds)
  {
    ReplaceVars(e, source, target);
    match e
    case Const(_) =>
    case Test(_, _) =>
    case AndAlso(l, r) => ReplaceEval(l, source, target, x, holds); ReplaceEval(r, source, target, x, holds);
    case OrElse(l, r) => ReplaceEval(l, source, target, x, holds); ReplaceEval(r, source, target, x, holds);
    case Not(o) => ReplaceEval(o, source, target, x, holds);
  }

  lemma TrueHolds<A, T>(x: T, holds: (A, T) -> bool)
    ensures Invoke(True<A>(), x, holds)
  {
  }

  lemma FalseFails<A, T>(x: T, holds: (A, T) -> bool)
    ensures !Invoke(False<A>(), x, holds)
  {
  }

  /** `And(l, r)` is closed and holds of x exactly when both l and r do, on the same x. */
  lemma AndMeaning<A, T>(l: Lambda<A>, r: Lambda<A>, x: T, holds: (A, T) -> bool)
    requires Closed(l) && Closed(r)
    ensures Closed(And(l, r))
    ensures Invoke(And(l, r), x, holds) == (Invoke(l, x, holds) && Invoke(r, x, holds))
  {
    var p := And(l, r).param;
    ReplaceEval(l.body, l.param, p, x, holds);
    ReplaceEval(r.body, r.param, p, x, holds);
  }

  /** `Or(l, r)` is closed and holds of x exactly when l or r does, on the same x. */
  lemma OrMeaning<A, T>(l: Lambda<A>, r: Lambda<A>, x: T, holds: (A, T) -> bool)
    requires Closed(l) && Closed(r)
    ensures Closed(Or(l, r))
    ensures Invoke(Or(l, r), x, holds) == (Invoke(l, x, holds) || Invoke(r, x, holds))
  {
    var p := Or(l, r).param;
    ReplaceEval(l.body, l.param, p, x, holds);
    ReplaceEval(r.body, r.param, p, x, holds);
  }

  /** Every lambda in the list holds of x. */
  predicate AllHold<A, T>(fs: seq<Lambda<A>>, x: T, holds: (A, T) -> bool)
    requires AllClosed(fs)
  {
    forall i :: 0 <= i < |fs| ==> Invoke(fs[i], x, holds)
  }

  /** Some lambda in the list holds of x. */
  predicate AnyHolds<A, T>(fs: seq<Lambda<A>>, x: T, holds: (A, T) -> bool)
    requires AllClosed(fs)
  {
    exists i :: 0 <= i < |fs| && Invoke(fs[i], x, holds)
  }
}
