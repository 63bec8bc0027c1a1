// The translator of project-1/main.c: a tree becomes straight-line assignments
// to variables t0, t1, ..., and the last one is handed to the callback.
module CodeGen {
  import opened Parser
  import opened Options

  // The right-hand side of "double t<id> = ...;".
  datatype Rhs = Const(val: real) | NegOf(r: int) | Product(l: int, r: int)
    | Quotient(l: int, r: int)  // r ? (l / r) : 0.0
    | SumOf(l: int, r: int) | Difference(l: int, r: int)

  datatype Stmt = Stmt(id: int, rhs: Rhs)

  // What printing a constant with %f and compiling it again makes of it.
  type Printer = real -> real

  // ------------------------------------------------------------ what it all means

  // The generated division: exact, and 0 by 0.
  function Quot(a: real, b: real): (q: real)
    ensures b != 0.0 ==> q * b == a
    ensures b == 0.0 ==> q == 0.0
  {
    if b == 0.0 then 0.0 else a / b
  }

  function Value(d: Dag, print_: Printer): real {
    match d
    case Val(v) => print_(v)
    case Neg(r) => -Value(r, print_)
    case Mul(l, r) => Value(l, print_) * Value(r, print_)
    case Div(l, r) => Quot(Value(l, print_), Value(r, print_))
    case Add(l, r) => Value(l, print_) + Value(r, print_)
    case Sub(l, r) => Value(l, print_) - Value(r, print_)
  }

  type Env = map<int, real>

  datatype Run = Stuck | Done(env: Env)

  function Uses(r: Rhs): set<int> {
    match r
    case Const(_) => {}
    case NegOf(r) => {r}
    case _ => {r.l, r.r}
  }

  function Compute(r: Rhs, env: Env): real
    requires Uses(r) <= env.Keys
  {
    match r
    case Const(v) => v
    case NegOf(r) => -1.0 * env[r]
    case Product(l, r) => env[l] * env[r]
    case Quotient(l, r) => Quot(env[l], env[r])
    case SumOf(l, r) => env[l] + env[r]
    case Difference(l, r) => env[l] - env[r]
  }

  // Executing declarations in order; declaring a variable twice, or using one
  // that is not declared yet, is not C.
  function Execute(stmts: seq<Stmt>, env: Env): Run {
    if stmts == [] then Done(env)
    else
      var s := stmts[0];
      if s.id in env || !(Uses(s.rhs) <= env.Keys) then Stuck
      else Execute(stmts[1..], env[s.id := Compute(s.rhs, env)])
  }

  // ------------------------------------------------------------------ translation

  function Nodes(d: Dag): nat {
    match d
    case Val(_) => 1
    case Neg(r) => Nodes(r) + 1
    case Mul(l, r) => Nodes(l) + Nodes(r) + 1
    case Div(l, r) => Nodes(l) + Nodes(r) + 1
    case Add(l, r) => Nodes(l) + Nodes(r) + 1
    case Sub(l, r) => Nodes(l) + Nodes(r) + 1
  }

  // struct parser_dag's two child pointers; None is NULL.
  function Left(d: Dag): Option<Dag> {
    if d.Val? || d.Neg? then None else Some(d.left)
  }

  function Right(d: Dag): Option<Dag> {
    if d.Val? then None else Some(d.right)
  }

  // The switch over the operator: what is printed after "double t<id> = ".
  function RhsOf(d: Dag, l: int, r: int, print_: Printer): Rhs {
    match d
    case Val(v) => Const(print_(v))
    case Neg(_) => NegOf(r)
    case Mul(_, _) => Product(l, r)
    case Div(_, _) => Quotient(l, r)
    case Add(_, _) => SumOf(l, r)
    case Sub(_, _) => Difference(l, r)
  }

  function Size(d: Option<Dag>): nat {
    match d
    case None => 0
    case Some(d) => Nodes(d)
  }

  // The variable a subtree's value is in, when the next one is `next`.
  function VarOf(d: Option<Dag>, next: nat): int {
    if d == None then -1 else next - 1
  }

  // The statements genFuncBodyFromDag appends when the next variable is id.
  function Body(d: Option<Dag>, id: nat, print_: Printer): seq<Stmt>
    decreases Size(d)
  {
    match d
    case None => []
    case Some(d) =>
      var n := id + Size(Left(d));
      var m := n + Size(Right(d));
      Body(Left(d), id, print_) + Body(Right(d), n, print_)
        + [Stmt(m, RhsOf(d, VarOf(Left(d), n), VarOf(Right(d), m), print_))]
  }

  // -------------------------------------------------------- it computes the value

  lemma {:induction false} ExecuteAfter(a: seq<Stmt>, b: seq<Stmt>, env: Env)
    ensures Execute(a + b, env) ==
            match Execute(a, env)
            case Stuck => Stuck
            case Done(env') => Execute(b, env')
  {
    if a == [] {
      assert a + b == b;
    } else {
      assert (a + b)[1..] == a[1..] + b;
      if a[0].id !in env && Uses(a[0].rhs) <= env.Keys {
        ExecuteAfter(a[1..], b, env[a[0].id := Compute(a[0].rhs, env)]);
      }
    }
  }

  // Exactly the next variables, one for each node, in order.
  lemma {:induction false} BodyIds(d: Option<Dag>, id: nat, print_: Printer)
    ensures var b := Body(d, id, print_);
      |b| == Size(d) && forall k :: 0 <= k < |b| ==> b[k].id == id + k
    decreases Size(d)
  {
    hide Body, Size, RhsOf, Left, Right, Nodes;
    if d == None {
      BodyOfNull(id, print_);
    } else {
      var t := d.value;
      BodyUnfolds(t, id, print_);
      BodyIds(Left(t), id, print_);
      BodyIds(Right(t), id + Size(Left(t)), print_);
    }
  }

  ghost predicate Unused(env: Env, id: nat) {
    forall k :: k in env ==> k < id
  }

  // The variables before id are as they were, and those from id on are n more.
  ghost predicate Extends(env: Env, env': Env, id: nat, n: nat) {
    && (forall k :: k in env ==> k in env' && env'[k] == env[k])
    && (forall k :: k in env' <==> k in env || id <= k < id + n)
  }

  lemma {:induction false} LastComputes(d: Dag, n: nat, m: nat, env: Env, print_: Printer)
    requires Left(d).Some? ==> n - 1 in env && env[n - 1] == Value(Left(d).value, print_)
    requires Right(d).Some? ==> m - 1 in env && env[m - 1] == Value(Right(d).value, print_)
    ensures var rhs := RhsOf(d, VarOf(Left(d), n), VarOf(Right(d), m), print_);
      Uses(rhs) <= env.Keys && Compute(rhs, env) == Value(d, print_)
  {
  }

  lemma {:induction false} BodyUnfolds(d: Dag, id: nat, print_: Printer)
    ensures var n := id + Size(Left(d));
      var m := n + Size(Right(d));
      && Size(Some(d)) == Size(Left(d)) + Size(Right(d)) + 1
      && Body(Some(d), id, print_) == Body(Left(d), id, print_) + Body(Right(d), n, print_)
           + [Stmt(m, RhsOf(d, VarOf(Left(d), n), VarOf(Right(d), m), print_))]
  {
    hide RhsOf, VarOf;
    SizeUnfolds(d);
  }

  lemma {:induction false} SizeUnfolds(d: Dag)
    ensures Size(Some(d)) == Size(Left(d)) + Size(Right(d)) + 1
  {
  }

  lemma {:induction false} SizePositive(d: Option<Dag>)
    ensures d.Some? <==> Size(d) > 0
  {
  }

  lemma {:induction false} ExecuteOne(s: Stmt, env: Env)
    requires s.id !in env && Uses(s.rhs) <= env.Keys
    ensures Execute([s], env) == Done(env[s.id := Compute(s.rhs, env)])
  {
    assert [s][1..] == [];
  }

  // What running a subtree's statements from env does: they run through, leave
  // its value in the last of its variables and touch no other.
  ghost predicate Computes(d: Option<Dag>, id: nat, env: Env, env': Env, print_: Printer) {
    && Execute(Body(d, id, print_), env) == Done(env')
    && Extends(env, env', id, Size(d)) && Unused(env', id + Size(d))
    && (d.Some? ==> Size(d) > 0 && id + Size(d) - 1 in env' && env'[id + Size(d) - 1] == Value(d.value, print_))
  }

  lemma {:induction false} BodyOfNull(id: nat, print_: Printer)
    ensures Body(None, id, print_) == [] && Size(None) == 0
  {
  }

  lemma ExecuteNone(env: Env, id: nat)
    requires Unused(env, id)
    ensures Execute([], env) == Done(env) && Extends(env, env, id, 0)
  {
  }

  lemma Kept(env: Env, env': Env, id: nat, n: nat)
    requires Extends(env, env', id, n)
    ensures forall k :: k in env ==> k in env' && env'[k] == env[k]
  {
  }

  lemma Fresh(env: Env, id: nat)
    requires Unused(env, id)
    ensures id !in env
  {
  }

  lemma ExtendsThen(env: Env, e1: Env, e2: Env, id: nat, k: nat, n: nat, x: real)
    requires Unused(env, id) && Extends(env, e1, id, k) && Extends(e1, e2, id + k, n)
    ensures var env' := e2[id + k + n := x];
      Extends(env, env', id, k + n + 1) && Unused(env', id + k + n + 1)
  {
  }

  // From any environment that has not used the variables yet.
  lemma {:induction false} BodyComputes(d: Option<Dag>, id: nat, env: Env, print_: Printer) returns (env': Env)
    requires Unused(env, id)
    ensures Computes(d, id, env, env', print_)
    decreases Size(d)
  {
    hide Body, Size, Nodes, Value, Execute, Compute, Uses, RhsOf, Left, Right, Extends, Unused;
    if d == None {
      BodyOfNull(id, print_);
      env' := env;
      ExecuteNone(env, id);
    } else {
      var t := d.value;
      SizeUnfolds(t);
      BodyUnfolds(t, id, print_);
      var n := id + Size(Left(t));
      var m := n + Size(Right(t));
      var e1 := BodyComputes(Left(t), id, env, print_);
      var e2 := BodyComputes(Right(t), n, e1, print_);
      Kept(e1, e2, n, Size(Right(t)));
      LastComputes(t, n, m, e2, print_);
      var last := Stmt(m, RhsOf(t, VarOf(Left(t), n), VarOf(Right(t), m), print_));
      ExecuteAfter(Body(Left(t), id, print_), Body(Right(t), n, print_), env);
      ExecuteAfter(Body(Left(t), id, print_) + Body(Right(t), n, print_), [last], env);
      Fresh(e2, m);
      ExecuteOne(last, e2);
      env' := e2[m := Compute(last.rhs, e2)];
      assert VarOf(d, m + 1) == m;
      ExtendsThen(env, e1, e2, id, Size(Left(t)), Size(Right(t)), Compute(last.rhs, e2));
    }
  }

  // -------------------------------------------------------------------- the class

  // varId and the file being written.
  class Generator {
    const print_: Printer
    var varId: nat
    var file: seq<Stmt>

    constructor (print_: Printer)
      ensures this.print_ == print_ && varId == 0 && file == []
    {
      this.print_, varId, file := print_, 0, [];
    }

    method GenFuncBodyFromDag(dag: Option<Dag>) returns (v: int)
      modifies this
      ensures file == old(file) + Body(dag, old(varId), print_)
      ensures varId == old(varId) + Size(dag)
      ensures v == if dag == None then -1 else varId - 1
      decreases Size(dag)
    {
      hide Body, Size, RhsOf, Left, Right, Nodes;
      if dag == None {
        BodyOfNull(varId, print_);
        return -1;
      }
      var d := dag.value;
      BodyUnfolds(d, varId, print_);
      SizePositive(Left(d));
      SizePositive(Right(d));
      ghost var f0, bl := file, Body(Left(d), varId, print_);
      ghost var br := Body(Right(d), varId + Size(Left(d)), print_);
      var leftVarId := GenFuncBodyFromDag(Left(d));
      var rightVarId := GenFuncBodyFromDag(Right(d));
      Assoc(f0, bl, br, [Stmt(varId, RhsOf(d, leftVarId, rightVarId, print_))]);
      file := file + [Stmt(varId, RhsOf(d, leftVarId, rightVarId, print_))];
      varId := varId + 1;
      v := varId - 1;
    }
  }

  lemma Assoc(a: seq<Stmt>, b: seq<Stmt>, c: seq<Stmt>, d: seq<Stmt>)
    ensures a + b + c + d == a + (b + c + d)
  {
  }

  // ---------------------------------------------------------------- end to end

  // What an expression of the grammar means to its reader.
  function Meaning(c: Derivation, print_: Printer): real {
    match c
    case Literal(v) => print_(v)
    case Parens(e) => Meaning(e, print_)
    case Plus(e) => Meaning(e, print_)
    case Minus(e) => -Meaning(e, print_)
    case Times(l, r) => Meaning(l, print_) * Meaning(r, print_)
    case Over(l, r) => Quot(Meaning(l, print_), Meaning(r, print_))
    case Sum(l, r) => Meaning(l, print_) + Meaning(r, print_)
    case Diff(l, r) => Meaning(l, print_) - Meaning(r, print_)
  }

  lemma {:induction false} TreeMeans(c: Derivation, print_: Printer)
    ensures Value(TreeOf(c), print_) == Meaning(c, print_)
  {
    match c
    case Literal(_) =>
    case Parens(e) => TreeMeans(e, print_);
    case Plus(e) => TreeMeans(e, print_);
    case Minus(e) => TreeMeans(e, print_);
    case Times(l, r) => TreeMeans(l, print_); TreeMeans(r, print_);
    case Over(l, r) => TreeMeans(l, print_); TreeMeans(r, print_);
    case Sum(l, r) => TreeMeans(l, print_); TreeMeans(r, print_);
    case Diff(l, r) => TreeMeans(l, print_); TreeMeans(r, print_);
  }

  // The generated function: its statements, and the variable it passes on.
  datatype Program = Program(stmts: seq<Stmt>, result: int)

  // What "return callback(t<result>)" is called with.
  ghost predicate Passes(p: Program, x: real) {
    var r := Execute(p.stmts, map[]);
    r.Done? && p.result in r.env && r.env[p.result] == x
  }

  lemma ProgramPasses(d: Dag, print_: Printer)
    ensures Passes(Program(Body(Some(d), 0, print_), Size(Some(d)) - 1), Value(d, print_))
  {
    var env := BodyComputes(Some(d), 0, map[], print_);
  }

  // main, from the tokens to the generated function: none for a text that is no
  // sentence, and for a sentence one that passes on exactly its meaning.
  method Translate(tokens: seq<Token>, print_: Printer) returns (p: Option<Program>)
    ensures p.Some? <==> exists c :: Derives(c, Additive) && Yield(c) == tokens
    ensures forall c :: Derives(c, Additive) && Yield(c) == tokens ==>
      p.Some? && Passes(p.value, Meaning(c, print_))
  {
    hide Derives, Yield, TreeOf, Body, Size, Passes, Meaning, Value;
    var dag := ParserOpen(tokens);
    if dag == None {
      return None;
    }
    var g := new Generator(print_);
    var v := g.GenFuncBodyFromDag(dag);
    p := Some(Program(g.file, v));
    assert g.file == Body(dag, 0, print_);
    ProgramPasses(dag.value, print_);
    forall c | Derives(c, Additive) && Yield(c) == tokens
      ensures Passes(p.value, Meaning(c, print_))
    {
      TreeMeans(c, print_);
    }
  }
}
