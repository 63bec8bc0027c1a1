// The recursive-descent parser of project-1/parser.c over the lexer's tokens,
// against the grammar its comments state.
module Parser {
  import opened Options

  datatype Token = VAL(val: real) | ADD | SUB | MUL | DIV | OPEN | CLOSE

  // struct parser_dag
  datatype Dag = Val(val: real) | Neg(right: Dag)
    | Mul(left: Dag, right: Dag) | Div(left: Dag, right: Dag)
    | Add(left: Dag, right: Dag) | Sub(left: Dag, right: Dag)

  // ---------------------------------------------------------------- the grammar

  // Derivations, left-associative at the two binary levels.
  datatype Derivation = Literal(val: real) | Parens(e: Derivation) | Plus(e: Derivation) | Minus(e: Derivation)
    | Times(l: Derivation, r: Derivation) | Over(l: Derivation, r: Derivation)
    | Sum(l: Derivation, r: Derivation) | Diff(l: Derivation, r: Derivation)

  datatype Level = Primary | Unary | Multiplicative | Additive

  function Rank(v: Level): nat {
    match v
    case Primary => 0
    case Unary => 1
    case Multiplicative => 2
    case Additive => 3
  }

  // Is this a derivation from the nonterminal of this level?
  predicate Derives(c: Derivation, v: Level) {
    match c
    case Literal(_) => true
    case Parens(e) => Derives(e, Additive)
    case Plus(e) => Rank(v) >= 1 && Derives(e, Unary)
    case Minus(e) => Rank(v) >= 1 && Derives(e, Unary)
    case Times(l, r) => Rank(v) >= 2 && Derives(l, Multiplicative) && Derives(r, Unary)
    case Over(l, r) => Rank(v) >= 2 && Derives(l, Multiplicative) && Derives(r, Unary)
    case Sum(l, r) => Rank(v) >= 3 && Derives(l, Additive) && Derives(r, Multiplicative)
    case Diff(l, r) => Rank(v) >= 3 && Derives(l, Additive) && Derives(r, Multiplicative)
  }

  function Yield(c: Derivation): (ts: seq<Token>)
    ensures |ts| > 0
  {
    match c
    case Literal(v) => [VAL(v)]
    case Parens(e) => [OPEN] + Yield(e) + [CLOSE]
    case Plus(e) => [ADD] + Yield(e)
    case Minus(e) => [SUB] + Yield(e)
    case Times(l, r) => Yield(l) + [MUL] + Yield(r)
    case Over(l, r) => Yield(l) + [DIV] + Yield(r)
    case Sum(l, r) => Yield(l) + [ADD] + Yield(r)
    case Diff(l, r) => Yield(l) + [SUB] + Yield(r)
  }

  function TreeOf(c: Derivation): Dag {
    match c
    case Literal(v) => Val(v)
    case Parens(e) => TreeOf(e)
    case Plus(e) => TreeOf(e)
    case Minus(e) => Neg(TreeOf(e))
    case Times(l, r) => Mul(TreeOf(l), TreeOf(r))
    case Over(l, r) => Div(TreeOf(l), TreeOf(r))
    case Sum(l, r) => Add(TreeOf(l), TreeOf(r))
    case Diff(l, r) => Sub(TreeOf(l), TreeOf(r))
  }

  // ------------------------------------------------ what the parser's functions do

  // NULL, or the tree and the position of the cursor after it.
  datatype Result = Null | Got(dag: Dag, i: nat)

  predicate At(ts: seq<Token>, i: nat, t: Token) {
    i < |ts| && ts[i] == t
  }

  predicate MulOp(ts: seq<Token>, i: nat) {
    At(ts, i, MUL) || At(ts, i, DIV)
  }

  predicate AddOp(ts: seq<Token>, i: nat) {
    At(ts, i, ADD) || At(ts, i, SUB)
  }

  function MulNode(ts: seq<Token>, i: nat, l: Dag, r: Dag): Dag {
    if At(ts, i, MUL) then Mul(l, r) else Div(l, r)
  }

  function AddNode(ts: seq<Token>, i: nat, l: Dag, r: Dag): Dag {
    if At(ts, i, ADD) then Add(l, r) else Sub(l, r)
  }

  ghost predicate Advances(ts: seq<Token>, i: nat, r: Result) {
    r.Got? ==> i < r.i <= |ts|
  }

  function ParsePrimary(ts: seq<Token>, i: nat): (r: Result)
    ensures Advances(ts, i, r)
    decreases if i <= |ts| then |ts| - i else 0, 0
  {
    if i < |ts| && ts[i].VAL? then Got(Val(ts[i].val), i + 1)
    else if At(ts, i, OPEN) then
      match ParseAdditive(ts, i + 1)
      case Null => Null
      case Got(d, j) => if At(ts, j, CLOSE) then Got(d, j + 1) else Null
    else Null
  }

  function ParseUnary(ts: seq<Token>, i: nat): (r: Result)
    ensures Advances(ts, i, r)
    decreases if i <= |ts| then |ts| - i else 0, 1
  {
    if At(ts, i, ADD) then ParseUnary(ts, i + 1)
    else if At(ts, i, SUB) then
      match ParseUnary(ts, i + 1)
      case Null => Null
      case Got(d, j) => Got(Neg(d), j)
    else ParsePrimary(ts, i)
  }

  // All operators of the level are consumed, each taking the tree so far as its
  // left operand.
  function ParseMulRest(ts: seq<Token>, i: nat, left: Dag): (r: Result)
    requires i <= |ts|
    ensures r.Got? ==> i <= r.i <= |ts| && !MulOp(ts, r.i)
    decreases |ts| - i, 2
  {
    if MulOp(ts, i) then
      match ParseUnary(ts, i + 1)
      case Null => Null
      case Got(d, j) => ParseMulRest(ts, j, MulNode(ts, i, left, d))
    else Got(left, i)
  }

  function ParseMultiplicative(ts: seq<Token>, i: nat): (r: Result)
    ensures Advances(ts, i, r)
    decreases if i <= |ts| then |ts| - i else 0, 3
  {
    match ParseUnary(ts, i)
    case Null => Null
    case Got(d, j) => ParseMulRest(ts, j, d)
  }

  function ParseAddRest(ts: seq<Token>, i: nat, left: Dag): (r: Result)
    requires i <= |ts|
    ensures r.Got? ==> i <= r.i <= |ts| && !AddOp(ts, r.i)
    decreases |ts| - i, 4
  {
    if AddOp(ts, i) then
      match ParseMultiplicative(ts, i + 1)
      case Null => Null
      case Got(d, j) => ParseAddRest(ts, j, AddNode(ts, i, left, d))
    else Got(left, i)
  }

  function ParseAdditive(ts: seq<Token>, i: nat): (r: Result)
    ensures Advances(ts, i, r)
    decreases if i <= |ts| then |ts| - i else 0, 5
  {
    match ParseMultiplicative(ts, i)
    case Null => Null
    case Got(d, j) => ParseAddRest(ts, j, d)
  }

  function ParseTop(ts: seq<Token>): Result {
    match ParseAdditive(ts, 0)
    case Null => Null
    case Got(d, j) => if j == |ts| then Got(d, j) else Null
  }

  // ------------------------------------------------- it is a parser of the grammar

  // The derivation's tokens stand at position i.
  ghost predicate Spans(ts: seq<Token>, i: nat, c: Derivation) {
    i + |Yield(c)| <= |ts| && ts[i..i + |Yield(c)|] == Yield(c)
  }

  function End(i: nat, c: Derivation): nat {
    i + |Yield(c)|
  }

  lemma Cut(ts: seq<Token>, i: nat, a: seq<Token>, b: seq<Token>)
    requires i + |a| + |b| <= |ts| && ts[i..i + |a| + |b|] == a + b
    ensures ts[i..i + |a|] == a && ts[i + |a|..i + |a| + |b|] == b
  {
    var s := ts[i..i + |a| + |b|];
    assert ts[i..i + |a|] == s[..|a|] && ts[i + |a|..i + |a| + |b|] == s[|a|..];
  }

  lemma Join(ts: seq<Token>, i: nat, a: seq<Token>, b: seq<Token>)
    requires i + |a| + |b| <= |ts| && ts[i..i + |a|] == a && ts[i + |a|..i + |a| + |b|] == b
    ensures ts[i..i + |a| + |b|] == a + b
  {
    assert ts[i..i + |a| + |b|] == ts[i..i + |a|] + ts[i + |a|..i + |a| + |b|];
  }

  lemma Three(ts: seq<Token>, i: nat, a: seq<Token>, t: Token, b: seq<Token>)
    ensures i + |a| + 1 + |b| <= |ts| && ts[i..i + |a| + 1 + |b|] == a + [t] + b <==>
      && i + |a| <= |ts| && ts[i..i + |a|] == a
      && At(ts, i + |a|, t)
      && i + |a| + 1 + |b| <= |ts| && ts[i + |a| + 1..i + |a| + 1 + |b|] == b
  {
    var k := i + |a|;
    if k + 1 + |b| <= |ts| {
      var s := ts[i..k + 1 + |b|];
      assert s == ts[i..k] + [ts[k]] + ts[k + 1..k + 1 + |b|];
      assert ts[i..k] == s[..|a|] && ts[k] == s[|a|] && ts[k + 1..k + 1 + |b|] == s[|a| + 1..];
    }
  }

  // The token of the operator of a binary derivation.
  function OpOf(c: Derivation): Token
    requires c.Times? || c.Over? || c.Sum? || c.Diff?
  {
    match c
    case Times(_, _) => MUL
    case Over(_, _) => DIV
    case Sum(_, _) => ADD
    case Diff(_, _) => SUB
  }

  lemma BinarySpans(ts: seq<Token>, i: nat, c: Derivation)
    requires c.Times? || c.Over? || c.Sum? || c.Diff?
    ensures Spans(ts, i, c) <==>
      Spans(ts, i, c.l) && At(ts, End(i, c.l), OpOf(c)) && Spans(ts, End(i, c.l) + 1, c.r)
    ensures End(i, c) == End(End(i, c.l) + 1, c.r)
  {
    Three(ts, i, Yield(c.l), OpOf(c), Yield(c.r));
    assert Yield(c) == Yield(c.l) + [OpOf(c)] + Yield(c.r);
  }

  lemma SignSpans(ts: seq<Token>, i: nat, c: Derivation)
    requires c.Plus? || c.Minus?
    ensures Spans(ts, i, c) <==> At(ts, i, if c.Plus? then ADD else SUB) && Spans(ts, i + 1, c.e)
    ensures End(i, c) == End(i + 1, c.e)
  {
    var t, b := [if c.Plus? then ADD else SUB], Yield(c.e);
    if Spans(ts, i, c) {
      Cut(ts, i, t, b);
      assert ts[i] == ts[i..i + 1][0];
    }
    if At(ts, i, t[0]) && Spans(ts, i + 1, c.e) {
      assert ts[i..i + 1] == t;
      Join(ts, i, t, b);
    }
  }

  lemma ParensSpans(ts: seq<Token>, i: nat, e: Derivation)
    ensures Spans(ts, i, Parens(e)) <==>
      At(ts, i, OPEN) && Spans(ts, i + 1, e) && At(ts, End(i + 1, e), CLOSE)
    ensures End(i, Parens(e)) == End(i + 1, e) + 1
  {
    var a, t, b := [OPEN], Yield(e), [CLOSE];
    assert Yield(Parens(e)) == a + t + b;
    if Spans(ts, i, Parens(e)) {
      Cut(ts, i, a + t, b);
      Cut(ts, i, a, t);
      assert ts[i] == ts[i..i + 1][0];
      assert ts[End(i + 1, e)] == ts[End(i + 1, e)..End(i + 1, e) + 1][0];
    }
    if At(ts, i, OPEN) && Spans(ts, i + 1, e) && At(ts, End(i + 1, e), CLOSE) {
      assert ts[i..i + 1] == a && ts[End(i + 1, e)..End(i + 1, e) + 1] == b;
      Join(ts, i, a, t);
      Join(ts, i, a + t, b);
    }
  }

  // A unary derivation is parsed to its tree, whatever follows it.
  lemma {:induction false} CompleteUnary(ts: seq<Token>, i: nat, c: Derivation)
    requires Derives(c, Unary) && Spans(ts, i, c)
    ensures ParseUnary(ts, i) == Got(TreeOf(c), End(i, c))
    ensures Derives(c, Primary) ==> ParsePrimary(ts, i) == Got(TreeOf(c), End(i, c))
    decreases c, 0
  {
    if c.Literal? {
      assert ts[i] == ts[i..i + 1][0];
    } else {
      hide Spans, Yield;
      if c.Parens? {
        ParensSpans(ts, i, c.e);
        CompleteAdditive(ts, i + 1, c.e);
      } else {
        SignSpans(ts, i, c);
        CompleteUnary(ts, i + 1, c.e);
      }
    }
  }

  // After a multiplicative derivation the parser stands where its rest begins,
  // with the derivation's tree as left operand.
  lemma {:induction false} CompleteMultiplicative(ts: seq<Token>, i: nat, c: Derivation)
    requires Derives(c, Multiplicative) && Spans(ts, i, c)
    ensures ParseMultiplicative(ts, i) == ParseMulRest(ts, End(i, c), TreeOf(c))
    decreases c, 1
  {
    hide Spans, Yield;
    if Derives(c, Unary) {
      CompleteUnary(ts, i, c);
    } else {
      BinarySpans(ts, i, c);
      CompleteMultiplicative(ts, i, c.l);
      CompleteUnary(ts, End(i, c.l) + 1, c.r);
    }
  }

  lemma {:induction false} CompleteAdditive(ts: seq<Token>, i: nat, c: Derivation)
    requires Derives(c, Additive) && Spans(ts, i, c) && !MulOp(ts, End(i, c))
    ensures ParseAdditive(ts, i) == ParseAddRest(ts, End(i, c), TreeOf(c))
    decreases c, 2
  {
    hide Spans, Yield;
    if Derives(c, Multiplicative) {
      CompleteMultiplicative(ts, i, c);
    } else {
      BinarySpans(ts, i, c);
      CompleteAdditive(ts, i, c.l);
      CompleteMultiplicative(ts, End(i, c.l) + 1, c.r);
    }
  }

  // Whatever the parser accepts has a derivation with its tree.
  ghost predicate Explains(ts: seq<Token>, i: nat, c: Derivation, v: Level, r: Result) {
    Derives(c, v) && Spans(ts, i, c) && r == Got(TreeOf(c), End(i, c))
  }

  lemma {:induction false} SoundPrimary(ts: seq<Token>, i: nat) returns (c: Derivation)
    requires ParsePrimary(ts, i).Got?
    ensures Explains(ts, i, c, Primary, ParsePrimary(ts, i))
    decreases if i <= |ts| then |ts| - i else 0, 0
  {
    if ts[i].VAL? {
      c := Literal(ts[i].val);
      assert ts[i..i + 1] == [ts[i]];
    } else {
      var e := SoundAdditive(ts, i + 1);
      c := Parens(e);
      ParensSpans(ts, i, e);
    }
  }

  lemma {:induction false} SoundUnary(ts: seq<Token>, i: nat) returns (c: Derivation)
    requires ParseUnary(ts, i).Got?
    ensures Explains(ts, i, c, Unary, ParseUnary(ts, i))
    decreases if i <= |ts| then |ts| - i else 0, 1
  {
    hide Spans, Yield;
    if At(ts, i, ADD) || At(ts, i, SUB) {
      var e := SoundUnary(ts, i + 1);
      c := if At(ts, i, ADD) then Plus(e) else Minus(e);
      SignSpans(ts, i, c);
    } else {
      c := SoundPrimary(ts, i);
      Wider(c, Primary, Unary);
    }
  }

  lemma {:induction false} SoundMulRest(ts: seq<Token>, i: nat, l: Derivation) returns (c: Derivation)
    requires Derives(l, Multiplicative) && Spans(ts, i, l)
    requires ParseMulRest(ts, End(i, l), TreeOf(l)).Got?
    ensures Explains(ts, i, c, Multiplicative, ParseMulRest(ts, End(i, l), TreeOf(l)))
    decreases |ts| - End(i, l), 2
  {
    hide Spans, Yield;
    var k := End(i, l);
    if MulOp(ts, k) {
      var r := SoundUnary(ts, k + 1);
      var n := if At(ts, k, MUL) then Times(l, r) else Over(l, r);
      BinarySpans(ts, i, n);
      c := SoundMulRest(ts, i, n);
    } else {
      c := l;
    }
  }

  lemma {:induction false} SoundMultiplicative(ts: seq<Token>, i: nat) returns (c: Derivation)
    requires ParseMultiplicative(ts, i).Got?
    ensures Explains(ts, i, c, Multiplicative, ParseMultiplicative(ts, i))
    decreases if i <= |ts| then |ts| - i else 0, 3
  {
    hide Spans, Yield;
    var u := SoundUnary(ts, i);
    Wider(u, Unary, Multiplicative);
    c := SoundMulRest(ts, i, u);
  }

  lemma {:induction false} SoundAddRest(ts: seq<Token>, i: nat, l: Derivation) returns (c: Derivation)
    requires Derives(l, Additive) && Spans(ts, i, l)
    requires ParseAddRest(ts, End(i, l), TreeOf(l)).Got?
    ensures Explains(ts, i, c, Additive, ParseAddRest(ts, End(i, l), TreeOf(l)))
    decreases |ts| - End(i, l), 4
  {
    hide Spans, Yield;
    var k := End(i, l);
    if AddOp(ts, k) {
      var r := SoundMultiplicative(ts, k + 1);
      var n := if At(ts, k, ADD) then Sum(l, r) else Diff(l, r);
      BinarySpans(ts, i, n);
      c := SoundAddRest(ts, i, n);
    } else {
      c := l;
    }
  }

  lemma {:induction false} SoundAdditive(ts: seq<Token>, i: nat) returns (c: Derivation)
    requires ParseAdditive(ts, i).Got?
    ensures Explains(ts, i, c, Additive, ParseAdditive(ts, i))
    decreases if i <= |ts| then |ts| - i else 0, 5
  {
    hide Spans, Yield;
    var m := SoundMultiplicative(ts, i);
    Wider(m, Multiplicative, Additive);
    c := SoundAddRest(ts, i, m);
  }

  lemma Wider(c: Derivation, v: Level, w: Level)
    requires Derives(c, v) && Rank(v) <= Rank(w)
    ensures Derives(c, w)
  {
  }

  ghost predicate Sentence(ts: seq<Token>, c: Derivation, d: Dag) {
    Derives(c, Additive) && Yield(c) == ts && TreeOf(c) == d
  }

  // The parser accepts exactly the sentences of the grammar, with their trees.
  lemma AcceptsExactly(ts: seq<Token>, d: Dag)
    ensures ParseTop(ts) == Got(d, |ts|) <==> exists c :: Sentence(ts, c, d)
    ensures ParseTop(ts).Got? ==> ParseTop(ts).i == |ts|
  {
    assert ts[0..|ts|] == ts;
    if ParseTop(ts) == Got(d, |ts|) {
      var c := SoundAdditive(ts, 0);
      assert Sentence(ts, c, d);
    }
    forall c | Sentence(ts, c, d)
      ensures ParseTop(ts) == Got(d, |ts|)
    {
      CompleteAdditive(ts, 0, c);
    }
  }

  lemma AcceptsSentences(ts: seq<Token>)
    ensures ParseTop(ts).Got? <==> exists c :: Derives(c, Additive) && Yield(c) == ts
    ensures forall c :: Derives(c, Additive) && Yield(c) == ts ==> ParseTop(ts) == Got(TreeOf(c), |ts|)
  {
    forall c | Derives(c, Additive) && Yield(c) == ts
      ensures ParseTop(ts) == Got(TreeOf(c), |ts|)
    {
      AcceptsExactly(ts, TreeOf(c));
      assert Sentence(ts, c, TreeOf(c));
    }
    if ParseTop(ts).Got? {
      AcceptsExactly(ts, ParseTop(ts).dag);
      var c :| Sentence(ts, c, ParseTop(ts).dag);
      assert Derives(c, Additive) && Yield(c) == ts;
    }
  }

  // So no sentence has two trees.
  lemma Unambiguous(c: Derivation, c': Derivation)
    requires Derives(c, Additive) && Derives(c', Additive) && Yield(c) == Yield(c')
    ensures TreeOf(c) == TreeOf(c')
  {
    AcceptsExactly(Yield(c), TreeOf(c));
    AcceptsExactly(Yield(c), TreeOf(c'));
    assert Sentence(Yield(c), c, TreeOf(c)) && Sentence(Yield(c), c', TreeOf(c'));
  }

  // ------------------------------------------------------------------- round trip

  // The tree written with parentheses only where the level calls for them.
  function Show(d: Dag, v: Level): Derivation {
    match d
    case Val(x) => Literal(x)
    case Neg(e) => Wrap(Minus(Show(e, Unary)), Rank(v) >= 1)
    case Mul(l, r) => Wrap(Times(Show(l, Multiplicative), Show(r, Unary)), Rank(v) >= 2)
    case Div(l, r) => Wrap(Over(Show(l, Multiplicative), Show(r, Unary)), Rank(v) >= 2)
    case Add(l, r) => Wrap(Sum(Show(l, Additive), Show(r, Multiplicative)), Rank(v) >= 3)
    case Sub(l, r) => Wrap(Diff(Show(l, Additive), Show(r, Multiplicative)), Rank(v) >= 3)
  }

  function Wrap(c: Derivation, fits: bool): Derivation {
    if fits then c else Parens(c)
  }

  lemma {:induction false} ShowDerives(d: Dag, v: Level)
    ensures Derives(Show(d, v), v) && TreeOf(Show(d, v)) == d
  {
    match d
    case Val(_) =>
    case Neg(e) => ShowDerives(e, Unary);
    case Mul(l, r) => ShowDerives(l, Multiplicative); ShowDerives(r, Unary);
    case Div(l, r) => ShowDerives(l, Multiplicative); ShowDerives(r, Unary);
    case Add(l, r) => ShowDerives(l, Additive); ShowDerives(r, Multiplicative);
    case Sub(l, r) => ShowDerives(l, Additive); ShowDerives(r, Multiplicative);
  }

  // Parsing what Show prints gives the tree back.
  lemma PrintParse(d: Dag)
    ensures ParseTop(Yield(Show(d, Additive))) == Got(d, |Yield(Show(d, Additive))|)
  {
    ShowDerives(d, Additive);
    AcceptsExactly(Yield(Show(d, Additive)), d);
    assert Sentence(Yield(Show(d, Additive)), Show(d, Additive), d);
  }

  function ParensIn(c: Derivation): nat {
    match c
    case Literal(_) => 0
    case Parens(e) => 1 + ParensIn(e)
    case Plus(e) => ParensIn(e)
    case Minus(e) => ParensIn(e)
    case Times(l, r) => ParensIn(l) + ParensIn(r)
    case Over(l, r) => ParensIn(l) + ParensIn(r)
    case Sum(l, r) => ParensIn(l) + ParensIn(r)
    case Diff(l, r) => ParensIn(l) + ParensIn(r)
  }

  // No way of writing a tree has fewer parentheses than Show's.
  lemma {:induction false} ShowIsMinimal(c: Derivation, v: Level)
    requires Derives(c, v)
    ensures ParensIn(Show(TreeOf(c), v)) <= ParensIn(c)
    decreases c
  {
    match c
    case Literal(_) =>
    case Parens(e) =>
      ShowIsMinimal(e, Additive);
    case Plus(e) =>
      ShowIsMinimal(e, Unary);
      ShowWider(TreeOf(e), Unary, v);
    case Minus(e) => ShowIsMinimal(e, Unary);
    case Times(l, r) => ShowIsMinimal(l, Multiplicative); ShowIsMinimal(r, Unary);
    case Over(l, r) => ShowIsMinimal(l, Multiplicative); ShowIsMinimal(r, Unary);
    case Sum(l, r) => ShowIsMinimal(l, Additive); ShowIsMinimal(r, Multiplicative);
    case Diff(l, r) => ShowIsMinimal(l, Additive); ShowIsMinimal(r, Multiplicative);
  }

  // They are the OPEN tokens of the sentence.
  lemma {:induction false} ParensAreTokens(c: Derivation)
    ensures multiset(Yield(c))[OPEN] == ParensIn(c)
  {
    match c
    case Literal(_) =>
    case Parens(e) => ParensAreTokens(e);
    case Plus(e) => ParensAreTokens(e);
    case Minus(e) => ParensAreTokens(e);
    case Times(l, r) => ParensAreTokens(l); ParensAreTokens(r);
    case Over(l, r) => ParensAreTokens(l); ParensAreTokens(r);
    case Sum(l, r) => ParensAreTokens(l); ParensAreTokens(r);
    case Diff(l, r) => ParensAreTokens(l); ParensAreTokens(r);
  }

  // So of all sentences for a tree its print has the fewest.
  lemma FewestParens(c: Derivation)
    requires Derives(c, Additive)
    ensures multiset(Yield(Show(TreeOf(c), Additive)))[OPEN] <= multiset(Yield(c))[OPEN]
  {
    ShowIsMinimal(c, Additive);
    ParensAreTokens(c);
    ParensAreTokens(Show(TreeOf(c), Additive));
  }

  lemma ShowWider(d: Dag, v: Level, w: Level)
    requires Rank(v) <= Rank(w)
    ensures ParensIn(Show(d, w)) <= ParensIn(Show(d, v))
  {
  }

  // -------------------------------------------------------------------- the class

  // struct parser: the tokens and the cursor.
  class Parser {
    const tokens: seq<Token>
    var i: nat

    constructor (tokens: seq<Token>)
      ensures this.tokens == tokens && i == 0
    {
      this.tokens, i := tokens, 0;
    }

    predicate Match(t: Token)
      reads this
    {
      At(tokens, i, t)
    }

    method Forward()
      modifies this`i
      ensures i == if old(i) < |tokens| then old(i) + 1 else old(i)
    {
      if i < |tokens| {
        i := i + 1;
      }
    }

    method ExprPrimary() returns (dag: Option<Dag>)
      requires i <= |tokens|
      modifies this`i
      ensures i <= |tokens|
      ensures match ParsePrimary(tokens, old(i))
        case Null => dag == None
        case Got(d, j) => dag == Some(d) && i == j
      decreases |tokens| - i, 0
    {
      dag := None;
      if i < |tokens| && tokens[i].VAL? {
        dag := Some(Val(tokens[i].val));
        Forward();
      } else if Match(OPEN) {
        Forward();
        dag := Expr();
        if dag == None {
          return;
        }
        if !Match(CLOSE) {
          return None;
        }
        Forward();
      }
    }

    method ExprUnary() returns (dag: Option<Dag>)
      requires i <= |tokens|
      modifies this`i
      ensures i <= |tokens|
      ensures match ParseUnary(tokens, old(i))
        case Null => dag == None
        case Got(d, j) => dag == Some(d) && i == j
      decreases |tokens| - i, 1
    {
      if Match(ADD) {
        Forward();
        dag := ExprUnary();
      } else if Match(SUB) {
        Forward();
        var right := ExprUnary();
        if right == None {
          return None;
        }
        dag := Some(Neg(right.value));
      } else {
        dag := ExprPrimary();
      }
    }

    // The recursive call consumes every operator of the level, so the loop ends on
    // its second turn at the latest and never builds two nodes over one left.
    method ExprMultiplicative_(left: Dag) returns (dag: Option<Dag>)
      requires i <= |tokens|
      modifies this`i
      ensures i <= |tokens|
      ensures match ParseMulRest(tokens, old(i), left)
        case Null => dag == None
        case Got(d, j) => dag == Some(d) && i == j
      decreases |tokens| - i, 2
    {
      dag := Some(left);
      ghost var start := i;
      while true
        invariant start <= i <= |tokens| && dag.Some?
        invariant (i == start && dag == Some(left)) ||
                  (start < i && ParseMulRest(tokens, start, left) == Got(dag.value, i))
        decreases |tokens| - i
      {
        var first;
        if Match(MUL) {
          first := true;
        } else if Match(DIV) {
          first := false;
        } else {
          break;
        }
        Forward();
        var right := ExprUnary();
        if right == None {
          return None;
        }
        var node := if first then Mul(left, right.value) else Div(left, right.value);
        dag := ExprMultiplicative_(node);
        if dag == None {
          return;
        }
      }
    }

    method ExprMultiplicative() returns (dag: Option<Dag>)
      requires i <= |tokens|
      modifies this`i
      ensures i <= |tokens|
      ensures match ParseMultiplicative(tokens, old(i))
        case Null => dag == None
        case Got(d, j) => dag == Some(d) && i == j
      decreases |tokens| - i, 3
    {
      dag := ExprUnary();
      if dag == None {
        return;
      }
      dag := ExprMultiplicative_(dag.value);
    }

    // The recursive call consumes every operator of the level, so the loop ends on
    // its second turn at the latest and never builds two nodes over one left.
    method ExprAdditive_(left: Dag) returns (dag: Option<Dag>)
      requires i <= |tokens|
      modifies this`i
      ensures i <= |tokens|
      ensures match ParseAddRest(tokens, old(i), left)
        case Null => dag == None
        case Got(d, j) => dag == Some(d) && i == j
      decreases |tokens| - i, 4
    {
      dag := Some(left);
      ghost var start := i;
      while true
        invariant start <= i <= |tokens| && dag.Some?
        invariant (i == start && dag == Some(left)) ||
                  (start < i && ParseAddRest(tokens, start, left) == Got(dag.value, i))
        decreases |tokens| - i
      {
        var first;
        if Match(ADD) {
          first := true;
        } else if Match(SUB) {
          first := false;
        } else {
          break;
        }
        Forward();
        var right := ExprMultiplicative();
        if right == None {
          return None;
        }
        var node := if first then Add(left, right.value) else Sub(left, right.value);
        dag := ExprAdditive_(node);
        if dag == None {
          return;
        }
      }
    }

    method ExprAdditive() returns (dag: Option<Dag>)
      requires i <= |tokens|
      modifies this`i
      ensures i <= |tokens|
      ensures match ParseAdditive(tokens, old(i))
        case Null => dag == None
        case Got(d, j) => dag == Some(d) && i == j
      decreases |tokens| - i, 5
    {
      dag := ExprMultiplicative();
      if dag == None {
        return;
      }
      dag := ExprAdditive_(dag.value);
    }

    method Expr() returns (dag: Option<Dag>)
      requires i <= |tokens|
      modifies this`i
      ensures i <= |tokens|
      ensures match ParseAdditive(tokens, old(i))
        case Null => dag == None
        case Got(d, j) => dag == Some(d) && i == j
      decreases |tokens| - i, 6
    {
      dag := ExprAdditive();
    }

    method Top() returns (dag: Option<Dag>)
      requires i == 0
      modifies this`i
      ensures match ParseTop(tokens)
        case Null => dag == None
        case Got(d, _) => dag == Some(d)
    {
      dag := Expr();
      if dag == None {
        return;
      }
      if i < |tokens| {
        return None;
      }
    }
  }

  // parser_open on the lexer's tokens: a tree exactly for the sentences of the
  // grammar, and then the sentence's own.
  method ParserOpen(tokens: seq<Token>) returns (dag: Option<Dag>)
    ensures dag.Some? <==> exists c :: Derives(c, Additive) && Yield(c) == tokens
    ensures forall c :: Derives(c, Additive) && Yield(c) == tokens ==> dag == Some(TreeOf(c))
  {
    AcceptsSentences(tokens);
    if |tokens| == 0 {
      return None;
    }
    var parser := new Parser(tokens);
    dag := parser.Top();
  }
}
