/** The expression engine of the calculator front end: operators, tokens, the single
    binary operation, the precedence semantics of a token stream and the two-pass
    reduction that evaluates it. */
module Expression {

  datatype Option<T> = None | Some(value: T)

  /** The four operators that the keypad and the key bindings produce. */
  datatype Op = Add | Subtract | Multiply | Divide

  /** What `performOperation` can throw. */
  datatype EvalError = DivisionByZero | UnknownOperator(name: string)

  datatype Result<T> = Ok(value: T) | Err(error: EvalError)

  /** A token of the pending expression: a number as typed, or an operator. */
  datatype Token = Number(text: string) | Operator(op: Op)

  /** A cell of the working copy that the reduction rewrites: numbers already parsed. */
  datatype Cell = Val(v: real) | Opr(op: Op)

  /** The name under which the front end passes an operator around. */
  function Name(op: Op): string {
    match op
    case Add => "add"
    case Subtract => "subtract"
    case Multiply => "multiply"
    case Divide => "divide"
  }

  /** The operator a name stands for, if any: the inverse of Name. */
  function OperatorNamed(name: string): (r: Option<Op>)
    ensures r.Some? ==> Name(r.value) == name
    ensures r.None? ==> forall op: Op :: Name(op) != name
  {
    if name == "add" then Some(Add)
    else if name == "subtract" then Some(Subtract)
    else if name == "multiply" then Some(Multiply)
    else if name == "divide" then Some(Divide)
    else None
  }

  /** getOperatorSymbol: the display symbol of an operator name; unknown names show nothing. */
  function OperatorSymbol(name: string): (s: string)
    ensures s == "" <==> OperatorNamed(name) == None
    ensures |s| <= 1 && ' ' !in s
  {
    if name == "add" then "+"
    else if name == "subtract" then "−"
    else if name == "multiply" then "×"
    else if name == "divide" then "÷"
    else ""
  }

  /** getOperatorSymbol on an operator known by type. */
  function Symbol(op: Op): (s: string)
    ensures |s| == 1 && s != " "
  {
    match op
    case Add => "+"
    case Subtract => "−"
    case Multiply => "×"
    case Divide => "÷"
  }

  /** Symbol is getOperatorSymbol called with the operator's name, and different
      operators show differently. */
  lemma SymbolIsOperatorSymbol(op: Op)
    ensures Symbol(op) == OperatorSymbol(Name(op))
    ensures forall other: Op :: other != op ==> Symbol(other) != Symbol(op)
  {
  }

  /** performOperation: one binary step; a zero divisor and an unknown name are errors. */
  function PerformOperation(a: real, b: real, name: string): (r: Result<real>)
    ensures r.Err? <==> OperatorNamed(name) == None || (name == "divide" && b == 0.0)
    ensures r.Err? ==> r.error == (if OperatorNamed(name) == None then UnknownOperator(name) else DivisionByZero)
    ensures r.Ok? && name == "divide" ==> r.value * b == a
  {
    if name == "add" then Ok(a + b)
    else if name == "subtract" then Ok(a - b)
    else if name == "multiply" then Ok(a * b)
    else if name == "divide" then
      if b == 0.0 then Err(DivisionByZero) else Ok(a / b)
    else Err(UnknownOperator(name))
  }

  /** performOperation on an operator known by type rather than by name. */
  function Apply(x: real, op: Op, y: real): Result<real> {
    match op
    case Add => Ok(x + y)
    case Subtract => Ok(x - y)
    case Multiply => Ok(x * y)
    case Divide => if y == 0.0 then Err(DivisionByZero) else Ok(x / y)
  }

  /** Apply is performOperation called with the operator's name. */
  lemma ApplyIsPerformOperation(x: real, op: Op, y: real)
    ensures Apply(x, op, y) == PerformOperation(x, y, Name(op))
  {
  }

  /** A step on a known operator fails only on a zero divisor, and never otherwise. */
  lemma ApplyFails(x: real, op: Op, y: real)
    ensures Apply(x, op, y).Err? <==> op == Divide && y == 0.0
    ensures Apply(x, op, y).Err? ==> Apply(x, op, y).error == DivisionByZero
  {
    match op
    case Add =>
    case Subtract =>
    case Multiply =>
    case Divide =>
  }

  predicate IsAdditive(op: Op) {
    op == Add || op == Subtract
  }

  /** A finished token stream: `Number (Operator Number)*`. */
  predicate WellFormed(ts: seq<Token>) {
    |ts| % 2 == 1 && forall i :: 0 <= i < |ts| ==> (ts[i].Number? <==> i % 2 == 0)
  }

  /** The same shape for the working copy. */
  predicate Alternating(c: seq<Cell>) {
    |c| % 2 == 1 && forall i :: 0 <= i < |c| ==> (c[i].Val? <==> i % 2 == 0)
  }

  function ParseCell(t: Token, parse: string -> real): Cell {
    match t
    case Number(s) => Val(parse(s))
    case Operator(op) => Opr(op)
  }

  /** The working copy of a token stream, each number parsed with `parse`. */
  function Parsed(ts: seq<Token>, parse: string -> real): (c: seq<Cell>)
    ensures |c| == |ts|
    ensures forall i :: 0 <= i < |ts| ==> c[i] == ParseCell(ts[i], parse)
    ensures WellFormed(ts) ==> Alternating(c)
  {
    seq(|ts|, i requires 0 <= i < |ts| => ParseCell(ts[i], parse))
  }

  /** The catch clause of evaluateExpression: every error becomes the value 0. */
  function ValueOrZero(r: Result<real>): real {
    match r
    case Ok(v) => v
    case Err(_) => 0.0
  }

  // ---------------------------------------------------------------------------
  // Specification: ordinary precedence with left associativity
  // ---------------------------------------------------------------------------

  /** Strict left-to-right evaluation of a stream, ignoring precedence:
      ((n1 op1 n2) op2 n3) ... */
  function Fold(c: seq<Cell>): Result<real>
    requires Alternating(c)
    decreases |c|
  {
    if |c| == 1 then Ok(c[0].v)
    else
      match Fold(c[..|c| - 2])
      case Err(e) => Err(e)
      case Ok(x) => Apply(x, c[|c| - 2].op, c[|c| - 1].v)
  }

  /** The position of the last additive operator among the first n cells, or -1. */
  function LastAdditiveIn(c: seq<Cell>, n: nat): (j: int)
    requires n <= |c|
    ensures -1 <= j < n
    ensures j >= 0 ==> c[j].Opr? && IsAdditive(c[j].op)
    ensures forall k :: j < k < n && c[k].Opr? ==> !IsAdditive(c[k].op)
  {
    if n == 0 then -1
    else if c[n - 1].Opr? && IsAdditive(c[n - 1].op) then n - 1
    else LastAdditiveIn(c, n - 1)
  }

  function LastAdditive(c: seq<Cell>): (j: int)
    ensures -1 <= j < |c|
    ensures j >= 0 ==> c[j].Opr? && IsAdditive(c[j].op)
    ensures forall k :: j < k < |c| && c[k].Opr? ==> !IsAdditive(c[k].op)
  {
    LastAdditiveIn(c, |c|)
  }

  /** The value of a stream under the grammar
        expr ::= expr (+|-) term | term        term ::= term (*|/) number | number
      i.e. multiplication and division bind tighter and each level associates to the left.
      A term is a stretch without additive operators, evaluated left to right. */
  function ExprValue(c: seq<Cell>): Result<real>
    requires Alternating(c)
    decreases |c|
  {
    var j := LastAdditive(c);
    if j < 0 then Fold(c)
    else
      AlternatingSplit(c, j);
      Combine(ExprValue(c[..j]), c[j].op, Fold(c[j + 1..]))
  }

  /** Apply an operator to two partial results; the left error wins. */
  function Combine(l: Result<real>, op: Op, r: Result<real>): Result<real> {
    match l
    case Err(e) => Err(e)
    case Ok(x) =>
      match r
      case Err(e) => Err(e)
      case Ok(y) => Apply(x, op, y)
  }

  /** One unfolding of ExprValue at its last additive operator. */
  lemma ExprValueSplit(c: seq<Cell>, j: nat)
    requires Alternating(c) && j < |c| && j == LastAdditive(c)
    ensures Alternating(c[..j]) && Alternating(c[j + 1..])
    ensures ExprValue(c) == Combine(ExprValue(c[..j]), c[j].op, Fold(c[j + 1..]))
  {
    AlternatingSplit(c, j);
  }

  /** Cutting a stream at an operator leaves two streams. */
  lemma AlternatingSplit(c: seq<Cell>, j: nat)
    requires Alternating(c) && j < |c| && c[j].Opr?
    ensures Alternating(c[..j]) && Alternating(c[j + 1..])
  {
    assert j % 2 == 1;
    var s := c[j + 1..];
    forall k | 0 <= k < |s|
      ensures s[k].Val? <==> k % 2 == 0
    {
      assert s[k] == c[k + j + 1];
      assert (k + j + 1) % 2 == k % 2;
    }
  }

  /** Some division in the stream has the literal divisor 0. */
  predicate HasZeroDivisor(c: seq<Cell>) {
    exists k :: 0 <= k < |c| - 1 && c[k] == Opr(Divide) && c[k + 1] == Val(0.0)
  }

  // ---------------------------------------------------------------------------
  // Facts about the specification
  // ---------------------------------------------------------------------------

  /** The stream with the triple at i - 1, i, i + 1 replaced by the single value x (a splice). */
  function Reduced(w: seq<Cell>, i: nat, x: real): (r: seq<Cell>)
    requires 1 <= i < |w| - 1
    ensures |r| == |w| - 2
    ensures Alternating(w) && i % 2 == 1 ==> Alternating(r)
  {
    var r := w[..i - 1] + [Val(x)] + w[i + 2..];
    assert forall k :: i <= k < |r| ==> r[k] == w[k + 2];
    r
  }

  /** What a splice leaves in place, position by position. */
  lemma ReducedAt(w: seq<Cell>, i: nat, x: real, k: nat)
    requires 1 <= i < |w| - 1 && k < |w| - 2
    ensures Reduced(w, i, x)[k] == if k < i - 1 then w[k] else if k == i - 1 then Val(x) else w[k + 2]
  {
  }

  /** A splice commutes with cutting off a tail that lies after it. */
  lemma ReducedPrefix(w: seq<Cell>, i: nat, x: real, m: nat)
    requires 1 <= i && i + 2 <= m <= |w|
    ensures Reduced(w, i, x)[..m - 2] == Reduced(w[..m], i, x)
  {
    var a, b := Reduced(w, i, x)[..m - 2], Reduced(w[..m], i, x);
    forall k | 0 <= k < m - 2
      ensures a[k] == b[k]
    {
      ReducedAt(w, i, x, k);
      ReducedAt(w[..m], i, x, k);
    }
  }

  /** A splice commutes with cutting off a head that lies before it. */
  lemma ReducedSuffix(w: seq<Cell>, i: nat, x: real)
    requires 1 <= i < |w| - 1
    ensures Reduced(w, i, x)[i - 1..] == Reduced(w[i - 1..], 1, x)
  {
    var a, b := Reduced(w, i, x)[i - 1..], Reduced(w[i - 1..], 1, x);
    forall k | 0 <= k < |b|
      ensures a[k] == b[k]
    {
      ReducedAt(w, i, x, k + i - 1);
      ReducedAt(w[i - 1..], 1, x, k);
    }
  }

  lemma LastAdditiveIs(c: seq<Cell>, j: int)
    requires -1 <= j < |c|
    requires j >= 0 ==> c[j].Opr? && IsAdditive(c[j].op)
    requires forall k :: j < k < |c| && c[k].Opr? ==> !IsAdditive(c[k].op)
    ensures LastAdditive(c) == j
  {
  }

  /** Reducing the first triple of a stream does not change its left-to-right value;
      if that step fails, the whole fold fails with the same error. */
  lemma {:induction false} FoldReduceFirst(c: seq<Cell>)
    requires Alternating(c) && |c| >= 3
    ensures Fold(c) == (match Apply(c[0].v, c[1].op, c[2].v)
                        case Err(e) => Err(e)
                        case Ok(x) => Fold(Reduced(c, 1, x)))
    decreases |c|
  {
    var n := |c|;
    if n == 3 {
      assert c[..1] == [c[0]];
    } else {
      var p := c[..n - 2];
      FoldReduceFirst(p);
      match Apply(c[0].v, c[1].op, c[2].v)
      case Err(e) =>
      case Ok(x) =>
        var r := Reduced(c, 1, x);
        ReducedPrefix(c, 1, x, n - 2);
        ReducedAt(c, 1, x, n - 4);
        ReducedAt(c, 1, x, n - 3);
    }
  }

  /** Multiplicative reduction inside the first term that still has one preserves the
      precedence value; a failing step makes the whole expression fail. */
  lemma {:induction false} ExprReduceAt(w: seq<Cell>, i: nat)
    requires Alternating(w) && i % 2 == 1 && i + 1 < |w| && w[i - 1].Val? && w[i + 1].Val?
    requires w[i] == Opr(Multiply) || w[i] == Opr(Divide)
    requires forall k :: 0 <= k < i && w[k].Opr? ==> IsAdditive(w[k].op)
    ensures Apply(w[i - 1].v, w[i].op, w[i + 1].v).Err? ==> ExprValue(w).Err?
    ensures var res := Apply(w[i - 1].v, w[i].op, w[i + 1].v);
            res.Ok? ==> ExprValue(Reduced(w, i, res.value)) == ExprValue(w)
    decreases |w|
  {
    var res := Apply(w[i - 1].v, w[i].op, w[i + 1].v);
    var j := LastAdditive(w);
    if j > i {
      ReduceInLeftPart(w, i, j);
    } else {
      ReduceInLastTerm(w, i, j);
    }
  }

  /** ExprReduceAt when an additive operator follows position i: the step happens in the
      left operand of the last addition. */
  lemma {:induction false} ReduceInLeftPart(w: seq<Cell>, i: nat, j: int)
    requires Alternating(w) && i % 2 == 1 && i + 1 < |w| && w[i - 1].Val? && w[i + 1].Val?
    requires w[i] == Opr(Multiply) || w[i] == Opr(Divide)
    requires forall k :: 0 <= k < i && w[k].Opr? ==> IsAdditive(w[k].op)
    requires j == LastAdditive(w) && j > i
    ensures Apply(w[i - 1].v, w[i].op, w[i + 1].v).Err? ==> ExprValue(w).Err?
    ensures var res := Apply(w[i - 1].v, w[i].op, w[i + 1].v);
            res.Ok? ==> ExprValue(Reduced(w, i, res.value)) == ExprValue(w)
    decreases |w|, 0
  {
    var res := Apply(w[i - 1].v, w[i].op, w[i + 1].v);
    AlternatingSplit(w, j);
    assert j % 2 == 1;
    assert i + 1 < j;
    var p, s := w[..j], w[j + 1..];
    assert p[i - 1] == w[i - 1] && p[i] == w[i] && p[i + 1] == w[i + 1];
    assert forall k :: 0 <= k < i && p[k].Opr? ==> IsAdditive(p[k].op);
    ExprReduceAt(p, i);
    ExprValueSplit(w, j);
    if res.Ok? {
      SpliceBeforeAdditive(w, i, j, res.value);
    }
  }

  /** A splice in front of the last additive operator j only changes its left operand,
      which moves two places to the left. */
  lemma SpliceBeforeAdditive(w: seq<Cell>, i: nat, j: nat, x: real)
    requires Alternating(w) && 1 <= i && i + 1 < j < |w|
    requires j == LastAdditive(w)
    requires Alternating(w[..j]) && Alternating(w[j + 1..]) && i % 2 == 1
    requires ExprValue(Reduced(w[..j], i, x)) == ExprValue(w[..j])
    ensures ExprValue(Reduced(w, i, x)) == ExprValue(w)
  {
    var r, p, s := Reduced(w, i, x), w[..j], w[j + 1..];
    ExprValueSplit(w, j);
    ReducedPrefix(w, i, x, j);
    SpliceKeepsTail(w, i, x, j);
    SpliceMovesLastAdditive(w, i, x, j);
    ExprValueAt(r, j - 2, Reduced(p, i, x), s);
  }

  /** ExprValueSplit with the two sides named. */
  lemma ExprValueAt(c: seq<Cell>, j: nat, left: seq<Cell>, right: seq<Cell>)
    requires Alternating(c) && j < |c| && j == LastAdditive(c)
    requires left == c[..j] && right == c[j + 1..]
    ensures Alternating(left) && Alternating(right)
    ensures ExprValue(c) == Combine(ExprValue(left), c[j].op, Fold(right))
  {
    ExprValueSplit(c, j);
  }

  /** The cells from j + 1 on, behind a splice that ends before j, move two places left. */
  lemma SpliceKeepsTail(w: seq<Cell>, i: nat, x: real, j: nat)
    requires 1 <= i && i + 1 < j < |w|
    ensures Reduced(w, i, x)[j - 2] == w[j]
    ensures Reduced(w, i, x)[j - 1..] == w[j + 1..]
  {
    var r, s := Reduced(w, i, x), w[j + 1..];
    ReducedAt(w, i, x, j - 2);
    forall k | 0 <= k < |s|
      ensures r[j - 1 + k] == s[k]
    {
      ReducedAt(w, i, x, j - 1 + k);
    }
  }

  /** A splice that ends before the last additive operator moves it two places left. */
  lemma SpliceMovesLastAdditive(w: seq<Cell>, i: nat, x: real, j: nat)
    requires 1 <= i && i + 1 < j < |w|
    requires j == LastAdditive(w)
    ensures LastAdditive(Reduced(w, i, x)) == j - 2
  {
    var r := Reduced(w, i, x);
    ReducedAt(w, i, x, j - 2);
    forall k | j - 2 < k < |r| && r[k].Opr?
      ensures !IsAdditive(r[k].op)
    {
      ReducedAt(w, i, x, k);
    }
    LastAdditiveIs(r, j - 2);
  }

  /** ExprReduceAt when no additive operator follows position i: the step happens in the
      last term, at its first operator. */
  lemma {:induction false} ReduceInLastTerm(w: seq<Cell>, i: nat, j: int)
    requires Alternating(w) && i % 2 == 1 && i + 1 < |w| && w[i - 1].Val? && w[i + 1].Val?
    requires w[i] == Opr(Multiply) || w[i] == Opr(Divide)
    requires forall k :: 0 <= k < i && w[k].Opr? ==> IsAdditive(w[k].op)
    requires j == LastAdditive(w) && j <= i
    ensures Apply(w[i - 1].v, w[i].op, w[i + 1].v).Err? ==> ExprValue(w).Err?
    ensures var res := Apply(w[i - 1].v, w[i].op, w[i + 1].v);
            res.Ok? ==> ExprValue(Reduced(w, i, res.value)) == ExprValue(w)
  {
    var res := Apply(w[i - 1].v, w[i].op, w[i + 1].v);
    assert i >= 3 ==> w[i - 2].Opr? && IsAdditive(w[i - 2].op);
    assert j == i - 2;
    if j >= 0 {
      ExprValueSplit(w, j);
      var t := w[i - 1..];
      assert t[0] == w[i - 1] && t[1] == w[i] && t[2] == w[i + 1];
      FoldReduceFirst(t);
      if res.Ok? {
        SpliceAfterAdditive(w, i, res.value);
      }
    } else {
      FoldReduceFirst(w);
      if res.Ok? {
        SpliceWithoutAdditive(w, res.value);
      }
    }
  }

  /** After a splice at i, the cells from j + 1 on hold no additive operator if the
      stream had none there, provided j lies before the spliced triple. */
  lemma NoAdditiveAfterSplice(w: seq<Cell>, i: nat, x: real, j: int)
    requires 1 <= i < |w| - 1 && -1 <= j < i - 1
    requires forall k :: j < k < |w| && w[k].Opr? ==> !IsAdditive(w[k].op)
    ensures var r := Reduced(w, i, x);
            forall k :: j < k < |r| && r[k].Opr? ==> !IsAdditive(r[k].op)
  {
    var r := Reduced(w, i, x);
    forall k | j < k < |r| && r[k].Opr?
      ensures !IsAdditive(r[k].op)
    {
      ReducedAt(w, i, x, k);
    }
  }

  /** A splice at the first operator of the last term, behind the additive operator at
      i - 2, only changes the right operand of that operator. */
  lemma SpliceAfterAdditive(w: seq<Cell>, i: nat, x: real)
    requires Alternating(w) && i % 2 == 1 && 3 <= i && i + 1 < |w|
    requires LastAdditive(w) == i - 2
    requires Apply(w[i - 1].v, w[i].op, w[i + 1].v) == Ok(x)
    ensures ExprValue(Reduced(w, i, x)) == ExprValue(w)
  {
    var j := i - 2;
    ExprValueSplit(w, j);
    var t := w[i - 1..];
    assert t[0] == w[i - 1] && t[1] == w[i] && t[2] == w[i + 1];
    FoldReduceFirst(t);
    var r := Reduced(w, i, x);
    var u := Reduced(t, 1, x);
    ReducedSuffix(w, i, x);
    NoAdditiveAfterSplice(w, i, x, j);
    ReducedAt(w, i, x, j);
    LastAdditiveIs(r, j);
    ExprValueSplit(r, j);
    assert r[..j] == w[..j] by {
      forall k | 0 <= k < j
        ensures r[k] == w[k]
      {
        ReducedAt(w, i, x, k);
      }
    }
    calc {
      ExprValue(r);
      Combine(ExprValue(r[..j]), r[j].op, Fold(u));
      Combine(ExprValue(w[..j]), w[j].op, Fold(t));
      ExprValue(w);
    }
  }

  /** Without additive operators the value is the fold, and a splice at the first
      operator keeps it. */
  lemma SpliceWithoutAdditive(w: seq<Cell>, x: real)
    requires Alternating(w) && 3 <= |w|
    requires LastAdditive(w) == -1
    requires Apply(w[0].v, w[1].op, w[2].v) == Ok(x)
    ensures ExprValue(Reduced(w, 1, x)) == ExprValue(w)
  {
    FoldReduceFirst(w);
    var r := Reduced(w, 1, x);
    NoAdditiveAfterSplice(w, 1, x, -1);
    LastAdditiveIs(r, -1);
  }

  /** Without multiplicative operators, precedence evaluation is the left-to-right fold. */
  lemma {:induction false} AdditiveExprIsFold(w: seq<Cell>)
    requires Alternating(w)
    requires forall k :: 0 <= k < |w| && w[k].Opr? ==> IsAdditive(w[k].op)
    ensures ExprValue(w) == Fold(w)
    decreases |w|
  {
    var n := |w|;
    if n == 1 {
      LastAdditiveIs(w, -1);
    } else {
      LastAdditiveIs(w, n - 2);
      AdditiveExprIsFold(w[..n - 2]);
      assert w[n - 1..] == [w[n - 1]];
    }
  }

  lemma {:induction false} ZeroDivisorSnoc(c: seq<Cell>)
    requires Alternating(c) && |c| >= 3
    ensures HasZeroDivisor(c) <==>
              HasZeroDivisor(c[..|c| - 2]) || (c[|c| - 2] == Opr(Divide) && c[|c| - 1] == Val(0.0))
  {
    var n := |c|;
    var p := c[..n - 2];
    if HasZeroDivisor(c) {
      var k :| 0 <= k < n - 1 && c[k] == Opr(Divide) && c[k + 1] == Val(0.0);
      if k < n - 3 {
        assert p[k] == c[k] && p[k + 1] == c[k + 1];
      }
    }
    if HasZeroDivisor(p) {
      var k :| 0 <= k < |p| - 1 && p[k] == Opr(Divide) && p[k + 1] == Val(0.0);
      assert c[k] == p[k] && c[k + 1] == p[k + 1];
    }
  }

  lemma {:induction false} ZeroDivisorSplit(c: seq<Cell>, j: nat)
    requires Alternating(c) && 0 < j < |c| - 1
    requires c[j].Opr? && IsAdditive(c[j].op)
    ensures HasZeroDivisor(c) <==> HasZeroDivisor(c[..j]) || HasZeroDivisor(c[j + 1..])
  {
    var p, s := c[..j], c[j + 1..];
    if HasZeroDivisor(c) {
      var k :| 0 <= k < |c| - 1 && c[k] == Opr(Divide) && c[k + 1] == Val(0.0);
      if k < j - 1 {
        assert p[k] == c[k] && p[k + 1] == c[k + 1];
      } else {
        assert k > j;
        assert s[k - j - 1] == c[k] && s[k - j] == c[k + 1];
      }
    }
    if HasZeroDivisor(p) {
      var k :| 0 <= k < |p| - 1 && p[k] == Opr(Divide) && p[k + 1] == Val(0.0);
      assert c[k] == p[k] && c[k + 1] == p[k + 1];
    }
    if HasZeroDivisor(s) {
      var k :| 0 <= k < |s| - 1 && s[k] == Opr(Divide) && s[k + 1] == Val(0.0);
      assert c[k + j + 1] == s[k] && c[k + j + 2] == s[k + 1];
    }
  }

  /** Left-to-right evaluation fails exactly when some division has divisor 0. */
  lemma {:induction false} FoldFailsIffZeroDivisor(c: seq<Cell>)
    requires Alternating(c)
    ensures Fold(c).Err? <==> HasZeroDivisor(c)
    ensures Fold(c).Err? ==> Fold(c).error == DivisionByZero
    decreases |c|
  {
    var n := |c|;
    if n == 1 {
      assert !HasZeroDivisor(c);
    } else {
      var p := c[..n - 2];
      FoldFailsIffZeroDivisor(p);
      ZeroDivisorSnoc(c);
      match Fold(p)
      case Err(e) =>
        assert Fold(c) == Err(e);
      case Ok(x) =>
        assert Fold(c) == Apply(x, c[n - 2].op, c[n - 1].v);
        ApplyFails(x, c[n - 2].op, c[n - 1].v);
    }
  }

  /** Precedence evaluation fails exactly when some division has divisor 0, and the
      failure is always a division by zero (never an unknown operator). */
  lemma {:induction false} ExprFailsIffZeroDivisor(c: seq<Cell>)
    requires Alternating(c)
    ensures ExprValue(c).Err? <==> HasZeroDivisor(c)
    ensures ExprValue(c).Err? ==> ExprValue(c).error == DivisionByZero
    decreases |c|
  {
    var j := LastAdditive(c);
    if j < 0 {
      FoldFailsIffZeroDivisor(c);
    } else {
      AlternatingSplit(c, j);
      var p, s := c[..j], c[j + 1..];
      ExprFailsIffZeroDivisor(p);
      FoldFailsIffZeroDivisor(s);
      ZeroDivisorSplit(c, j);
      match ExprValue(p)
      case Err(e) =>
        assert ExprValue(c) == Err(e);
      case Ok(x) =>
        match Fold(s)
        case Err(e) =>
          assert ExprValue(c) == Err(e);
        case Ok(y) =>
          assert ExprValue(c) == Apply(x, c[j].op, y);
          ApplyFails(x, c[j].op, y);
    }
  }

  /** A stream of one operation is worth that operation. */
  lemma TripleValue(x: real, op: Op, y: real)
    ensures ExprValue([Val(x), Opr(op), Val(y)]) == Apply(x, op, y)
  {
    var c := [Val(x), Opr(op), Val(y)];
    assert c[..1] == [Val(x)];
    LastAdditiveIs(c[..1], -1);
    assert Fold(c[..1]) == Ok(x);
    if IsAdditive(op) {
      LastAdditiveIs(c, 1);
      assert c[2..] == [Val(y)];
      ExprValueAt(c, 1, c[..1], c[2..]);
    } else {
      LastAdditiveIs(c, -1);
      assert Fold(c) == Apply(x, op, y);
    }
  }

  /** The worked examples: precedence, and left associativity within a level. */
  lemma PrecedenceExamples()
    ensures ExprValue([Val(2.0), Opr(Add), Val(3.0), Opr(Multiply), Val(4.0)]) == Ok(14.0)
    ensures Fold([Val(2.0), Opr(Add), Val(3.0), Opr(Multiply), Val(4.0)]) == Ok(20.0)
    ensures ExprValue([Val(8.0), Opr(Subtract), Val(2.0), Opr(Subtract), Val(3.0)]) == Ok(3.0)
    ensures ExprValue([Val(4.0), Opr(Divide), Val(0.0)]).Err?
  {
    var a := [Val(2.0), Opr(Add), Val(3.0), Opr(Multiply), Val(4.0)];
    LastAdditiveIs(a, 1);
    assert a[..1] == [Val(2.0)];
    assert a[2..] == [Val(3.0), Opr(Multiply), Val(4.0)];
    assert a[2..][..1] == [Val(3.0)];
    assert a[..3] == [Val(2.0), Opr(Add), Val(3.0)];
    assert a[..3][..1] == [Val(2.0)];
    var b := [Val(8.0), Opr(Subtract), Val(2.0), Opr(Subtract), Val(3.0)];
    LastAdditiveIs(b, 3);
    assert b[..3] == [Val(8.0), Opr(Subtract), Val(2.0)];
    LastAdditiveIs(b[..3], 1);
    assert b[..3][..1] == [Val(8.0)];
    assert b[4..] == [Val(3.0)];
    assert b[..3][2..] == [Val(2.0)];
    var z := [Val(4.0), Opr(Divide), Val(0.0)];
    assert z[..1] == [Val(4.0)];
    LastAdditiveIs(z, -1);
  }

  // ---------------------------------------------------------------------------
  // The two-pass reduction (evaluateExpression)
  // ---------------------------------------------------------------------------

  /** A splice at i leaves the operators before i untouched. */
  lemma SpliceKeepsPrefix(w: seq<Cell>, i: nat, x: real)
    requires 1 <= i < |w| - 1
    requires forall k :: 0 <= k < i && w[k].Opr? ==> IsAdditive(w[k].op)
    ensures var r := Reduced(w, i, x);
            forall k :: 0 <= k < i && r[k].Opr? ==> IsAdditive(r[k].op)
  {
    var r := Reduced(w, i, x);
    forall k | 0 <= k < i && r[k].Opr?
      ensures IsAdditive(r[k].op)
    {
      ReducedAt(w, i, x, k);
    }
  }

  /** In an alternating stream, an operator at an odd position stands between two numbers. */
  lemma NextIsValue(w: seq<Cell>, i: nat)
    requires Alternating(w) && i % 2 == 1 && i + 1 < |w|
    ensures w[i - 1].Val? && w[i].Opr? && w[i + 1].Val?
  {
    assert (i - 1) % 2 == 0 && (i + 1) % 2 == 0;
  }

  /** One splice of pass 1 keeps the loop's invariants, or shows the expression fails. */
  lemma SpliceStep(w0: seq<Cell>, w: seq<Cell>, i: nat)
    requires Alternating(w0) && Alternating(w) && i % 2 == 1 && i + 1 < |w|
    requires w[i - 1].Val? && w[i + 1].Val?
    requires w[i] == Opr(Multiply) || w[i] == Opr(Divide)
    requires forall k :: 0 <= k < i && w[k].Opr? ==> IsAdditive(w[k].op)
    requires ExprValue(w) == ExprValue(w0)
    ensures var res := Apply(w[i - 1].v, w[i].op, w[i + 1].v);
            (res.Err? ==> ExprValue(w0).Err? && res.error == DivisionByZero) &&
            (res.Ok? ==> var r := Reduced(w, i, res.value);
                         Alternating(r) &&
                         (forall k :: 0 <= k < i && r[k].Opr? ==> IsAdditive(r[k].op)) &&
                         ExprValue(r) == ExprValue(w0))
  {
    var res := Apply(w[i - 1].v, w[i].op, w[i + 1].v);
    ApplyFails(w[i - 1].v, w[i].op, w[i + 1].v);
    ExprReduceAt(w, i);
    if res.Ok? {
      SpliceKeepsPrefix(w, i, res.value);
    }
  }

  /** Pass 1: scan left to right and splice every multiplication or division into its
      value, re-examining the same position after each splice. Afterwards only additive
      operators remain and the precedence value is unchanged; a zero divisor aborts. */
  method MultiplicativePass(w0: seq<Cell>) returns (r: Result<seq<Cell>>)
    requires Alternating(w0)
    ensures r.Ok? ==> Alternating(r.value)
    ensures r.Ok? ==> forall k :: 0 <= k < |r.value| && r.value[k].Opr? ==> IsAdditive(r.value[k].op)
    ensures r.Ok? ==> ExprValue(r.value) == ExprValue(w0)
    ensures r.Err? ==> ExprValue(w0).Err? && r.error == DivisionByZero
  {
    var w := w0;
    var i := 1;
    while i < |w|
      invariant Alternating(w)
      invariant i % 2 == 1 && i <= |w|
      invariant forall k :: 0 <= k < i && w[k].Opr? ==> IsAdditive(w[k].op)
      invariant ExprValue(w) == ExprValue(w0)
      decreases |w| - i
    {
      assert i + 2 <= |w| && (i + 2) % 2 == 1;
      NextIsValue(w, i);
      if w[i] == Opr(Multiply) || w[i] == Opr(Divide) {
        var res := Apply(w[i - 1].v, w[i].op, w[i + 1].v);
        SpliceStep(w0, w, i);
        if res.Err? {
          return Err(res.error);
        }
        w := Reduced(w, i, res.value);
      } else {
        NextIsValue(w, i);
        i := i + 2;
      }
    }
    return Ok(w);
  }

  /** Pass 2: the stream holds only additions and subtractions; reduce the first triple
      until one number is left. Every step happens at position 1 and none can fail. */
  method AdditivePass(w0: seq<Cell>) returns (v: real)
    requires Alternating(w0)
    requires forall k :: 0 <= k < |w0| && w0[k].Opr? ==> IsAdditive(w0[k].op)
    ensures ExprValue(w0) == Ok(v)
  {
    AdditiveExprIsFold(w0);
    var w := w0;
    var i := 1;
    while i < |w|
      invariant Alternating(w)
      invariant i == 1
      invariant forall k :: 0 <= k < |w| && w[k].Opr? ==> IsAdditive(w[k].op)
      invariant Fold(w) == Fold(w0)
      decreases |w|
    {
      if w[i] == Opr(Add) || w[i] == Opr(Subtract) {
        var res := Apply(w[i - 1].v, w[i].op, w[i + 1].v);
        FoldReduceFirst(w);
        w := Reduced(w, i, res.value);
      } else {
        i := i + 2;
      }
    }
    v := w[0].v;
  }

  /** evaluateExpression: 0 for no tokens, the parsed number for one token, otherwise the
      precedence value of the stream, with any error (a zero divisor) turned into 0. */
  method EvaluateExpression(tokens: seq<Token>, parse: string -> real) returns (r: real)
    requires tokens == [] || WellFormed(tokens)
    ensures tokens == [] ==> r == 0.0
    ensures |tokens| == 1 ==> r == parse(tokens[0].text)
    ensures tokens != [] ==> r == ValueOrZero(ExprValue(Parsed(tokens, parse)))
    ensures tokens != [] && HasZeroDivisor(Parsed(tokens, parse)) ==> r == 0.0
  {
    if |tokens| == 0 {
      return 0.0;
    }
    var w := Parsed(tokens, parse);
    ExprFailsIffZeroDivisor(w);
    if |tokens| == 1 {
      LastAdditiveIs(w, -1);
      return parse(tokens[0].text);
    }
    var pass1 := MultiplicativePass(w);
    if pass1.Err? {
      return 0.0;
    }
    r := AdditivePass(pass1.value);
  }
}
