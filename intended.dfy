/** Operator entry as the comments of handleOperationClick describe it: a second
    operator in a row replaces the pending one, but an operator after a freshly typed
    number appends that number and the operator. Whether a number was typed since the
    last operator is kept in a flag, because the pending tokens alone cannot tell. */
module Intended {
  import opened Expression
  import opened Entry

  /** The pending stream, the number being typed, and whether it was typed since the
      last operator. */
  datatype Pending = Pending(tokens: seq<Token>, current: string, operandTyped: bool)

  const Initial: Pending := Pending([], "0", false)

  /** A pending stream: nothing yet, or a finished stream followed by one operator. */
  predicate Open(ts: seq<Token>) {
    ts == [] || (|ts| >= 2 && WellFormed(ts[..|ts| - 1]) && ts[|ts| - 1].Operator?)
  }

  function PressDigit(p: Pending, d: Digit): (q: Pending)
    ensures q.tokens == p.tokens && q.current == TypeDigit(p.current, d) && q.operandTyped
  {
    p.(current := TypeDigit(p.current, d), operandTyped := true)
  }

  /** The corrected operator click: append `current op` after a typed number, replace
      the pending operator otherwise, and start a stream when nothing is pending. */
  function PressOperator(p: Pending, op: Op): (q: Pending)
    ensures Open(p.tokens) ==> Open(q.tokens)
    ensures q.tokens != [] && q.tokens[|q.tokens| - 1] == Operator(op)
    ensures q.current == "0" && !q.operandTyped
    ensures p.tokens != [] && p.operandTyped ==> q.tokens == p.tokens + [Number(p.current), Operator(op)]
    ensures p.tokens != [] && !p.operandTyped ==>
              |q.tokens| == |p.tokens| && q.tokens[..|p.tokens| - 1] == p.tokens[..|p.tokens| - 1]
  {
    if p.tokens == [] then
      Pending([Number(p.current), Operator(op)], "0", false)
    else if !p.operandTyped then
      Pending(p.tokens[|p.tokens| - 1 := Operator(op)], "0", false)
    else
      var ts := p.tokens + [Number(p.current), Operator(op)];
      assert ts[..|ts| - 1] == p.tokens + [Number(p.current)];
      Pending(ts, "0", false)
  }

  /** The stream that equals evaluates: the pending tokens and the number being typed. */
  function Finish(p: Pending): (ts: seq<Token>)
    requires Open(p.tokens) && p.tokens != []
    ensures WellFormed(ts)
  {
    var ts := p.tokens + [Number(p.current)];
    assert ts[..|ts| - 1] == p.tokens;
    ts
  }

  /** Several operator presses in a row act like the last one alone. */
  lemma OperatorPressesCollapse(p: Pending, o1: Op, o2: Op)
    ensures PressOperator(PressOperator(p, o1), o2) == PressOperator(p, o2)
  {
    var q := PressOperator(p, o1);
    if p.tokens != [] && p.operandTyped {
      var ts := p.tokens + [Number(p.current), Operator(o1)];
      assert ts[|ts| - 1 := Operator(o2)] == p.tokens + [Number(p.current), Operator(o2)];
    }
  }

  /** One term of the input: the digits of a number, then an operator. */
  datatype Term = Term(digits: seq<Digit>, op: Op)

  /** Typing several digits. */
  function PressDigits(p: Pending, ds: seq<Digit>): (q: Pending)
    ensures q.tokens == p.tokens
    decreases |ds|
  {
    if ds == [] then p else PressDigits(PressDigit(p, ds[0]), ds[1..])
  }

  lemma {:induction false} PressDigitsTypes(p: Pending, ds: seq<Digit>)
    ensures PressDigits(p, ds).current == TypeDigits(p.current, ds)
    ensures PressDigits(p, ds).operandTyped == (p.operandTyped || ds != [])
    decreases |ds|
  {
    if ds != [] {
      PressDigitsTypes(PressDigit(p, ds[0]), ds[1..]);
    }
  }

  /** The key presses of a list of terms, from the initial state. */
  function Feed(terms: seq<Term>): (p: Pending)
    ensures Open(p.tokens)
    decreases |terms|
  {
    if terms == [] then Initial
    else
      var t := terms[|terms| - 1];
      PressOperator(PressDigits(Feed(terms[..|terms| - 1]), t.digits), t.op)
  }

  /** The stream each term should contribute: its number as typed, then its operator. */
  function Interleave(terms: seq<Term>): seq<Token>
    decreases |terms|
  {
    if terms == [] then []
    else
      var t := terms[|terms| - 1];
      Interleave(terms[..|terms| - 1]) + [Number(TypeDigits("0", t.digits)), Operator(t.op)]
  }

  /** With the correction, every number typed before an operator stays in the stream. */
  lemma {:induction false} FeedBuildsStream(terms: seq<Term>)
    requires forall i :: 0 <= i < |terms| ==> terms[i].digits != []
    ensures Feed(terms).tokens == Interleave(terms)
    ensures Feed(terms).current == "0" && !Feed(terms).operandTyped
    decreases |terms|
  {
    if terms != [] {
      var init, t := terms[..|terms| - 1], terms[|terms| - 1];
      FeedBuildsStream(init);
      var p := Feed(init);
      PressDigitsTypes(p, t.digits);
    }
  }

  /** 2 + 3 × 4 = with the correction: the stream is 2 + 3 × 4 and its value is 14. */
  lemma KeptOperand(parse: string -> real)
    requires parse("2") == 2.0 && parse("3") == 3.0 && parse("4") == 4.0
    ensures Finish(PressDigit(Feed([Term([2], Add), Term([3], Multiply)]), 4)) ==
              [Number("2"), Operator(Add), Number("3"), Operator(Multiply), Number("4")]
    ensures ExprValue(Parsed(Finish(PressDigit(Feed([Term([2], Add), Term([3], Multiply)]), 4)), parse)) ==
              Ok(14.0)
  {
    var terms := [Term([2], Add), Term([3], Multiply)];
    FeedBuildsStream(terms);
    assert terms[..1] == [Term([2], Add)];
    assert [Term([2], Add)][..0] == [];
    assert TypeDigits("0", [2]) == "2";
    assert TypeDigits("0", [3]) == "3";
    var ts := Finish(PressDigit(Feed(terms), 4));
    assert ts == [Number("2"), Operator(Add), Number("3"), Operator(Multiply), Number("4")];
    assert Parsed(ts, parse) == [Val(2.0), Opr(Add), Val(3.0), Opr(Multiply), Val(4.0)];
    PrecedenceExamples();
  }
}
