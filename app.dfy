/** The calculator screen of the front end: five pieces of state and the six handlers
    that the buttons and the keyboard drive. */
module App {
  import opened Expression
  import opened Entry

  /** What `String(number)` produces: never empty. */
  type NonEmptyString = s: string | s != [] witness "0"

  // ---------------------------------------------------------------------------
  // The expression line: split on spaces, replace the last part, join again
  // ---------------------------------------------------------------------------

  /** Position of the last space, or -1. */
  function LastSpace(s: string): (k: int)
    ensures -1 <= k < |s|
    ensures k >= 0 ==> s[k] == ' '
    ensures forall j :: k < j < |s| ==> s[j] != ' '
  {
    if s == [] then -1
    else if s[|s| - 1] == ' ' then |s| - 1
    else LastSpace(s[..|s| - 1])
  }

  /** `s.split(' ')`: the parts between spaces, empty ones included. */
  function Split(s: string): (parts: seq<string>)
    ensures |parts| >= 1
    ensures forall i :: 0 <= i < |parts| ==> ' ' !in parts[i]
    decreases |s|
  {
    var k := LastSpace(s);
    if k < 0 then [s] else Split(s[..k]) + [s[k + 1..]]
  }

  /** `parts.join(' ')`. */
  function Join(parts: seq<string>): string
    requires |parts| >= 1
  {
    if |parts| == 1 then parts[0] else Join(parts[..|parts| - 1]) + " " + parts[|parts| - 1]
  }

  /** A join starts with the first part and ends with the last, which follows a space
      when there are several parts. */
  lemma {:induction false} JoinEnds(parts: seq<string>)
    requires |parts| >= 1
    ensures parts[0] <= Join(parts)
    ensures var s, last := Join(parts), parts[|parts| - 1];
            |last| <= |s| && s[|s| - |last|..] == last
    ensures var s, last := Join(parts), parts[|parts| - 1];
            |parts| > 1 ==> |last| < |s| && s[|s| - |last| - 1] == ' '
    decreases |parts|
  {
    if |parts| > 1 {
      var init := parts[..|parts| - 1];
      JoinEnds(init);
      assert init[0] == parts[0];
    }
  }

  /** Joining the parts of a split gives back the string. */
  lemma {:induction false} JoinSplit(s: string)
    ensures Join(Split(s)) == s
    decreases |s|
  {
    var k := LastSpace(s);
    if k >= 0 {
      var p := Split(s[..k]);
      JoinSplit(s[..k]);
      assert (p + [s[k + 1..]])[..|p|] == p;
      assert s == s[..k] + " " + s[k + 1..];
    }
  }

  /** Splitting a join of space-free parts gives back the parts. */
  lemma {:induction false} SplitJoin(parts: seq<string>)
    requires |parts| >= 1
    requires forall i :: 0 <= i < |parts| ==> ' ' !in parts[i]
    ensures Split(Join(parts)) == parts
    decreases |parts|
  {
    if |parts| > 1 {
      var init, last := parts[..|parts| - 1], parts[|parts| - 1];
      SplitJoin(init);
      SplitAfterSpace(Join(init), last);
    }
  }

  /** A space followed by a space-free word splits off exactly that word. */
  lemma SplitAfterSpace(prefix: string, word: string)
    requires ' ' !in word
    ensures Split(prefix + " " + word) == Split(prefix) + [word]
  {
    var s := prefix + " " + word;
    forall j | |prefix| < j < |s|
      ensures s[j] != ' '
    {
      assert s[j] == word[j - |prefix| - 1];
    }
    LastSpaceIs(s, |prefix|);
    assert s[..|prefix|] == prefix;
    assert s[|prefix| + 1..] == word;
  }

  lemma LastSpaceIs(s: string, k: nat)
    requires k < |s| && s[k] == ' '
    requires forall j :: k < j < |s| ==> s[j] != ' '
    ensures LastSpace(s) == k
    decreases |s|
  {
    if k < |s| - 1 {
      LastSpaceIs(s[..|s| - 1], k);
    }
  }

  /** The update of the expression line when an operator replaces the pending one:
      split on spaces, overwrite the last part, join. */
  function ReplaceLastPart(s: string, w: string): string {
    var p := Split(s);
    Join(p[..|p| - 1] + [w])
  }

  /** Replacing the last part with a space-free word changes that part and no other. */
  lemma ReplaceLastPartSplits(s: string, w: string)
    requires ' ' !in w
    ensures Split(ReplaceLastPart(s, w)) == Split(s)[..|Split(s)| - 1] + [w]
  {
    var p := Split(s);
    var q := p[..|p| - 1] + [w];
    forall i | 0 <= i < |q|
      ensures ' ' !in q[i]
    {
      if i < |p| - 1 {
        assert q[i] == p[i];
      }
    }
    SplitJoin(q);
  }

  /** The updated line ends with the new word. */
  lemma ReplaceLastPartEndsWith(s: string, w: string)
    ensures var r := ReplaceLastPart(s, w);
            |w| <= |r| && r[|r| - |w|..] == w
  {
    var p := Split(s);
    var q := p[..|p| - 1] + [w];
    JoinEnds(q);
  }

  /** Overwriting the last part of `prefix word` keeps the prefix. */
  lemma ReplaceAfterLastSpace(prefix: string, old_word: string, w: string)
    requires ' ' !in old_word && ' ' !in w
    ensures ReplaceLastPart(prefix + " " + old_word, w) == prefix + " " + w
  {
    var p := Split(prefix);
    SplitAfterSpace(prefix, old_word);
    assert (p + [old_word])[..|p|] == p;
    JoinSplit(prefix);
    assert Join(p + [w]) == Join(p) + " " + w by {
      assert (p + [w])[..|p|] == p;
    }
  }

  // ---------------------------------------------------------------------------
  // The trace written by equals
  // ---------------------------------------------------------------------------

  /** What `fullExpression += token` appends for a token at an even index. */
  function TokenText(t: Token): string {
    match t
    case Number(s) => s
    case Operator(op) => Name(op)
  }

  /** `getOperatorSymbol(token)`, for a token at an odd index. */
  function TokenSymbol(t: Token): string {
    match t
    case Number(s) => OperatorSymbol(s)
    case Operator(op) => Symbol(op)
  }

  /** The piece of the trace contributed by the token at index i. */
  function TracePiece(ts: seq<Token>, i: nat): string
    requires i < |ts|
  {
    if i % 2 == 0 then TokenText(ts[i]) else " " + TokenSymbol(ts[i]) + " "
  }

  /** The trace of a stream: numbers as typed, each operator as ` symbol `. */
  function TraceOf(ts: seq<Token>): string
    decreases |ts|
  {
    if ts == [] then "" else TraceOf(ts[..|ts| - 1]) + TracePiece(ts, |ts| - 1)
  }

  /** An operator at an odd index adds ` symbol ` to the trace. */
  lemma TraceOfOperator(ts: seq<Token>, op: Op)
    requires |ts| % 2 == 1
    ensures TraceOf(ts + [Operator(op)]) == TraceOf(ts) + " " + Symbol(op) + " "
  {
    var u := ts + [Operator(op)];
    assert u[..|u| - 1] == ts;
    assert TracePiece(u, |ts|) == " " + Symbol(op) + " ";
    ConcatAssoc(TraceOf(ts), " " + Symbol(op), " ");
    ConcatAssoc(TraceOf(ts), " ", Symbol(op));
  }

  /** A number at an even index adds its text to the trace. */
  lemma TraceOfNumber(ts: seq<Token>, n: string)
    requires |ts| % 2 == 0
    ensures TraceOf(ts + [Number(n)]) == TraceOf(ts) + n
  {
    var v := ts + [Number(n)];
    assert v[..|v| - 1] == ts;
    assert TracePiece(v, |ts|) == n;
  }

  /** Extending a stream by one operation extends its trace by ` symbol number`. */
  lemma TraceOfSnoc(ts: seq<Token>, op: Op, n: string)
    requires |ts| % 2 == 1
    ensures TraceOf(ts + [Operator(op), Number(n)]) == TraceOf(ts) + " " + Symbol(op) + " " + n
  {
    var u := ts + [Operator(op)];
    assert ts + [Operator(op), Number(n)] == u + [Number(n)];
    TraceOfOperator(ts, op);
    NextIsEven(|ts|);
    TraceOfNumber(u, n);
  }

  lemma NextIsEven(x: int)
    requires x % 2 == 1
    ensures (x + 1) % 2 == 0
  {
  }

  /** The trace of a three-token stream. */
  lemma TraceOfTriple(a: string, op: Op, b: string)
    ensures TraceOf([Number(a), Operator(op), Number(b)]) == a + " " + Symbol(op) + " " + b
  {
    TraceOfSnoc([Number(a)], op, b);
    assert [Number(a)] + [Operator(op), Number(b)] == [Number(a), Operator(op), Number(b)];
    assert [Number(a)][..0] == [];
    assert TraceOf([Number(a)]) == "" + a == a;
  }

  /** The trace of a prefix one token longer. */
  lemma TraceOfPrefix(ts: seq<Token>, i: nat)
    requires i < |ts|
    ensures TraceOf(ts[..i + 1]) == TraceOf(ts[..i]) + TracePiece(ts, i)
  {
    var u := ts[..i + 1];
    assert u[..i] == ts[..i];
    assert u[i] == ts[i];
  }

  /** The loop of handleEquals that writes the trace, one token at a time. */
  method BuildTrace(ts: seq<Token>) returns (s: string)
    ensures s == TraceOf(ts)
  {
    s := "";
    var i := 0;
    while i < |ts|
      invariant 0 <= i <= |ts|
      invariant s == TraceOf(ts[..i])
    {
      TraceOfPrefix(ts, i);
      if i % 2 == 0 {
        s := s + TokenText(ts[i]);
      } else {
        s := s + " " + TokenSymbol(ts[i]) + " ";
      }
      i := i + 1;
    }
    assert ts[..i] == ts;
  }

  // ---------------------------------------------------------------------------
  // Keys
  // ---------------------------------------------------------------------------

  /** The six handlers, as the keyboard reaches them. */
  datatype Command =
    | DigitKey(d: Digit)
    | OperatorKey(op: Op)
    | DecimalKey
    | EqualsKey
    | ClearKey
    | BackspaceKey

  /** The keydown listener's choice of handler for a key name; other keys do nothing. */
  function KeyCommand(key: string): (c: Option<Command>)
    ensures c == Some(EqualsKey) <==> key == "Enter" || key == "="
    ensures c == Some(ClearKey) <==> key == "Escape" || key == "c" || key == "C"
    ensures (exists d: Digit :: c == Some(DigitKey(d))) <==> |key| == 1 && IsDigitChar(key[0])
  {
    if |key| == 1 && IsDigitChar(key[0]) then Some(DigitKey(key[0] as int - '0' as int))
    else if key == "." then Some(DecimalKey)
    else if key == "+" then Some(OperatorKey(Add))
    else if key == "-" then Some(OperatorKey(Subtract))
    else if key == "*" then Some(OperatorKey(Multiply))
    else if key == "/" then Some(OperatorKey(Divide))
    else if key == "Enter" || key == "=" then Some(EqualsKey)
    else if key == "Escape" || key == "c" || key == "C" then Some(ClearKey)
    else if key == "Backspace" then Some(BackspaceKey)
    else None
  }

  /** A key that reaches a command. */
  function KeyOf(c: Command): string {
    match c
    case DigitKey(d) => [DigitChar(d)]
    case OperatorKey(op) =>
      (match op
       case Add => "+"
       case Subtract => "-"
       case Multiply => "*"
       case Divide => "/")
    case DecimalKey => "."
    case EqualsKey => "="
    case ClearKey => "Escape"
    case BackspaceKey => "Backspace"
  }

  /** Every handler has a key. */
  lemma KeyReachesCommand(c: Command)
    ensures KeyCommand(KeyOf(c)) == Some(c)
  {
    match c
    case DigitKey(d) =>
      assert KeyOf(c)[0] == DigitChar(d);
    case OperatorKey(op) =>
    case DecimalKey =>
    case EqualsKey =>
    case ClearKey =>
    case BackspaceKey =>
  }

  // ---------------------------------------------------------------------------
  // The calculator
  // ---------------------------------------------------------------------------

  class Calculator {
    /** `parseFloat` on a number as typed or as formatted. */
    const parse: string -> real
    /** `String(result)`. */
    const format: real -> NonEmptyString

    var display: string
    var expression: string
    var tokens: seq<Token>
    var currentNumber: string
    var lastResult: Option<real>

    /** What every handler keeps: the number being typed is never empty; the pending
        tokens are nothing or one number and one operator, shown as `number symbol`;
        right after a result the screen and the number being typed both show it;
        otherwise the number being typed is a decimal literal, shown on screen while
        no operator is pending. */
    ghost predicate Valid()
      reads this
    {
      currentNumber != [] &&
      (tokens == [] ||
        (|tokens| == 2 && tokens[0].Number? && tokens[1].Operator? &&
         expression == tokens[0].text + " " + Symbol(tokens[1].op))) &&
      (lastResult.Some? ==>
        tokens == [] && display == currentNumber == format(lastResult.value)) &&
      (lastResult.None? ==> IsLiteral(currentNumber)) &&
      (tokens == [] && lastResult.None? ==> expression == "" && display == currentNumber)
    }

    constructor (parse: string -> real, format: real -> NonEmptyString)
      ensures Valid()
      ensures this.parse == parse && this.format == format
      ensures display == "0" && expression == "" && tokens == [] && currentNumber == "0"
      ensures lastResult == None
    {
      this.parse := parse;
      this.format := format;
      display := "0";
      expression := "";
      tokens := [];
      currentNumber := "0";
      lastResult := None;
    }

    /** handleNumberClick: after a result a digit starts afresh; otherwise it is typed
        into the current number. */
    method NumberClick(d: Digit)
      requires Valid()
      modifies this
      ensures Valid()
      ensures old(lastResult).Some? ==>
                currentNumber == [DigitChar(d)] && display == currentNumber &&
                tokens == [] && expression == "" && lastResult == None
      ensures old(lastResult).None? ==>
                currentNumber == TypeDigit(old(currentNumber), d) && display == currentNumber &&
                tokens == old(tokens) && expression == old(expression) && lastResult == None
    {
      if lastResult.Some? {
        currentNumber := [DigitChar(d)];
        display := [DigitChar(d)];
        tokens := [];
        expression := "";
        lastResult := None;
        return;
      }
      var newNumber := if currentNumber == "0" then [DigitChar(d)] else currentNumber + [DigitChar(d)];
      currentNumber := newNumber;
      display := newNumber;
    }

    /** handleOperationClick: the pending stream becomes one number and the clicked
        operator. After a result that number is the result; with nothing pending it is
        the current number; with an operator pending, that operator is replaced and the
        current number is dropped (the append branch cannot be reached). */
    method OperationClick(op: Op)
      requires Valid()
      modifies this
      ensures Valid()
      ensures currentNumber == "0" && lastResult == None
      ensures |tokens| == 2 && tokens[1] == Operator(op)
      ensures tokens[0] == Number(
                if old(lastResult).Some? then format(old(lastResult).value)
                else if old(tokens) == [] then old(currentNumber)
                else old(tokens)[0].text)
      ensures old(lastResult).None? && old(tokens) != [] ==> tokens == old(tokens)[|old(tokens)| - 1 := Operator(op)]
      ensures display == if old(lastResult).Some? then format(old(lastResult).value) else old(display)
    {
      if lastResult.Some? {
        var result := format(lastResult.value);
        // the write of `[result]` to tokens is overridden by the second write below
        tokens := [Number(result)];
        expression := result + " " + Symbol(op);
        currentNumber := "0";
        display := result;
        lastResult := None;
        tokens := [Number(result), Operator(op)];
        return;
      }
      var num := currentNumber;
      if tokens == [] {
        tokens := [Number(num), Operator(op)];
        expression := num + " " + Symbol(op);
      } else if tokens[|tokens| - 1].Operator? {
        assert ' ' !in Symbol(tokens[1].op) && ' ' !in Symbol(op);
        ReplaceAfterLastSpace(tokens[0].text, Symbol(tokens[1].op), Symbol(op));
        tokens := tokens[|tokens| - 1 := Operator(op)];
        expression := ReplaceLastPart(expression, Symbol(op));
      } else {
        // appending `num op`: every non-empty pending stream ends in an operator
        assert false;
      }
      currentNumber := "0";
    }

    /** handleDecimalClick: after a result it starts "0."; otherwise it adds a point
        unless the number already has one. */
    method DecimalClick()
      requires Valid()
      modifies this
      ensures Valid()
      ensures old(lastResult).Some? ==>
                currentNumber == "0." && display == "0." && tokens == [] && expression == "" &&
                lastResult == None
      ensures old(lastResult).None? ==>
                currentNumber == TypeDecimal(old(currentNumber)) &&
                display == (if '.' in old(currentNumber) then old(display) else currentNumber) &&
                tokens == old(tokens) && expression == old(expression) && lastResult == None
    {
      if lastResult.Some? {
        currentNumber := "0.";
        display := "0.";
        tokens := [];
        expression := "";
        lastResult := None;
        return;
      }
      if '.' !in currentNumber {
        currentNumber := currentNumber + ".";
        display := currentNumber;
      }
    }

    /** handleEquals: with nothing pending nothing happens. Otherwise the current
        number completes the stream `number operator number`, which is evaluated with
        any error turned into 0; the result is committed and the trace written. */
    method Equals()
      requires Valid()
      modifies this
      ensures Valid()
      ensures old(tokens) == [] ==>
                display == old(display) && expression == old(expression) && tokens == [] &&
                currentNumber == old(currentNumber) && lastResult == old(lastResult)
      ensures old(tokens) != [] ==>
                var n, op, m := old(tokens)[0].text, old(tokens)[1].op, old(currentNumber);
                var v := ValueOrZero(ExprValue(Parsed(old(tokens) + [Number(m)], parse)));
                v == ValueOrZero(Apply(parse(n), op, parse(m))) &&
                lastResult == Some(v) && tokens == [] &&
                display == format(v) && currentNumber == format(v) &&
                expression == n + " " + Symbol(op) + " " + m + " = " + format(v)
      ensures old(tokens) != [] && old(tokens)[1].op == Divide && parse(old(currentNumber)) == 0.0 ==>
                lastResult == Some(0.0)
    {
      if tokens == [] {
        return;
      }
      var lastToken := tokens[|tokens| - 1];
      var finalTokens := tokens;
      if lastToken.Operator? {
        finalTokens := tokens + [Number(currentNumber)];
      } else {
        // a lone number, or a stream ending in a number: never pending here
        assert false;
      }
      var n, op, m := tokens[0].text, tokens[1].op, currentNumber;
      assert finalTokens == [Number(n), Operator(op), Number(m)];
      var result := EvaluateExpression(finalTokens, parse);
      var fullExpression := BuildTrace(finalTokens);
      TraceOfTriple(n, op, m);
      var cells := Parsed(finalTokens, parse);
      assert cells == [Val(parse(n)), Opr(op), Val(parse(m))];
      TripleValue(parse(n), op, parse(m));
      ApplyFails(parse(n), op, parse(m));
      fullExpression := fullExpression + " = " + format(result);
      display := format(result);
      expression := fullExpression;
      tokens := [];
      currentNumber := format(result);
      lastResult := Some(result);
    }

    /** handleClear: back to the initial state. */
    method Clear()
      requires Valid()
      modifies this
      ensures Valid()
      ensures display == "0" && expression == "" && tokens == [] && currentNumber == "0"
      ensures lastResult == None
    {
      display := "0";
      currentNumber := "0";
      tokens := [];
      expression := "";
      lastResult := None;
    }

    /** handleBackspace: after a result it clears; otherwise it erases the last
        character of the number, leaving "0" rather than nothing. */
    method Backspace()
      requires Valid()
      modifies this
      ensures Valid()
      ensures old(lastResult).Some? ==>
                display == "0" && expression == "" && tokens == [] && currentNumber == "0" &&
                lastResult == None
      ensures old(lastResult).None? ==>
                currentNumber == EraseLast(old(currentNumber)) &&
                display == (if old(currentNumber) == "0" then old(display) else currentNumber) &&
                tokens == old(tokens) && expression == old(expression) && lastResult == None
    {
      if lastResult.Some? {
        Clear();
        return;
      }
      if |currentNumber| > 1 {
        var newNumber := currentNumber[..|currentNumber| - 1];
        currentNumber := newNumber;
        display := newNumber;
      } else if currentNumber != "0" {
        currentNumber := "0";
        display := "0";
      }
    }

    /** The keydown listener: run the handler the key names, if any. */
    method HandleKey(key: string)
      requires Valid()
      modifies this
      ensures Valid()
      ensures KeyCommand(key) == None ==> unchanged(this)
      ensures KeyCommand(key) == Some(ClearKey) ==>
                display == "0" && expression == "" && tokens == [] && currentNumber == "0" &&
                lastResult == None
    {
      match KeyCommand(key)
      case None =>
      case Some(c) =>
        match c
        case DigitKey(d) => NumberClick(d);
        case OperatorKey(op) => OperationClick(op);
        case DecimalKey => DecimalClick();
        case EqualsKey => Equals();
        case ClearKey => Clear();
        case BackspaceKey => Backspace();
    }
  }

  // ---------------------------------------------------------------------------
  // Key sequences
  // ---------------------------------------------------------------------------

  /** 2 + 3 × 4 = : the second operator replaces the first, the 3 typed between them
      is dropped, and the calculator shows 2 × 4. */
  method LostOperand(parse: string -> real, format: real -> NonEmptyString)
    returns (result: Option<real>, trace: string)
    requires parse("2") == 2.0 && parse("4") == 4.0
    ensures result == Some(8.0)
    ensures trace == "2" + " " + Symbol(Multiply) + " " + "4" + " = " + format(8.0)
  {
    var c := new Calculator(parse, format);
    c.NumberClick(2);
    c.OperationClick(Add);
    c.NumberClick(3);
    c.OperationClick(Multiply);
    c.NumberClick(4);
    assert c.tokens == [Number("2"), Operator(Multiply)] && c.currentNumber == "4";
    c.Equals();
    result, trace := c.lastResult, c.expression;
  }

  /** 5 + × 2 = : a second operator in a row replaces the first. */
  method ReplacedOperator(parse: string -> real, format: real -> NonEmptyString)
    returns (result: Option<real>)
    requires parse("5") == 5.0 && parse("2") == 2.0
    ensures result == Some(10.0)
  {
    var c := new Calculator(parse, format);
    c.NumberClick(5);
    c.OperationClick(Add);
    c.OperationClick(Multiply);
    c.NumberClick(2);
    assert c.tokens == [Number("5"), Operator(Multiply)] && c.currentNumber == "2";
    c.Equals();
    result := c.lastResult;
  }

  /** 5 + 3 = + 2 = : an operator after a result continues from it. The result is
      carried as the text `String` made of it and read back with `parseFloat`, so the
      chain gives 10 when that text reads back as 8. */
  method ChainedResult(parse: string -> real, format: real -> NonEmptyString)
    returns (result: Option<real>)
    requires parse("5") == 5.0 && parse("3") == 3.0 && parse("2") == 2.0
    requires parse(format(8.0)) == 8.0
    ensures result == Some(10.0)
  {
    var c := new Calculator(parse, format);
    c.NumberClick(5);
    c.OperationClick(Add);
    c.NumberClick(3);
    assert c.tokens == [Number("5"), Operator(Add)] && c.currentNumber == "3";
    c.Equals();
    assert c.lastResult == Some(8.0);
    c.OperationClick(Add);
    assert c.tokens == [Number(format(8.0)), Operator(Add)];
    c.NumberClick(2);
    assert c.tokens == [Number(format(8.0)), Operator(Add)] && c.currentNumber == "2";
    c.Equals();
    result := c.lastResult;
  }

  /** 6 ÷ 0 = : the failed division is committed as the result 0. */
  method DivisionByZeroGivesZero(parse: string -> real, format: real -> NonEmptyString)
    returns (result: Option<real>, shown: string)
    requires parse("0") == 0.0
    ensures result == Some(0.0)
    ensures shown == format(0.0)
  {
    var c := new Calculator(parse, format);
    c.NumberClick(6);
    c.OperationClick(Divide);
    c.NumberClick(0);
    assert c.tokens == [Number("6"), Operator(Divide)] && c.currentNumber == "0";
    c.Equals();
    result, shown := c.lastResult, c.display;
  }
}
