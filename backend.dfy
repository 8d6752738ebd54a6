/** The arithmetic module of the back end: four functions on numbers, and a division
    that refuses a zero divisor with an error. */
module Backend {

  /** A call either returns a number or raises `ValueError` with a message. */
  datatype Outcome = Returned(value: real) | Raised(message: string)

  const DivideByZeroMessage: string := "Cannot divide by zero"

  /** add: the number from which taking away either operand leaves the other. */
  function Add(a: real, b: real): (r: real)
    ensures r - b == a && r - a == b
  {
    a + b
  }

  /** subtract: the number that, with b added back, gives a. */
  function Subtract(a: real, b: real): (r: real)
    ensures r + b == a
  {
    a - b
  }

  /** multiply: dividing by either non-zero operand gives back the other; a zero
      operand gives zero. */
  function Multiply(a: real, b: real): (r: real)
    ensures b != 0.0 ==> r / b == a
    ensures a != 0.0 ==> r / a == b
    ensures r == 0.0 <==> a == 0.0 || b == 0.0
  {
    a * b
  }

  /** divide: raises on a zero divisor, otherwise returns the quotient. */
  function Divide(a: real, b: real): (r: Outcome)
    ensures r.Raised? <==> b == 0.0
    ensures r.Raised? ==> r.message == DivideByZeroMessage
    ensures r.Returned? ==> r.value * b == a
  {
    if b == 0.0 then Raised(DivideByZeroMessage) else Returned(a / b)
  }

  /** Subtraction undoes addition, and addition undoes subtraction. */
  lemma SubtractUndoesAdd(a: real, b: real)
    ensures Subtract(Add(a, b), b) == a
    ensures Add(Subtract(a, b), b) == a
  {
  }

  /** Division by a non-zero number undoes multiplication by it, and the other way round. */
  lemma DivideUndoesMultiply(a: real, b: real)
    requires b != 0.0
    ensures Divide(Multiply(a, b), b) == Returned(a)
    ensures Multiply(Divide(a, b).value, b) == a
  {
  }

  /** The quotient is the unique number that gives back the dividend. */
  lemma QuotientIsUnique(a: real, b: real, q: real)
    requires b != 0.0 && q * b == a
    ensures Divide(a, b) == Returned(q)
  {
    var r := Divide(a, b);
    assert r.value * b == q * b;
    assert (r.value - q) * b == 0.0;
  }

  /** Zero is neutral for addition and absorbing for multiplication, and a zero
      dividend gives a zero quotient. */
  lemma ZeroLaws(a: real)
    ensures Add(a, 0.0) == a && Add(0.0, a) == a
    ensures Subtract(a, 0.0) == a && Subtract(0.0, a) == -a
    ensures Multiply(a, 0.0) == 0.0 && Multiply(0.0, a) == 0.0
    ensures a != 0.0 ==> Divide(0.0, a) == Returned(0.0)
  {
  }

  /** The addition cases of the unit tests; those the tests compare only approximately
      hold exactly on real numbers. */
  lemma AssertedSums()
    ensures Add(2.0, 3.0) == 5.0 && Add(10.0, 20.0) == 30.0 && Add(-5.0, -3.0) == -8.0
    ensures Add(-10.0, 5.0) == -5.0 && Add(0.0, 5.0) == 5.0 && Add(5.0, 0.0) == 5.0
    ensures Add(2.5, 3.7) == 6.2 && Add(0.1, 0.2) == 0.3 && Add(1.0, 1.0) == 2.0
  {
  }

  /** The subtraction cases of the unit tests. */
  lemma AssertedDifferences()
    ensures Subtract(10.0, 3.0) == 7.0 && Subtract(20.0, 5.0) == 15.0
    ensures Subtract(-5.0, -3.0) == -2.0 && Subtract(10.0, -5.0) == 15.0
    ensures Subtract(5.0, 0.0) == 5.0 && Subtract(0.0, 5.0) == -5.0
    ensures Subtract(5.5, 2.3) == 3.2 && Subtract(5.0, 3.0) == 2.0
  {
  }

  /** The multiplication cases of the unit tests. */
  lemma AssertedProducts()
    ensures Multiply(3.0, 4.0) == 12.0 && Multiply(5.0, 6.0) == 30.0
    ensures Multiply(-3.0, 4.0) == -12.0 && Multiply(-3.0, -4.0) == 12.0
    ensures Multiply(5.0, 0.0) == 0.0 && Multiply(0.0, 5.0) == 0.0
    ensures Multiply(2.5, 4.0) == 10.0 && Multiply(0.5, 0.5) == 0.25 && Multiply(3.0, 3.0) == 9.0
  {
  }

  /** The division cases of the unit tests, the refused zero divisor included; 1 / 3
      agrees with 0.333333 to five places, as the approximate test demands. */
  lemma AssertedQuotients()
    ensures Divide(10.0, 2.0) == Returned(5.0) && Divide(15.0, 3.0) == Returned(5.0)
    ensures Divide(-10.0, 2.0) == Returned(-5.0) && Divide(-10.0, -2.0) == Returned(5.0)
    ensures Divide(7.5, 2.5) == Returned(3.0) && Divide(0.0, 5.0) == Returned(0.0)
    ensures Divide(1.0, 3.0).Returned? && -0.000005 < Divide(1.0, 3.0).value - 0.333333 < 0.000005
    ensures Divide(10.0, 0.0) == Raised("Cannot divide by zero")
    ensures Divide(5.0, 0.0) == Raised("Cannot divide by zero")
  {
    QuotientIsUnique(10.0, 2.0, 5.0);
    QuotientIsUnique(15.0, 3.0, 5.0);
    QuotientIsUnique(-10.0, 2.0, -5.0);
    QuotientIsUnique(-10.0, -2.0, 5.0);
    QuotientIsUnique(7.5, 2.5, 3.0);
    QuotientIsUnique(1.0, 3.0, 1.0 / 3.0);
  }
}
