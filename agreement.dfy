/** The front end computes each operation itself; the back end offers the same four.
    They agree on every input: the same value, and an error exactly when the other
    raises one. */
module Agreement {
  import Expression
  import Backend

  /** The back-end function that stands for a front-end operator. */
  function BackendCall(op: Expression.Op, a: real, b: real): Backend.Outcome {
    match op
    case Add => Backend.Returned(Backend.Add(a, b))
    case Subtract => Backend.Returned(Backend.Subtract(a, b))
    case Multiply => Backend.Returned(Backend.Multiply(a, b))
    case Divide => Backend.Divide(a, b)
  }

  /** performOperation and the back end return the same number, and one fails exactly
      when the other does, for division by zero. */
  lemma FrontAgreesWithBack(a: real, b: real, op: Expression.Op)
    ensures Expression.PerformOperation(a, b, Expression.Name(op)).Ok? <==> BackendCall(op, a, b).Returned?
    ensures Expression.PerformOperation(a, b, Expression.Name(op)).Ok? ==>
              Expression.PerformOperation(a, b, Expression.Name(op)).value == BackendCall(op, a, b).value
    ensures BackendCall(op, a, b).Raised? ==>
              op == Expression.Divide && b == 0.0 &&
              Expression.PerformOperation(a, b, Expression.Name(op)) == Expression.Err(Expression.DivisionByZero)
  {
    Expression.ApplyIsPerformOperation(a, op, b);
    match op
    case Add =>
    case Subtract =>
    case Multiply =>
    case Divide =>
  }
}
