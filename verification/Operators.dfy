/** Query operators on document properties (lib/mapping/q.js). */
module Operators {

  datatype Operator = In | Gt | Gte | Lt | Lte | NotEq

  /** The value of a property in a condition: a plain value, an operator on one value, or `q.and`. */
  datatype Operand = Value | Compare(op: Operator) | And(left: Operand, right: Operand)

  const AND_KEY := "AND"

  function OperatorKey(op: Operator): string {
    match op
    case In => "IN"
    case Gt => ">"
    case Gte => ">="
    case Lt => "<"
    case Lte => "<="
    case NotEq => "!="
  }

  predicate IsOperatorKey(s: string) {
    s == AND_KEY || exists op: Operator :: s == OperatorKey(op)
  }

  lemma OperatorKeysDiffer(a: Operator, b: Operator)
    requires a != b
    ensures OperatorKey(a) != OperatorKey(b)
  {
    var ka, kb := OperatorKey(a), OperatorKey(b);
    if |ka| == |kb| {
      assert ka[0] != kb[0];
    }
  }

  lemma OperatorKeyIsNotAnd(op: Operator)
    ensures OperatorKey(op) != AND_KEY
  {
    assert |AND_KEY| == 3 && |OperatorKey(op)| < 3;
  }

  /** What an operator asks of a column's value and the value given; `in` takes a list, of one value here. */
  predicate Asks(op: Operator, column: int, given: int) {
    match op
    case In => column == given
    case Gt => column > given
    case Gte => column >= given
    case Lt => column < given
    case Lte => column <= given
    case NotEq => column != given
  }

  /** What a comparison written in CQL means. */
  predicate Means(key: string, column: int, given: int) {
    if key == "<" then column < given
    else if key == "<=" then column <= given
    else if key == ">" then column > given
    else if key == ">=" then column >= given
    else if key == "!=" then column != given
    else key == "IN" && column == given
  }

  /** Every operator is written as the comparison it asks for. */
  lemma KeysMeanOperators(op: Operator, column: int, given: int)
    ensures Means(OperatorKey(op), column, given) <==> Asks(op, column, given)
  {
  }
}
