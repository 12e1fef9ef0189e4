/**
 * The expression tree: the five node classes of the analyser as one closed datatype.
 * Operators and function names are kept as the strings the parser stores in the nodes.
 */
module Ast {

  datatype Expr =
    | Number(value: int)
    | Variable(name: string)
    | BinOp(left: Expr, op: string, right: Expr)
    | UnaryOp(op: string, operand: Expr)
    | FunctionCall(funcName: string, arg: Expr)

  /**
   * Node equality as the classes' `__eq__` methods define it: the other node must be of the
   * same class, and then the fields are compared one by one, children recursively.
   */
  function NodeEq(a: Expr, b: Expr): (r: bool)
    ensures a == b ==> r
    ensures r ==> a.Number? == b.Number? && a.Variable? == b.Variable? && a.BinOp? == b.BinOp?
    ensures r ==> a.UnaryOp? == b.UnaryOp? && a.FunctionCall? == b.FunctionCall?
  {
    match a
    case Number(v) => b.Number? && v == b.value
    case Variable(n) => b.Variable? && n == b.name
    case BinOp(l, op, r) => b.BinOp? && NodeEq(l, b.left) && op == b.op && NodeEq(r, b.right)
    case UnaryOp(op, x) => b.UnaryOp? && op == b.op && NodeEq(x, b.operand)
    case FunctionCall(f, x) => b.FunctionCall? && f == b.funcName && NodeEq(x, b.arg)
  }

  /** The field-wise equality is exactly equality of trees. */
  lemma {:induction false} NodeEqIsIdentity(a: Expr, b: Expr)
    ensures NodeEq(a, b) <==> a == b
  {
    match a
    case Number(_) =>
    case Variable(_) =>
    case BinOp(l, _, r) =>
      if b.BinOp? {
        NodeEqIsIdentity(l, b.left);
        NodeEqIsIdentity(r, b.right);
      }
    case UnaryOp(_, x) =>
      if b.UnaryOp? {
        NodeEqIsIdentity(x, b.operand);
      }
    case FunctionCall(_, x) =>
      if b.FunctionCall? {
        NodeEqIsIdentity(x, b.arg);
      }
  }

  /** Node equality is reflexive and symmetric over all trees. */
  lemma NodeEqReflexiveSymmetric(a: Expr, b: Expr)
    ensures NodeEq(a, a)
    ensures NodeEq(a, b) <==> NodeEq(b, a)
  {
    NodeEqIsIdentity(a, a);
    NodeEqIsIdentity(a, b);
    NodeEqIsIdentity(b, a);
  }

  /** Equality of binary nodes does not know about commutativity: swapping the operands changes the node. */
  lemma BinOpEqNotCommutative(x: Expr, op: string, y: Expr)
    ensures NodeEq(BinOp(x, op, y), BinOp(y, op, x)) <==> x == y
  {
    NodeEqIsIdentity(BinOp(x, op, y), BinOp(y, op, x));
  }
}
