/** The abstract syntax tree (cero/syntax/ast.hh). `offset` is the offset of the token a node begins with. */
module Ast {
  import opened Tokens

  datatype LiteralKind = DecInt | HexInt | BinInt | OctInt | Float | Char | String

  datatype UnaryOperator =
    | PreIncrement | PreDecrement | PostIncrement | PostDecrement
    | Negate | BitNot | LogicNot | AddrOf | Deref

  datatype BinaryOperator =
    | Add | Sub | Mul | Div | Rem
    | BitAnd | BitOr | BitXor | Shl | Shr
    | LogicAnd | LogicOr
    | Equal | NotEqual | Less | LessEq | Greater | GreaterEq
    | Assign | AddAssign | SubAssign | MulAssign | DivAssign | RemAssign
    | BitAndAssign | BitOrAssign | XorAssign | ShlAssign | ShrAssign
    | LogicAndAssign | LogicOrAssign

  datatype Expr =
    | Ident(offset: Offset, length: nat)
    | Literal(offset: Offset, kind: LiteralKind, length: nat)
    | Block(offset: Offset, statements: seq<Expr>)
    | Return(offset: Offset, values: seq<Expr>)
    | Unary(offset: Offset, unaryOp: UnaryOperator, operand: Expr)
    | Binary(offset: Offset, op: BinaryOperator, left: Expr, right: Expr)
    | Call(offset: Offset, callee: Expr, args: seq<Expr>)

  datatype Name = Name(offset: Offset, length: nat)

  datatype AccessModifier = NoModifier | Private | Public

  datatype Parameter = Parameter(offset: Offset, typ: Expr, name: Name)

  datatype Output = Output(offset: Offset, typ: Expr)

  datatype Definition = Function(
    offset: Offset,
    access: AccessModifier,
    name: Name,
    parameters: seq<Parameter>,
    outputs: seq<Output>,
    statements: seq<Expr>)
}
