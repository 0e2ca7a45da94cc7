/**
  Core of the typed intermediate representation the generic pass works on.

  A type former and its arguments are one constructor, `App`, with the former in
  `head`: `list[T]` is `App(List, [T])` and `func(A, B) -> R` is `App(Func, [A, B, R])`.
  Every recursive function of the pass treats all the formers it looks into alike,
  visiting the arguments from left to right, so this loses no distinction the pass makes.
*/
module Hir {
  import opened Wrappers

  datatype Head =
    | Optional | List | Set | Range | Lazy | Future | TaskJob | Channel
    | Result | Map | Opaque(kind: string) | Tuple | Func | Named(def: nat)
    | Buffer | Slice | Array | Simd(lanes: nat) | Handle

  datatype Ty =
    | Scalar(name: string)
    | Error
    | Infer(id: nat)
    | ConstInt(name: string, value: int)
    | Any(def: nat)
    | Param(index: nat, name: string)
    | App(head: Head, args: seq<Ty>)

  /** The formers the pass descends into; it treats the others as leaves. */
  predicate Traversed(h: Head) {
    !(h.Buffer? || h.Slice? || h.Array? || h.Simd? || h.Handle?)
  }

  datatype BinOp = Add | Sub | Mul | Less | Equal

  datatype Expr = Expr(kind: Kind, ty: Ty)

  datatype Kind =
    | BoolLit(b: bool)
    | IntLit(n: int)
    | Unit
    | Var(name: string)
    | Binary(op: BinOp, lhs: Expr, rhs: Expr)
    | Call(callee: Expr, args: seq<Arg>)
    | AssociatedCall(receiverTy: Ty, member: string, operands: seq<Expr>)
    | ListLit(elemTy: Ty, elements: seq<Expr>)
    | IfExpr(cond: Expr, thn: Expr, els: Expr)

  datatype Arg = Arg(tag: Option<string>, spread: bool, value: Expr)

  datatype Stmt =
    | Let(name: string, ty: Ty, value: Expr)
    | Assign(name: string, value: Expr)
    | Return(result: Option<Expr>)
    | Eval(value: Expr)
    | If(cond: Expr, thn: seq<Stmt>, els: seq<Stmt>)
    | While(cond: Expr, body: seq<Stmt>)

  datatype ParamDecl = ParamDecl(name: string, ty: Ty, variadic: bool)

  datatype Func = Func(name: string, params: seq<ParamDecl>, returnTy: Ty, body: seq<Stmt>)

  datatype Const = Const(name: string, ty: Ty, value: Expr)

  /** `impls` resolves a method on a concrete receiver type to the function that implements it. */
  datatype Module = Module(funcs: seq<Func>, consts: seq<Const>, impls: map<(Ty, string), string>)
}
