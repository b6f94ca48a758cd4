/**
 Operations, as the parser leaves them and every later pass rewrites them: a flat sequence
 whose control operations carry an absolute jump target.
 */
module Operations {
  import opened Words

  datatype Type = Int | Bool | Pointer | Any | Variable(id: nat)

  datatype Symbol = StringSymbol(id: nat) | FunctionSymbol(id: nat) | ArraySymbol(id: nat)

  /** Words that only rearrange the data stack. */
  datatype ShuffleOp =
    | Drop | Dup | Over | Rot | Swap | Tuck | TwoDup | TwoDrop | TwoOver | TwoSwap

  datatype Intrinsic =
    | Binary(op: BinaryOp)
    | Shuffle(shuffle: ShuffleOp)
    | DivMod
    | BooleanNegate
    | Load(size: nat)
    | Store(size: nat)
    | Top
    | Call
    | Argc
    | Argv
    | Random32
    | Random64
    | Syscall(count: nat)

  /** Operations that carry no jump target of their own. */
  datatype Plain =
    | PushInt(value: Word, ty: Type)
    | PushSymbol(symbol: Symbol)
    | CallSymbol(id: nat)
    | Cast(target: Type)
    | Intrinsic(intrinsic: Intrinsic)
    | Return

  datatype Kind = Plain(plain: Plain) | If | Else | While | Do | End

  /** `NoJump` is the source's `Empty_Jump`. */
  datatype Jump = NoJump | To(target: nat)

  datatype Operation = Operation(kind: Kind, jump: Jump)

  predicate IsPushInt(op: Operation) {
    op.kind.Plain? && op.kind.plain.PushInt?
  }
}
