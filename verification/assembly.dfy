/**
 The emitted x86-64 lines and the processor that runs them. Registers, flags and the data stack are
 explicit; return addresses live in `_stacky_callstack`, so that rsp can be the data stack.
 */
module Assembly {
  import opened Words
  import opened Operations
  import opened Machine

  datatype Reg = RAX | RBX | RCX | RDX | RDI | RSI | R10 | R8 | R9

  datatype Alu = AddTo | AndTo | OrTo | XorTo | SubFrom | ImulTo

  datatype Cond = IfE | IfNE | IfA | IfNB | IfB | IfBE

  /** One line of a function's listing. Labels and comments take a line and do nothing. */
  datatype Line =
    | Comment
    | Label(at: nat)
    | MovImm(value: Word)
    | Mov(dst: Reg, src: Reg)
    | Push(reg: Reg)
    | Pop(reg: Reg)
    | PushAddress(symbol: Symbol)
    | PushStack(depth: nat)
    | PushRsp
    | AddRsp(words: nat)
    | LoadStack(dst: Reg, depth: nat)
    | StoreStack(depth: nat, src: Reg)
    | LoadXmm
    | StoreXmm(depth: nat)
    | Compute(alu: Alu, dst: Reg, src: Reg)
    | Sal
    | Sar
    | DivRbx
    | Cmp(left: Reg, right: Reg)
    | TestSelf(reg: Reg)
    | Set(cond: Cond, dst: Reg)
    | Cmov(cond: Cond, dst: Reg, src: Reg)
    | LoadMemory(size: nat)
    | StoreMemory(size: nat)
    | MovArgc
    | MovArgv
    | Rdrand32
    | Rdrand64
    | SyscallLine(count: nat)
    | Jmp(target: nat)
    | Jz(target: nat)
    | CallFunction(id: nat)
    | CallRax
    | Ret
    | CallPointerToRbx
    | SaveReturn
    | LoadReturn
    | IncCallPointer
    | DecCallPointer
    | ExitProcess

  /**
   Everything but the instruction pointer. `_stacky_callptr` lies right behind the cells of
   `_stacky_callstack`; what follows it is not modelled.
   */
  datatype Data = Data(
    rax: Word, rbx: Word, rcx: Word, rdx: Word, rdi: Word, rsi: Word, r10: Word, r8: Word, r9: Word,
    xmmLow: Word, xmmHigh: Word, zero: bool, carry: bool,
    stack: seq<Word>, world: World, calls: seq<Word>, callptr: Word)

  /** `StrayAccess`: an access behind the call pointer, after which nothing is known. */
  datatype Trap = TrapStop(why: Stop) | StrayAccess | WildJump

  datatype Exec = Done(d: Data) | Trapped(trap: Trap, world: World)

  /** `resq 1024`. */
  const CALL_STACK_SIZE: nat := 1024

  function Get(d: Data, r: Reg): Word {
    match r
    case RAX => d.rax
    case RBX => d.rbx
    case RCX => d.rcx
    case RDX => d.rdx
    case RDI => d.rdi
    case RSI => d.rsi
    case R10 => d.r10
    case R8 => d.r8
    case R9 => d.r9
  }

  function Put(d: Data, r: Reg, v: Word): Data {
    match r
    case RAX => d.(rax := v)
    case RBX => d.(rbx := v)
    case RCX => d.(rcx := v)
    case RDX => d.(rdx := v)
    case RDI => d.(rdi := v)
    case RSI => d.(rsi := v)
    case R10 => d.(r10 := v)
    case R8 => d.(r8 := v)
    case R9 => d.(r9 := v)
  }

  function Result(alu: Alu, x: Word, y: Word): Word {
    match alu
    case AddTo => Wrap(x + y)
    case AndTo => BitwiseAnd64(x, y)
    case OrTo => BitwiseOr64(x, y)
    case XorTo => BitwiseXor64(x, y)
    case SubFrom => Wrap(x - y)
    case ImulTo => Wrap(x * y)
  }

  predicate Holds(c: Cond, d: Data) {
    match c
    case IfE => d.zero
    case IfNE => !d.zero
    case IfA => !d.carry && !d.zero
    case IfNB => !d.carry
    case IfB => d.carry
    case IfBE => d.carry || d.zero
  }

  /**
   What the kernel is given: the number in rax, the arguments in rdi, rsi, rdx, r10, r8 and r9, the last one first.
   */
  function SyscallArguments(d: Data, count: nat): (r: seq<Word>)
    requires count <= 6
    ensures |r| == count + 1
  {
    match count
    case 0 => [d.rax]
    case 1 => [d.rdi, d.rax]
    case 2 => [d.rsi, d.rdi, d.rax]
    case 3 => [d.rdx, d.rsi, d.rdi, d.rax]
    case 4 => [d.r10, d.rdx, d.rsi, d.rdi, d.rax]
    case 5 => [d.r8, d.r10, d.rdx, d.rsi, d.rdi, d.rax]
    case _ => [d.r9, d.r8, d.r10, d.rdx, d.rsi, d.rdi, d.rax]
  }

  /** Lines that fall through to the next one. */
  predicate Straight(l: Line) {
    !l.Jmp? && !l.Jz? && !l.CallFunction? && !l.CallRax? && !l.Ret? && !l.ExitProcess?
  }

  function ExecLine(env: Env, l: Line, d: Data): Exec
    requires Straight(l)
  {
    var n := |d.stack|;
    match l
    case Comment => Done(d)
    case Label(_) => Done(d)
    case MovImm(v) => Done(d.(rax := v))
    case Mov(dst, src) => Done(Put(d, dst, Get(d, src)))
    case Push(r) => Done(d.(stack := d.stack + [Get(d, r)]))
    case Pop(r) => if n < 1 then Trapped(TrapStop(Underflow), d.world)
        else Done(Put(d.(stack := d.stack[..n-1]), r, d.stack[n-1]))
    case PushAddress(s) => Done(d.(stack := d.stack + [env.symbol(s)]))
    case PushStack(k) => if n < k + 1 then Trapped(TrapStop(Underflow), d.world)
        else Done(d.(stack := d.stack + [d.stack[n-1-k]]))
    case PushRsp => Done(d.(stack := d.stack + [env.stackAddress(n)]))
    case AddRsp(k) => if n < k then Trapped(TrapStop(Underflow), d.world) else Done(d.(stack := d.stack[..n-k]))
    case LoadStack(r, k) => if n < k + 1 then Trapped(TrapStop(Underflow), d.world) else Done(Put(d, r, d.stack[n-1-k]))
    case StoreStack(k, r) => if n < k + 1 then Trapped(TrapStop(Underflow), d.world)
        else Done(d.(stack := d.stack[n-1-k := Get(d, r)]))
    case LoadXmm => if n < 2 then Trapped(TrapStop(Underflow), d.world)
        else Done(d.(xmmLow := d.stack[n-1], xmmHigh := d.stack[n-2]))
    case StoreXmm(k) =>
      if n < k + 2 then Trapped(TrapStop(Underflow), d.world)
      else Done(d.(stack := d.stack[n-1-k := d.xmmLow][n-2-k := d.xmmHigh]))
    case Compute(alu, dst, src) =>
      var v := if alu == XorTo && dst == src then 0 else Result(alu, Get(d, dst), Get(d, src));
      Done(Put(d, dst, v).(zero := v == 0, carry := false))
    case Sal => Done(d.(rax := Wrap(d.rax * Pow2(d.rcx % 64))))
    case Sar => Done(d.(rax := Wrap(ToSigned(d.rax) / Pow2(d.rcx % 64))))
    case DivRbx =>
      if d.rbx == 0 || d.rdx != 0 then Trapped(TrapStop(DivideFault), d.world)
      else Done(d.(rax := Quotient(d.rax, d.rbx), rdx := d.rax % d.rbx))
    case Cmp(x, y) => Done(d.(zero := Get(d, x) == Get(d, y), carry := Get(d, x) < Get(d, y)))
    case TestSelf(r) => Done(d.(zero := Get(d, r) == 0, carry := false))
    case Set(c, r) =>
      var low := Get(d, r) % 256;
      Done(Put(d, r, Get(d, r) - low + FromBool(Holds(c, d))))
    case Cmov(c, dst, src) => Done(if Holds(c, d) then Put(d, dst, Get(d, src)) else d)
    case LoadMemory(size) =>
      var kept := if size >= 4 then 0 else d.rbx - d.rbx % Pow2(8 * size);
      Done(d.(rbx := Wrap(kept + LoadWord(d.world, size, d.rax))))
    case StoreMemory(size) => Done(d.(world := StoreWord(d.world, size, d.rax, d.rbx)))
    case MovArgc => Done(d.(rax := env.argc))
    case MovArgv => Done(d.(rax := env.argv))
    case Rdrand32 =>
      var (v, w) := env.random(d.world);
      Done(d.(rax := v % 0x1_0000_0000, world := w))
    case Rdrand64 =>
      var (v, w) := env.random(d.world);
      Done(d.(rax := v, world := w))
    case SyscallLine(count) =>
      if count > 6 then Trapped(WildJump, d.world)
      else
        var (v, w) := env.syscall(SyscallArguments(d, count), d.world);
        Done(d.(rax := v, world := w))
    case CallPointerToRbx => Done(d.(rbx := d.callptr))
    case SaveReturn =>
      if d.rbx < |d.calls| then Done(d.(calls := d.calls[d.rbx := d.rax]))
      else if d.rbx == |d.calls| then Done(d.(callptr := d.rax))
      else Trapped(StrayAccess, d.world)
    case LoadReturn =>
      if d.rbx < |d.calls| then Done(d.(rax := d.calls[d.rbx]))
      else if d.rbx == |d.calls| then Done(d.(rax := d.callptr))
      else Trapped(StrayAccess, d.world)
    case IncCallPointer => Done(d.(callptr := Wrap(d.callptr + 1)))
    case DecCallPointer => Done(d.(callptr := Wrap(d.callptr - 1)))
  }

  /** A straight block, line after line. */
  function ExecBlock(env: Env, code: seq<Line>, d: Data): Exec
    requires forall k :: 0 <= k < |code| ==> Straight(code[k])
    decreases |code|
  {
    if code == [] then Done(d)
    else
      match ExecLine(env, code[0], d)
      case Trapped(t, w) => Trapped(t, w)
      case Done(d') => ExecBlock(env, code[1..], d')
  }
}
