/** `linux::x86_64::emit_intrinsic`, and that each emitted block does what its intrinsic means. */
module Codegen {
  import opened Wrappers
  import opened Words
  import opened Operations
  import opened Machine
  import opened Assembly

  // ----- emitted blocks -----

  function MathCode(implementation: seq<Line>): seq<Line> {
    [Comment, Pop(RBX), Pop(RAX)] + implementation + [Push(RAX)]
  }

  function CompareCode(c: Cond): seq<Line> {
    [Comment, Compute(XorTo, RAX, RAX), Pop(RBX), Pop(RCX), Cmp(RCX, RBX), Set(c, RAX), Push(RAX)]
  }

  function DivCode(end: seq<Line>): seq<Line> {
    [Comment, Compute(XorTo, RDX, RDX), Pop(RBX), Pop(RAX), DivRbx] + end
  }

  function BinaryCode(op: BinaryOp): seq<Line> {
    match op
    case Add => MathCode([Compute(AddTo, RAX, RBX)])
    case BitwiseAnd => MathCode([Compute(AndTo, RAX, RBX)])
    case BitwiseOr => MathCode([Compute(OrTo, RAX, RBX)])
    case BitwiseXor => MathCode([Compute(XorTo, RAX, RBX)])
    case LeftShift => MathCode([Mov(RCX, RBX), Sal])
    case Mul => MathCode([Compute(ImulTo, RAX, RBX)])
    case RightShift => MathCode([Mov(RCX, RBX), Sar])
    case Subtract => MathCode([Compute(SubFrom, RAX, RBX)])
    case Min => MathCode([Cmp(RAX, RBX), Cmov(IfA, RAX, RBX)])
    case Max => MathCode([Cmp(RAX, RBX), Cmov(IfB, RAX, RBX)])
    case BooleanOr => MathCode([Compute(XorTo, RCX, RCX), Compute(OrTo, RAX, RBX), Set(IfNE, RCX), Mov(RAX, RCX)])
    case BooleanAnd => MathCode([Compute(XorTo, RCX, RCX), Compute(AndTo, RAX, RBX), Set(IfNE, RCX), Mov(RAX, RCX)])
    case Div => DivCode([Push(RAX)])
    case Mod => DivCode([Push(RDX)])
    case Equal => CompareCode(IfE)
    case Greater => CompareCode(IfA)
    case GreaterEq => CompareCode(IfNB)
    case Less => CompareCode(IfB)
    case LessEq => CompareCode(IfBE)
    case NotEqual => CompareCode(IfNE)
  }

  function ShuffleCode(s: ShuffleOp): seq<Line> {
    match s
    case Drop => [Comment, AddRsp(1)]
    case TwoDrop => [Comment, AddRsp(2)]
    case Dup => [Comment, PushStack(0)]
    case TwoDup => [Comment, PushStack(1), PushStack(1)]
    case Over => [Comment, PushStack(1)]
    case TwoOver => [Comment, PushStack(3), PushStack(3)]
    case Tuck => [Comment, Pop(RAX), Pop(RBX), Push(RAX), Push(RBX), Push(RAX)]
    case Rot => [Comment, LoadXmm, LoadStack(RCX, 2), StoreStack(0, RCX), StoreXmm(1)]
    case Swap => [Comment, Pop(RAX), Pop(RBX), Push(RAX), Push(RBX)]
    case TwoSwap =>
      [Comment, LoadXmm, LoadStack(RAX, 2), StoreStack(0, RAX), LoadStack(RAX, 3), StoreStack(1, RAX), StoreXmm(2)]
  }

  /** `pop` of the system call number and its arguments into their registers. */
  function SyscallPops(count: nat): seq<Line>
    requires count <= 6
  {
    Pops(count + 1)
  }

  /** The registers a system call pops, in that order. */
  const POPPED: seq<Reg> := [RAX, RDI, RSI, RDX, R10, R8, R9]

  /** One `pop` for each of the first `k` of them. */
  function Pops(k: nat): seq<Line>
    requires k <= 7
  {
    [Pop(RAX), Pop(RDI), Pop(RSI), Pop(RDX), Pop(R10), Pop(R8), Pop(R9)][..k]
  }

  /** `syscall0` to `syscall6` are the only system call words. */
  predicate Emittable(i: Intrinsic) {
    i.Syscall? ==> i.count <= 6
  }

  function IntrinsicCode(i: Intrinsic): seq<Line>
    requires Emittable(i) && !i.Call?
  {
    match i
    case Binary(op) => BinaryCode(op)
    case Shuffle(s) => ShuffleCode(s)
    case DivMod => DivCode([Push(RDX), Push(RAX)])
    case BooleanNegate =>
      [Comment, Pop(RBX), Compute(XorTo, RAX, RAX), TestSelf(RBX), Set(IfE, RAX), Push(RAX)]
    case Load(size) => [Comment, Pop(RAX), Compute(XorTo, RBX, RBX), LoadMemory(size), Push(RBX)]
    case Store(size) => [Comment, Pop(RBX), Pop(RAX), StoreMemory(size)]
    case Top => [Comment, PushRsp]
    case Argc => [Comment, MovArgc, Push(RAX)]
    case Argv => [Comment, MovArgv, Push(RAX)]
    case Random32 => [Comment, Compute(XorTo, RAX, RAX), Rdrand32, Push(RAX)]
    case Random64 => [Comment, Rdrand64, Push(RAX)]
    case Syscall(count) => [Comment] + SyscallPops(count) + [SyscallLine(count), Push(RAX)]
  }

  // ----- running them -----

  /** Straight code, executed, ends like this effect, leaving the call stack alone. */
  ghost predicate Realises(r: Exec, d: Data, e: Effect) {
    match e
    case Fault(why) => r == Trapped(TrapStop(why), d.world)
    case Continue(st, world) =>
      r.Done? && r.d.stack == st && r.d.world == world && r.d.calls == d.calls && r.d.callptr == d.callptr
  }

  predicate AllStraight(code: seq<Line>) {
    forall k :: 0 <= k < |code| ==> Straight(code[k])
  }

  lemma {:induction false} BlockConcat(env: Env, a: seq<Line>, b: seq<Line>, d: Data)
    requires AllStraight(a) && AllStraight(b)
    ensures AllStraight(a + b)
    ensures ExecBlock(env, a + b, d) == match ExecBlock(env, a, d) case Trapped(t, w) => Trapped(t, w)
        case Done(d') => ExecBlock(env, b, d')
    decreases |a|
  {
    hide ExecLine;
    if a == [] {
      assert a + b == b;
    } else {
      assert (a + b)[0] == a[0] && (a + b)[1..] == a[1..] + b;
      match ExecLine(env, a[0], d)
      case Trapped(_, _) =>
      case Done(d') => BlockConcat(env, a[1..], b, d');
    }
  }

  /** The next line of a block. */
  lemma Next(env: Env, code: seq<Line>, d: Data)
    requires AllStraight(code) && code != []
    ensures ExecBlock(env, code, d) ==
      match ExecLine(env, code[0], d) case Trapped(t, w) => Trapped(t, w) case Done(d') => ExecBlock(env, code[1..], d')
  {
  }

  lemma PopTwo(env: Env, d: Data)
    ensures AllStraight([Comment, Pop(RBX), Pop(RAX)])
    ensures ExecBlock(env, [Comment, Pop(RBX), Pop(RAX)], d) ==
      var n := |d.stack|;
      if n < 2 then Trapped(TrapStop(Underflow), d.world)
      else Done(d.(rbx := d.stack[n-1], rax := d.stack[n-2], stack := d.stack[..n-2]))
  {
    var n := |d.stack|;
    if n >= 2 {
      assert d.stack[..n-1][..n-2] == d.stack[..n-2];
    }
  }

  /** `pop rbx, pop rax, …, push rax` leaves whatever the middle put into rax. */
  lemma MathBlock(env: Env, implementation: seq<Line>, d: Data, v: Word)
    requires AllStraight(implementation)
    requires |d.stack| >= 2 ==>
      var n := |d.stack|;
      var d1 := d.(rbx := d.stack[n-1], rax := d.stack[n-2], stack := d.stack[..n-2]);
      var r := ExecBlock(env, implementation, d1);
      r.Done? && r.d.rax == v && r.d.stack == d1.stack && r.d.world == d.world && r.d.calls == d.calls
          && r.d.callptr == d.callptr
    ensures AllStraight(MathCode(implementation))
    ensures Realises(ExecBlock(env, MathCode(implementation), d), d,
                     if |d.stack| < 2 then Fault(Underflow) else Continue(d.stack[..|d.stack|-2] + [v], d.world))
  {
    hide ExecBlock;
    PopTwo(env, d);
    BlockConcat(env, [Comment, Pop(RBX), Pop(RAX)] + implementation, [Push(RAX)], d);
    BlockConcat(env, [Comment, Pop(RBX), Pop(RAX)], implementation, d);
    PushRax(env, ExecBlock(env, [Comment, Pop(RBX), Pop(RAX)] + implementation, d));
  }

  lemma PushRax(env: Env, r: Exec)
    ensures r.Done? ==> ExecBlock(env, [Push(RAX)], r.d) == Done(r.d.(stack := r.d.stack + [r.d.rax]))
  {
  }

  lemma OneLine(env: Env, l: Line, d: Data)
    requires Straight(l)
    ensures ExecBlock(env, [l], d) == ExecLine(env, l, d)
  {
    var r := ExecLine(env, l, d);
    if r.Done? {
      assert [l][1..] == [];
      assert ExecBlock(env, [], r.d) == Done(r.d);
    }
  }

  lemma TwoLines(env: Env, a: Line, b: Line, d: Data)
    requires Straight(a) && Straight(b)
    ensures ExecBlock(env, [a, b], d) == match ExecLine(env, a, d) case Trapped(t, w) => Trapped(t, w)
        case Done(d') => ExecLine(env, b, d')
  {
    hide ExecLine;
    Next(env, [a, b], d);
    assert [a, b][1..] == [b];
    var r := ExecLine(env, a, d);
    if r.Done? {
      OneLine(env, b, r.d);
    }
  }

  // ----- arithmetic -----

  ghost predicate Correct(env: Env, i: Intrinsic, d: Data)
    requires Emittable(i) && !i.Call? && AllStraight(IntrinsicCode(i))
  {
    Realises(ExecBlock(env, IntrinsicCode(i), d), d, ApplyIntrinsic(env, i, d.stack, d.world))
  }

  /** The data right behind `pop rbx, pop rax`. */
  function Popped(d: Data): Data
    requires |d.stack| >= 2
  {
    var n := |d.stack|;
    d.(rbx := d.stack[n-1], rax := d.stack[n-2], stack := d.stack[..n-2])
  }

  /** A binary operation emitted as a middle part between the pops and the push. */
  lemma MathCorrect(env: Env, op: BinaryOp, implementation: seq<Line>, d: Data, v: Word)
    requires AllStraight(implementation) && BinaryCode(op) == MathCode(implementation)
    requires |d.stack| >= 2 ==> MachineBinary(op, d.stack[|d.stack|-2], d.stack[|d.stack|-1]) == Some(v)
    requires |d.stack| >= 2 ==>
      var r := ExecBlock(env, implementation, Popped(d));
      r.Done? && r.d.rax == v && r.d.stack == Popped(d).stack && r.d.world == d.world && r.d.calls == d.calls
          && r.d.callptr == d.callptr
    ensures AllStraight(BinaryCode(op)) && Correct(env, Binary(op), d)
  {
    hide ExecBlock;
    hide BinaryCode;
    hide MathCode;
    hide MachineBinary;
    MathBlock(env, implementation, d, v);
  }

  function AluOf(op: BinaryOp): Alu
    requires op in {Add, Subtract, Mul, BitwiseAnd, BitwiseOr, BitwiseXor}
  {
    match op
    case Add => AddTo
    case Subtract => SubFrom
    case Mul => ImulTo
    case BitwiseAnd => AndTo
    case BitwiseOr => OrTo
    case BitwiseXor => XorTo
  }

  lemma AluMeaning(op: BinaryOp, b: Word, a: Word)
    requires op in {Add, Subtract, Mul, BitwiseAnd, BitwiseOr, BitwiseXor}
    ensures MachineBinary(op, b, a) == Some(Result(AluOf(op), b, a))
    ensures BinaryCode(op) == MathCode([Compute(AluOf(op), RAX, RBX)])
  {
    hide BitwiseAnd64;
    hide BitwiseOr64;
    hide BitwiseXor64;
  }

  lemma AluBlock(env: Env, op: BinaryOp, d: Data)
    requires op in {Add, Subtract, Mul, BitwiseAnd, BitwiseOr, BitwiseXor}
    ensures AllStraight(BinaryCode(op)) && Correct(env, Binary(op), d)
  {
    hide ExecBlock;
    hide Correct;
    hide BinaryCode;
    hide MachineBinary;
    hide MathCode;
    hide Result;
    hide AluOf;
    var n := |d.stack|;
    var line := Compute(AluOf(op), RAX, RBX);
    if n >= 2 {
      OneLine(env, line, Popped(d));
      AluMeaning(op, d.stack[n-2], d.stack[n-1]);
      MathCorrect(env, op, [line], d, Result(AluOf(op), d.stack[n-2], d.stack[n-1]));
    } else {
      AluMeaning(op, 0, 0);
      MathCorrect(env, op, [line], d, 0);
    }
  }

  lemma ShiftBlock(env: Env, op: BinaryOp, d: Data)
    requires op in {LeftShift, RightShift}
    ensures AllStraight(BinaryCode(op)) && Correct(env, Binary(op), d)
  {
    hide ExecBlock;
    hide Correct;
    hide Pow2;
    var n := |d.stack|;
    var line := if op == LeftShift then Sal else Sar;
    var v := if n < 2 then 0 else MachineBinary(op, d.stack[n-2], d.stack[n-1]).value;
    if n >= 2 {
      TwoLines(env, Mov(RCX, RBX), line, Popped(d));
    }
    MathCorrect(env, op, [Mov(RCX, RBX), line], d, v);
  }

  lemma MinMaxMiddle(env: Env, c: Cond, d: Data)
    requires c in {IfA, IfB}
    ensures var v := if (if c == IfA then d.rax > d.rbx else d.rax < d.rbx) then d.rbx else d.rax;
      ExecBlock(env, [Cmp(RAX, RBX), Cmov(c, RAX, RBX)], d)
          == Done(d.(rax := v, zero := d.rax == d.rbx, carry := d.rax < d.rbx))
  {
    hide ExecBlock;
    TwoLines(env, Cmp(RAX, RBX), Cmov(c, RAX, RBX), d);
  }

  lemma MinMaxBlock(env: Env, op: BinaryOp, d: Data)
    requires op in {Min, Max}
    ensures AllStraight(BinaryCode(op)) && Correct(env, Binary(op), d)
  {
    hide ExecBlock;
    hide Correct;
    var n := |d.stack|;
    var c := if op == Min then IfA else IfB;
    var v := if n < 2 then 0 else MachineBinary(op, d.stack[n-2], d.stack[n-1]).value;
    if n >= 2 {
      MinMaxMiddle(env, c, Popped(d));
    }
    hide ExecLine;
    MathCorrect(env, op, [Cmp(RAX, RBX), Cmov(c, RAX, RBX)], d, v);
  }

  lemma BooleanMiddle(env: Env, alu: Alu, d: Data)
    requires alu in {AndTo, OrTo}
    ensures AllStraight([Compute(XorTo, RCX, RCX), Compute(alu, RAX, RBX), Set(IfNE, RCX), Mov(RAX, RCX)])
    ensures var r := ExecBlock(env, [Compute(XorTo, RCX, RCX), Compute(alu, RAX, RBX), Set(IfNE, RCX), Mov(RAX, RCX)],
        d);
      && r.Done? && r.d.rax == FromBool(Result(alu, d.rax, d.rbx) != 0)
      && r.d.stack == d.stack && r.d.world == d.world && r.d.calls == d.calls && r.d.callptr == d.callptr
  {
    hide ExecBlock;
    hide ExecLine;
    hide Result;
    var a, b := [Compute(XorTo, RCX, RCX), Compute(alu, RAX, RBX)], [Set(IfNE, RCX), Mov(RAX, RCX)];
    assert a + b == [Compute(XorTo, RCX, RCX), Compute(alu, RAX, RBX), Set(IfNE, RCX), Mov(RAX, RCX)];
    BlockConcat(env, a, b, d);
    BooleanFront(env, alu, d);
    BooleanBack(env, ExecBlock(env, a, d).d);
  }

  lemma BooleanFront(env: Env, alu: Alu, d: Data)
    requires alu in {AndTo, OrTo}
    ensures var v := Result(alu, d.rax, d.rbx);
      ExecBlock(env, [Compute(XorTo, RCX, RCX), Compute(alu, RAX, RBX)], d)
          == Done(d.(rcx := 0, rax := v, zero := v == 0, carry := false))
  {
    hide ExecBlock;
    hide Result;
    TwoLines(env, Compute(XorTo, RCX, RCX), Compute(alu, RAX, RBX), d);
  }

  lemma BooleanBack(env: Env, d: Data)
    requires d.rcx == 0
    ensures ExecBlock(env, [Set(IfNE, RCX), Mov(RAX, RCX)], d)
        == Done(d.(rcx := FromBool(!d.zero), rax := FromBool(!d.zero)))
  {
    hide ExecBlock;
    TwoLines(env, Set(IfNE, RCX), Mov(RAX, RCX), d);
  }

  lemma BooleanBlock(env: Env, op: BinaryOp, d: Data)
    requires op in {BooleanAnd, BooleanOr}
    ensures AllStraight(BinaryCode(op)) && Correct(env, Binary(op), d)
  {
    hide ExecBlock;
    hide ExecLine;
    hide Correct;
    hide BitwiseAnd64;
    hide BitwiseOr64;
    var n := |d.stack|;
    var alu := if op == BooleanAnd then AndTo else OrTo;
    var v := if n < 2 then 0 else MachineBinary(op, d.stack[n-2], d.stack[n-1]).value;
    BooleanMiddle(env, alu, if n < 2 then d else Popped(d));
    MathCorrect(env, op, [Compute(XorTo, RCX, RCX), Compute(alu, RAX, RBX), Set(IfNE, RCX), Mov(RAX, RCX)], d, v);
  }

  lemma Clear(env: Env, r: Reg, d: Data)
    ensures ExecBlock(env, [Comment, Compute(XorTo, r, r)], d) == Done(Put(d, r, 0).(zero := true, carry := false))
  {
    hide ExecBlock;
    hide Put;
    TwoLines(env, Comment, Compute(XorTo, r, r), d);
  }

  lemma PopPair(env: Env, r: Reg, d: Data)
    requires r != RBX
    ensures var n := |d.stack|;
      ExecBlock(env, [Pop(RBX), Pop(r)], d) ==
        if n < 2 then Trapped(TrapStop(Underflow), d.world)
        else Done(Put(d.(rbx := d.stack[n-1], stack := d.stack[..n-2]), r, d.stack[n-2]))
  {
    hide ExecBlock;
    TwoLines(env, Pop(RBX), Pop(r), d);
    var n := |d.stack|;
    if n >= 2 {
      assert d.stack[..n-1][..n-2] == d.stack[..n-2];
    }
  }

  /** Clear rax, then pop the operands into rbx and rcx. */
  lemma ClearAndPop(env: Env, d: Data)
    ensures AllStraight([Comment, Compute(XorTo, RAX, RAX), Pop(RBX), Pop(RCX)])
    ensures var n := |d.stack|;
      ExecBlock(env, [Comment, Compute(XorTo, RAX, RAX), Pop(RBX), Pop(RCX)], d) ==
        if n < 2 then Trapped(TrapStop(Underflow), d.world)
        else Done(d.(rax := 0, rbx := d.stack[n-1], rcx := d.stack[n-2], stack := d.stack[..n-2], zero := true,
            carry := false))
  {
    hide ExecBlock;
    hide ExecLine;
    var a, b := [Comment, Compute(XorTo, RAX, RAX)], [Pop(RBX), Pop(RCX)];
    assert a + b == [Comment, Compute(XorTo, RAX, RAX), Pop(RBX), Pop(RCX)];
    BlockConcat(env, a, b, d);
    Clear(env, RAX, d);
    PopPair(env, RCX, Put(d, RAX, 0).(zero := true, carry := false));
  }

  lemma CompareTail(env: Env, c: Cond, d: Data)
    requires d.rax == 0
    ensures AllStraight([Cmp(RCX, RBX), Set(c, RAX), Push(RAX)])
    ensures var v := FromBool(Holds(c, d.(zero := d.rcx == d.rbx, carry := d.rcx < d.rbx)));
      var r := ExecBlock(env, [Cmp(RCX, RBX), Set(c, RAX), Push(RAX)], d);
      && r.Done? && r.d.stack == d.stack + [v] && r.d.world == d.world && r.d.calls == d.calls
      && r.d.callptr == d.callptr
  {
    hide ExecBlock;
    hide Holds;
    var a := [Cmp(RCX, RBX), Set(c, RAX)];
    assert a + [Push(RAX)] == [Cmp(RCX, RBX), Set(c, RAX), Push(RAX)];
    BlockConcat(env, a, [Push(RAX)], d);
    CompareAndSet(env, c, d);
    OneLine(env, Push(RAX), ExecBlock(env, a, d).d);
  }

  lemma CompareAndSet(env: Env, c: Cond, d: Data)
    requires d.rax == 0
    ensures var d' := d.(zero := d.rcx == d.rbx, carry := d.rcx < d.rbx);
      ExecBlock(env, [Cmp(RCX, RBX), Set(c, RAX)], d) == Done(d'.(rax := FromBool(Holds(c, d'))))
  {
    hide ExecBlock;
    hide Holds;
    TwoLines(env, Cmp(RCX, RBX), Set(c, RAX), d);
  }

  function CondOf(op: BinaryOp): Cond
    requires op in {Equal, NotEqual, Less, LessEq, Greater, GreaterEq}
  {
    match op
    case Equal => IfE
    case NotEqual => IfNE
    case Less => IfB
    case LessEq => IfBE
    case Greater => IfA
    case GreaterEq => IfNB
  }

  lemma CondMeaning(op: BinaryOp, b: Word, a: Word, d: Data)
    requires op in {Equal, NotEqual, Less, LessEq, Greater, GreaterEq}
    ensures MachineBinary(op, b, a) == Some(FromBool(Holds(CondOf(op), d.(zero := b == a, carry := b < a))))
    ensures BinaryCode(op) == CompareCode(CondOf(op))
  {
  }

  lemma CompareBlock(env: Env, op: BinaryOp, d: Data)
    requires op in {Equal, NotEqual, Less, LessEq, Greater, GreaterEq}
    ensures AllStraight(BinaryCode(op)) && Correct(env, Binary(op), d)
  {
    hide ExecBlock;
    hide ExecLine;
    hide BinaryCode;
    hide MachineBinary;
    hide Holds;
    hide CondOf;
    var n := |d.stack|;
    var c := CondOf(op);
    var a, e := [Comment, Compute(XorTo, RAX, RAX), Pop(RBX), Pop(RCX)], [Cmp(RCX, RBX), Set(c, RAX), Push(RAX)];
    assert CompareCode(c) == a + e;
    ClearAndPop(env, d);
    CondMeaning(op, if n < 2 then 0 else d.stack[n-2], if n < 2 then 0 else d.stack[n-1],
                if n < 2 then d else d.(rax := 0, rbx := d.stack[n-1], rcx := d.stack[n-2], stack := d.stack[..n-2]));
    CompareTail(env, c, if n < 2 then d.(rax := 0)
                        else d.(rax := 0, rbx := d.stack[n-1], rcx := d.stack[n-2], stack := d.stack[..n-2],
                            zero := true, carry := false));
    BlockConcat(env, a, e, d);
  }

  /** Clear rdx, then pop the divisor into rbx and the dividend into rax. */
  lemma ClearRdxAndPop(env: Env, d: Data)
    ensures AllStraight([Comment, Compute(XorTo, RDX, RDX), Pop(RBX), Pop(RAX)])
    ensures var n := |d.stack|;
      ExecBlock(env, [Comment, Compute(XorTo, RDX, RDX), Pop(RBX), Pop(RAX)], d) ==
        if n < 2 then Trapped(TrapStop(Underflow), d.world)
        else Done(d.(rdx := 0, rbx := d.stack[n-1], rax := d.stack[n-2], stack := d.stack[..n-2], zero := true,
            carry := false))
  {
    hide ExecBlock;
    hide ExecLine;
    var a, b := [Comment, Compute(XorTo, RDX, RDX)], [Pop(RBX), Pop(RAX)];
    assert a + b == [Comment, Compute(XorTo, RDX, RDX), Pop(RBX), Pop(RAX)];
    BlockConcat(env, a, b, d);
    Clear(env, RDX, d);
    PopPair(env, RAX, Put(d, RDX, 0).(zero := true, carry := false));
  }

  /** `div` with a cleared rdx: quotient in rax, remainder in rdx. */
  lemma DivBlock(env: Env, end: seq<Line>, d: Data)
    requires AllStraight(end)
    ensures AllStraight(DivCode(end))
    ensures var n := |d.stack|;
      ExecBlock(env, DivCode(end), d) ==
        if n < 2 then Trapped(TrapStop(Underflow), d.world)
        else if d.stack[n-1] == 0 then Trapped(TrapStop(DivideFault), d.world)
        else ExecBlock(env, end, d.(rbx := d.stack[n-1], rax := Quotient(d.stack[n-2], d.stack[n-1]),
            rdx := d.stack[n-2] % d.stack[n-1],
                                    stack := d.stack[..n-2], zero := true, carry := false))
  {
    hide ExecBlock;
    hide Quotient;
    var n := |d.stack|;
    var a := [Comment, Compute(XorTo, RDX, RDX), Pop(RBX), Pop(RAX)];
    assert a + [DivRbx] == [Comment, Compute(XorTo, RDX, RDX), Pop(RBX), Pop(RAX), DivRbx];
    ClearRdxAndPop(env, d);
    BlockConcat(env, a + [DivRbx], end, d);
    BlockConcat(env, a, [DivRbx], d);
    if n >= 2 {
      OneLine(env, DivRbx, d.(rdx := 0, rbx := d.stack[n-1], rax := d.stack[n-2], stack := d.stack[..n-2], zero := true,
          carry := false));
    }
  }

  lemma DivisionBlock(env: Env, op: BinaryOp, d: Data)
    requires op in {BinaryOp.Div, Mod}
    ensures AllStraight(BinaryCode(op)) && Correct(env, Binary(op), d)
  {
    hide ExecBlock;
    hide Quotient;
    hide ExecLine;
    var n := |d.stack|;
    var r := if op == Mod then RDX else RAX;
    DivBlock(env, [Push(r)], d);
    if n >= 2 && d.stack[n-1] != 0 {
      var d' := d.(rbx := d.stack[n-1], rax := Quotient(d.stack[n-2], d.stack[n-1]),
                   rdx := d.stack[n-2] % d.stack[n-1], stack := d.stack[..n-2], zero := true, carry := false);
      OneLine(env, Push(r), d');
      PushLine(env, r, d');
    }
  }

  lemma PushLine(env: Env, r: Reg, d: Data)
    ensures ExecLine(env, Push(r), d) == Done(d.(stack := d.stack + [Get(d, r)]))
  {
  }

  lemma DivModBlock(env: Env, d: Data)
    ensures AllStraight(IntrinsicCode(DivMod)) && Correct(env, DivMod, d)
  {
    hide ExecBlock;
    hide Quotient;
    var n := |d.stack|;
    DivBlock(env, [Push(RDX), Push(RAX)], d);
    if n >= 2 && d.stack[n-1] != 0 {
      TwoLines(env, Push(RDX), Push(RAX), d.(rbx := d.stack[n-1], rax := Quotient(d.stack[n-2], d.stack[n-1]),
               rdx := d.stack[n-2] % d.stack[n-1], stack := d.stack[..n-2], zero := true, carry := false));
      assert d.stack[..n-2] + [d.stack[n-2] % d.stack[n-1]] + [Quotient(d.stack[n-2], d.stack[n-1])]
          == d.stack[..n-2] + [d.stack[n-2] % d.stack[n-1], Quotient(d.stack[n-2], d.stack[n-1])];
    }
  }

  lemma BinaryBlock(env: Env, op: BinaryOp, d: Data)
    ensures AllStraight(BinaryCode(op)) && Correct(env, Binary(op), d)
  {
    hide Correct;
    hide BinaryCode;
    match op
    case Div => DivisionBlock(env, op, d);
    case Mod => DivisionBlock(env, op, d);
    case LeftShift => ShiftBlock(env, op, d);
    case RightShift => ShiftBlock(env, op, d);
    case Min => MinMaxBlock(env, op, d);
    case Max => MinMaxBlock(env, op, d);
    case BooleanAnd => BooleanBlock(env, op, d);
    case BooleanOr => BooleanBlock(env, op, d);
    case Equal => CompareBlock(env, op, d);
    case NotEqual => CompareBlock(env, op, d);
    case Less => CompareBlock(env, op, d);
    case LessEq => CompareBlock(env, op, d);
    case Greater => CompareBlock(env, op, d);
    case GreaterEq => CompareBlock(env, op, d);
    case _ => AluBlock(env, op, d);
  }

  // ----- stack words -----

  lemma ThreeLines(env: Env, a: Line, b: Line, c: Line, d: Data)
    requires Straight(a) && Straight(b) && Straight(c)
    ensures ExecBlock(env, [a, b, c], d) ==
      match ExecBlock(env, [a, b], d) case Trapped(t, w) => Trapped(t, w) case Done(d') => ExecLine(env, c, d')
  {
    hide ExecLine;
    hide ExecBlock;
    assert [a, b] + [c] == [a, b, c];
    BlockConcat(env, [a, b], [c], d);
    var r := ExecBlock(env, [a, b], d);
    if r.Done? {
      OneLine(env, c, r.d);
    }
  }

  lemma ShortShuffleBlock(env: Env, s: ShuffleOp, d: Data)
    requires s in {Drop, TwoDrop, Dup, Over}
    ensures AllStraight(ShuffleCode(s)) && Correct(env, Shuffle(s), d)
  {
    hide ExecBlock;
    TwoLines(env, Comment, ShuffleCode(s)[1], d);
  }

  lemma DoubleBlock(env: Env, s: ShuffleOp, d: Data)
    requires s in {TwoDup, TwoOver}
    ensures AllStraight(ShuffleCode(s)) && Correct(env, Shuffle(s), d)
  {
    hide ExecBlock;
    var k := if s == TwoDup then 1 else 3;
    TwoLines(env, Comment, PushStack(k), d);
    ThreeLines(env, Comment, PushStack(k), PushStack(k), d);
    var n := |d.stack|;
    if n > k {
      var st := d.stack + [d.stack[n-1-k]];
      assert st + [st[n-k]] == d.stack + [d.stack[n-1-k], d.stack[n-k]];
    }
  }

  /** Pop the two topmost words into rax and rbx. */
  lemma PopRaxRbx(env: Env, d: Data)
    ensures AllStraight([Comment, Pop(RAX), Pop(RBX)])
    ensures var n := |d.stack|;
      ExecBlock(env, [Comment, Pop(RAX), Pop(RBX)], d) ==
        if n < 2 then Trapped(TrapStop(Underflow), d.world)
        else Done(d.(rax := d.stack[n-1], rbx := d.stack[n-2], stack := d.stack[..n-2]))
  {
    hide ExecBlock;
    TwoLines(env, Comment, Pop(RAX), d);
    ThreeLines(env, Comment, Pop(RAX), Pop(RBX), d);
    var n := |d.stack|;
    if n >= 2 {
      assert d.stack[..n-1][..n-2] == d.stack[..n-2];
    }
  }

  lemma SwapBlock(env: Env, d: Data)
    ensures AllStraight(ShuffleCode(Swap)) && Correct(env, Shuffle(Swap), d)
  {
    hide ExecBlock;
    var a, b := [Comment, Pop(RAX), Pop(RBX)], [Push(RAX), Push(RBX)];
    assert a + b == ShuffleCode(Swap);
    PopRaxRbx(env, d);
    BlockConcat(env, a, b, d);
    var n := |d.stack|;
    if n >= 2 {
      TwoLines(env, Push(RAX), Push(RBX), d.(rax := d.stack[n-1], rbx := d.stack[n-2], stack := d.stack[..n-2]));
      assert d.stack[..n-2] + [d.stack[n-1]] + [d.stack[n-2]] == d.stack[..n-2] + [d.stack[n-1], d.stack[n-2]];
    }
  }

  lemma TuckBlock(env: Env, d: Data)
    ensures AllStraight(ShuffleCode(Tuck)) && Correct(env, Shuffle(Tuck), d)
  {
    hide ExecBlock;
    var a, b := [Comment, Pop(RAX), Pop(RBX)], [Push(RAX), Push(RBX), Push(RAX)];
    assert a + b == ShuffleCode(Tuck);
    PopRaxRbx(env, d);
    BlockConcat(env, a, b, d);
    var n := |d.stack|;
    if n >= 2 {
      var d1 := d.(rax := d.stack[n-1], rbx := d.stack[n-2], stack := d.stack[..n-2]);
      TwoLines(env, Push(RAX), Push(RBX), d1);
      ThreeLines(env, Push(RAX), Push(RBX), Push(RAX), d1);
      assert d.stack[..n-2] + [d.stack[n-1]] + [d.stack[n-2]] + [d.stack[n-1]]
          == d.stack[..n-2] + [d.stack[n-1], d.stack[n-2], d.stack[n-1]];
    }
  }

  lemma RotFront(env: Env, d: Data)
    ensures AllStraight([Comment, LoadXmm, LoadStack(RCX, 2)])
    ensures var n := |d.stack|;
      ExecBlock(env, [Comment, LoadXmm, LoadStack(RCX, 2)], d) ==
        if n < 3 then Trapped(TrapStop(Underflow), d.world)
        else Done(d.(xmmLow := d.stack[n-1], xmmHigh := d.stack[n-2], rcx := d.stack[n-3]))
  {
    hide ExecBlock;
    TwoLines(env, Comment, LoadXmm, d);
    ThreeLines(env, Comment, LoadXmm, LoadStack(RCX, 2), d);
  }

  lemma RotBack(env: Env, d: Data)
    requires |d.stack| >= 3
    ensures var n := |d.stack|;
      ExecBlock(env, [StoreStack(0, RCX), StoreXmm(1)], d)
          == Done(d.(stack := d.stack[..n-3] + [d.xmmHigh, d.xmmLow, d.rcx]))
  {
    hide ExecBlock;
    var n := |d.stack|;
    TwoLines(env, StoreStack(0, RCX), StoreXmm(1), d);
    assert d.stack[n-1 := d.rcx][n-2 := d.xmmLow][n-3 := d.xmmHigh] == d.stack[..n-3] + [d.xmmHigh, d.xmmLow, d.rcx];
  }

  lemma RotBlock(env: Env, d: Data)
    ensures AllStraight(ShuffleCode(Rot)) && Correct(env, Shuffle(Rot), d)
  {
    hide ExecBlock;
    hide ExecLine;
    var a, b := [Comment, LoadXmm, LoadStack(RCX, 2)], [StoreStack(0, RCX), StoreXmm(1)];
    assert a + b == ShuffleCode(Rot);
    BlockConcat(env, a, b, d);
    RotFront(env, d);
    var n := |d.stack|;
    if n >= 3 {
      RotBack(env, d.(xmmLow := d.stack[n-1], xmmHigh := d.stack[n-2], rcx := d.stack[n-3]));
    }
  }

  lemma TwoSwapBlock(env: Env, d: Data)
    ensures AllStraight(ShuffleCode(TwoSwap)) && Correct(env, Shuffle(TwoSwap), d)
  {
    hide ExecBlock;
    hide ExecLine;
    var a, b, c := [Comment, LoadXmm, LoadStack(RAX, 2)], [StoreStack(0, RAX), LoadStack(RAX, 3)],
        [StoreStack(1, RAX), StoreXmm(2)];
    assert a + b + c == ShuffleCode(TwoSwap);
    BlockConcat(env, a + b, c, d);
    BlockConcat(env, a, b, d);
    TwoSwapFront(env, d);
    var n := |d.stack|;
    if n >= 3 {
      var d1 := d.(xmmLow := d.stack[n-1], xmmHigh := d.stack[n-2], rax := d.stack[n-3]);
      TwoSwapMiddle(env, d1);
      if n >= 4 {
        var d2 := d1.(stack := d.stack[n-1 := d.stack[n-3]], rax := d.stack[n-4]);
        TwoSwapBack(env, d, d2);
      }
    }
  }

  lemma TwoSwapFront(env: Env, d: Data)
    ensures AllStraight([Comment, LoadXmm, LoadStack(RAX, 2)])
    ensures var n := |d.stack|;
      ExecBlock(env, [Comment, LoadXmm, LoadStack(RAX, 2)], d) ==
        if n < 3 then Trapped(TrapStop(Underflow), d.world)
        else Done(d.(xmmLow := d.stack[n-1], xmmHigh := d.stack[n-2], rax := d.stack[n-3]))
  {
    hide ExecBlock;
    TwoLines(env, Comment, LoadXmm, d);
    ThreeLines(env, Comment, LoadXmm, LoadStack(RAX, 2), d);
  }

  lemma TwoSwapMiddle(env: Env, d: Data)
    requires |d.stack| >= 3
    ensures var n := |d.stack|;
      ExecBlock(env, [StoreStack(0, RAX), LoadStack(RAX, 3)], d) ==
        if n < 4 then Trapped(TrapStop(Underflow), d.world)
            else Done(d.(stack := d.stack[n-1 := d.rax], rax := d.stack[n-4]))
  {
    hide ExecBlock;
    TwoLines(env, StoreStack(0, RAX), LoadStack(RAX, 3), d);
  }

  lemma TwoSwapBack(env: Env, d: Data, d2: Data)
    requires |d.stack| >= 4
    requires var n := |d.stack|;
      && d2.stack == d.stack[n-1 := d.stack[n-3]] && d2.rax == d.stack[n-4]
      && d2.xmmLow == d.stack[n-1] && d2.xmmHigh == d.stack[n-2]
    ensures var n := |d.stack|;
      ExecBlock(env, [StoreStack(1, RAX), StoreXmm(2)], d2)
        == Done(d2.(stack := d.stack[..n-4] + [d.stack[n-2], d.stack[n-1], d.stack[n-4], d.stack[n-3]]))
  {
    hide ExecBlock;
    var n := |d.stack|;
    TwoLines(env, StoreStack(1, RAX), StoreXmm(2), d2);
    assert d.stack[n-1 := d.stack[n-3]][n-2 := d.stack[n-4]][n-3 := d.stack[n-1]][n-4 := d.stack[n-2]]
        == d.stack[..n-4] + [d.stack[n-2], d.stack[n-1], d.stack[n-4], d.stack[n-3]];
  }

  lemma ShuffleBlock(env: Env, s: ShuffleOp, d: Data)
    ensures AllStraight(ShuffleCode(s)) && Correct(env, Shuffle(s), d)
  {
    hide Correct;
    hide ShuffleCode;
    match s
    case TwoDup => DoubleBlock(env, s, d);
    case TwoOver => DoubleBlock(env, s, d);
    case Swap => SwapBlock(env, d);
    case Tuck => TuckBlock(env, d);
    case Rot => RotBlock(env, d);
    case TwoSwap => TwoSwapBlock(env, d);
    case _ => ShortShuffleBlock(env, s, d);
  }

  // ----- memory, environment, system calls -----

  lemma NegateBlock(env: Env, d: Data)
    ensures AllStraight(IntrinsicCode(BooleanNegate)) && Correct(env, BooleanNegate, d)
  {
    hide ExecBlock;
    hide ExecLine;
    var n := |d.stack|;
    var a, b, c := [Comment, Pop(RBX), Compute(XorTo, RAX, RAX)], [TestSelf(RBX), Set(IfE, RAX)], [Push(RAX)];
    assert a + b + c == IntrinsicCode(BooleanNegate);
    BlockConcat(env, a + b, c, d);
    BlockConcat(env, a, b, d);
    NegateFront(env, d);
    if n >= 1 {
      var d1 := d.(rbx := d.stack[n-1], stack := d.stack[..n-1], rax := 0, zero := true, carry := false);
      NegateTail(env, d1);
    }
  }

  lemma NegateFront(env: Env, d: Data)
    ensures AllStraight([Comment, Pop(RBX), Compute(XorTo, RAX, RAX)])
    ensures var n := |d.stack|;
      ExecBlock(env, [Comment, Pop(RBX), Compute(XorTo, RAX, RAX)], d) ==
        if n < 1 then Trapped(TrapStop(Underflow), d.world)
        else Done(d.(rbx := d.stack[n-1], stack := d.stack[..n-1], rax := 0, zero := true, carry := false))
  {
    hide ExecBlock;
    TwoLines(env, Comment, Pop(RBX), d);
    ThreeLines(env, Comment, Pop(RBX), Compute(XorTo, RAX, RAX), d);
  }

  lemma NegateTail(env: Env, d: Data)
    requires d.rax == 0
    ensures ExecBlock(env, [TestSelf(RBX), Set(IfE, RAX)], d)
        == Done(d.(zero := d.rbx == 0, carry := false, rax := FromBool(d.rbx == 0)))
    ensures ExecBlock(env, [Push(RAX)], d.(zero := d.rbx == 0, carry := false, rax := FromBool(d.rbx == 0)))
         == Done(d.(zero := d.rbx == 0, carry := false, rax := FromBool(d.rbx == 0),
             stack := d.stack + [FromBool(d.rbx == 0)]))
  {
    hide ExecBlock;
    TwoLines(env, TestSelf(RBX), Set(IfE, RAX), d);
    OneLine(env, Push(RAX), d.(zero := d.rbx == 0, carry := false, rax := FromBool(d.rbx == 0)));
  }

  lemma LoadFront(env: Env, d: Data)
    ensures AllStraight([Comment, Pop(RAX), Compute(XorTo, RBX, RBX)])
    ensures var n := |d.stack|;
      ExecBlock(env, [Comment, Pop(RAX), Compute(XorTo, RBX, RBX)], d) ==
        if n < 1 then Trapped(TrapStop(Underflow), d.world)
        else Done(d.(rax := d.stack[n-1], stack := d.stack[..n-1], rbx := 0, zero := true, carry := false))
  {
    hide ExecBlock;
    TwoLines(env, Comment, Pop(RAX), d);
    ThreeLines(env, Comment, Pop(RAX), Compute(XorTo, RBX, RBX), d);
  }

  lemma LoadBack(env: Env, size: nat, d: Data)
    requires d.rbx == 0
    ensures AllStraight([LoadMemory(size), Push(RBX)])
    ensures var v := LoadWord(d.world, size, d.rax);
      ExecBlock(env, [LoadMemory(size), Push(RBX)], d) == Done(d.(rbx := v, stack := d.stack + [v]))
  {
    hide ExecBlock;
    hide LoadWord;
    hide Pow2;
    ZeroRemainder(Pow2(8 * size));
    TwoLines(env, LoadMemory(size), Push(RBX), d);
  }

  lemma LoadBlock(env: Env, size: nat, d: Data)
    ensures AllStraight(IntrinsicCode(Load(size))) && Correct(env, Load(size), d)
  {
    hide ExecBlock;
    hide ExecLine;
    hide LoadWord;
    var n := |d.stack|;
    var a, b := [Comment, Pop(RAX), Compute(XorTo, RBX, RBX)], [LoadMemory(size), Push(RBX)];
    assert a + b == IntrinsicCode(Load(size));
    LoadFront(env, d);
    LoadBack(env, size, d.(rax := if n < 1 then 0 else d.stack[n-1], stack := if n < 1 then [] else d.stack[..n-1],
                           rbx := 0, zero := true, carry := false));
    BlockConcat(env, a, b, d);
  }

  lemma ZeroRemainder(m: nat)
    requires m >= 1
    ensures 0 % m == 0
  {
  }

  lemma StoreBlock(env: Env, size: nat, d: Data)
    ensures AllStraight(IntrinsicCode(Store(size))) && Correct(env, Store(size), d)
  {
    hide ExecBlock;
    hide StoreWord;
    var n := |d.stack|;
    var a, b := [Comment, Pop(RBX), Pop(RAX)], [StoreMemory(size)];
    assert a + b == IntrinsicCode(Store(size));
    BlockConcat(env, a, b, d);
    PopTwo(env, d);
    if n >= 2 {
      OneLine(env, StoreMemory(size), Popped(d));
    }
  }

  lemma TopBlock(env: Env, d: Data)
    ensures AllStraight(IntrinsicCode(Top)) && Correct(env, Top, d)
  {
    hide ExecBlock;
    TwoLines(env, Comment, PushRsp, d);
  }

  lemma ArgumentBlock(env: Env, i: Intrinsic, d: Data)
    requires i in {Argc, Argv}
    ensures AllStraight(IntrinsicCode(i)) && Correct(env, i, d)
  {
    hide ExecBlock;
    var line := if i == Argc then MovArgc else MovArgv;
    TwoLines(env, Comment, line, d);
    ThreeLines(env, Comment, line, Push(RAX), d);
  }

  lemma Random64Block(env: Env, d: Data)
    ensures AllStraight(IntrinsicCode(Random64)) && Correct(env, Random64, d)
  {
    hide ExecBlock;
    TwoLines(env, Comment, Rdrand64, d);
    ThreeLines(env, Comment, Rdrand64, Push(RAX), d);
  }

  lemma Random32Block(env: Env, d: Data)
    ensures AllStraight(IntrinsicCode(Random32)) && Correct(env, Random32, d)
  {
    hide ExecBlock;
    var a, b := [Comment, Compute(XorTo, RAX, RAX)], [Rdrand32, Push(RAX)];
    assert a + b == IntrinsicCode(Random32);
    BlockConcat(env, a, b, d);
    Clear(env, RAX, d);
    TwoLines(env, Rdrand32, Push(RAX), d.(rax := 0, zero := true, carry := false));
  }

  lemma GetPut(d: Data, r: Reg, v: Word, r': Reg)
    ensures Get(Put(d, r, v), r') == if r' == r then v else Get(d, r')
    ensures Put(d, r, v).stack == d.stack && Put(d, r, v).world == d.world
    ensures Put(d, r, v).calls == d.calls && Put(d, r, v).callptr == d.callptr
  {
  }

  lemma DistinctRegisters(i: nat, j: nat)
    requires i < 7 && j < 7 && i != j
    ensures POPPED[i] != POPPED[j]
  {
  }

  /** The topmost `k` words of `st` have been popped into the first `k` registers. */
  ghost predicate Loaded(st: seq<Word>, k: nat, d: Data, d': Data)
    requires k <= |st| && k <= 7
  {
    && d'.stack == st[..|st|-k] && d'.world == d.world && d'.calls == d.calls && d'.callptr == d.callptr
    && forall i :: 0 <= i < k ==> Get(d', POPPED[i]) == st[|st|-1-i]
  }

  lemma PopNext(env: Env, k: nat, d: Data, d1: Data)
    requires k < 7 && k <= |d.stack| && Loaded(d.stack, k, d, d1)
    ensures var r := ExecLine(env, Pop(POPPED[k]), d1);
      if |d.stack| < k + 1 then r == Trapped(TrapStop(Underflow), d.world)
          else r.Done? && Loaded(d.stack, k + 1, d, r.d)
  {
    hide Get;
    hide Put;
    var st := d.stack;
    var n := |st|;
    if n >= k + 1 {
      assert st[..n-k][..n-k-1] == st[..n-k-1];
      var d2, r := d1.(stack := st[..n-k-1]), POPPED[k];
      var v := st[n-k-1];
      forall i | 0 <= i < k + 1
        ensures Get(Put(d2, r, v), POPPED[i]) == st[n-1-i]
      {
        GetPut(d2, r, v, POPPED[i]);
        SameRegister(d1, d2, POPPED[i]);
        if i < k {
          DistinctRegisters(i, k);
        }
      }
      GetPut(d2, r, v, RAX);
    }
  }

  lemma {:induction false} SyscallPopsRun(env: Env, k: nat, d: Data)
    requires k <= 7
    ensures AllStraight(Pops(k))
    ensures var r := ExecBlock(env, Pops(k), d);
      if |d.stack| < k then r == Trapped(TrapStop(Underflow), d.world) else r.Done? && Loaded(d.stack, k, d, r.d)
    decreases k
  {
    if k == 0 {
      assert Pops(0) == [];
    } else {
      hide ExecBlock;
      hide ExecLine;
      hide Loaded;
      var last := Pop(POPPED[k - 1]);
      assert Pops(k) == Pops(k - 1) + [last];
      SyscallPopsRun(env, k - 1, d);
      BlockConcat(env, Pops(k - 1), [last], d);
      if |d.stack| >= k - 1 {
        var d1 := ExecBlock(env, Pops(k - 1), d).d;
        OneLine(env, last, d1);
        PopNext(env, k - 1, d, d1);
      }
    }
  }

  lemma SameRegister(d: Data, d': Data, r: Reg)
    requires d' == d.(stack := d'.stack)
    ensures Get(d', r) == Get(d, r)
  {
  }

  lemma SyscallBlock(env: Env, count: nat, d: Data)
    requires count <= 6
    ensures AllStraight(IntrinsicCode(Syscall(count))) && Correct(env, Syscall(count), d)
  {
    hide ExecBlock;
    hide ExecLine;
    hide Get;
    hide Pops;
    var n := |d.stack|;
    var pops := Pops(count + 1);
    SyscallPopsRun(env, count + 1, d);
    BlockConcat(env, [Comment], pops, d);
    CommentDoesNothing(env, d);
    BlockConcat(env, [Comment] + pops, [SyscallLine(count), Push(RAX)], d);
    if n >= count + 1 {
      var d1 := ExecBlock(env, pops, d).d;
      SyscallTail(env, count, d1);
      LoadedArguments(count, d, d1);
    }
  }

  lemma CommentDoesNothing(env: Env, d: Data)
    ensures ExecBlock(env, [Comment], d) == Done(d)
  {
    OneLine(env, Comment, d);
  }

  lemma LoadedArguments(count: nat, d: Data, d1: Data)
    requires count <= 6 && count + 1 <= |d.stack| && Loaded(d.stack, count + 1, d, d1)
    ensures SyscallArguments(d1, count) == d.stack[|d.stack|-count-1..]
  {
    hide Get;
    hide SyscallArguments;
    var n := |d.stack|;
    forall i | 0 <= i < count + 1
      ensures SyscallArguments(d1, count)[i] == d.stack[n-count-1..][i]
    {
      ArgumentRegister(d1, count, i);
      assert Get(d1, POPPED[count - i]) == d.stack[n-1-(count - i)];
    }
  }

  lemma ArgumentRegister(d: Data, count: nat, i: nat)
    requires i <= count <= 6
    ensures SyscallArguments(d, count)[i] == Get(d, POPPED[count - i])
  {
  }

  lemma SyscallTail(env: Env, count: nat, d: Data)
    requires count <= 6
    ensures var (v, w) := env.syscall(SyscallArguments(d, count), d.world);
      ExecBlock(env, [SyscallLine(count), Push(RAX)], d) == Done(d.(rax := v, world := w, stack := d.stack + [v]))
  {
    hide ExecBlock;
    hide SyscallArguments;
    TwoLines(env, SyscallLine(count), Push(RAX), d);
  }

  /** Every block emitted for an intrinsic does what the intrinsic means, on every stack and world. */
  lemma IntrinsicBlock(env: Env, i: Intrinsic, d: Data)
    requires Emittable(i) && !i.Call?
    ensures AllStraight(IntrinsicCode(i))
    ensures Realises(ExecBlock(env, IntrinsicCode(i), d), d, ApplyIntrinsic(env, i, d.stack, d.world))
  {
    hide Realises;
    hide ExecBlock;
    hide ApplyIntrinsic;
    match i
    case Binary(op) => BinaryBlock(env, op, d);
    case Shuffle(s) => ShuffleBlock(env, s, d);
    case DivMod => DivModBlock(env, d);
    case BooleanNegate => NegateBlock(env, d);
    case Load(size) => LoadBlock(env, size, d);
    case Store(size) => StoreBlock(env, size, d);
    case Random32 => Random32Block(env, d);
    case Syscall(count) => SyscallBlock(env, count, d);
    case Top => TopBlock(env, d);
    case Random64 => Random64Block(env, d);
    case _ => ArgumentBlock(env, i, d);
  }
}
