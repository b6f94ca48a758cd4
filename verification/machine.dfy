/**
 The operation machine: a data stack of 64-bit words, one instruction index per active call,
 and the outside world (memory, system calls, random numbers).
 */
module Machine {
  import opened Wrappers
  import opened Words
  import opened Operations

  datatype FunctionRef = Main | Function(id: nat)

  type Program = map<FunctionRef, seq<Operation>>

  datatype World = World(memory: map<int, int>, log: seq<seq<Word>>)

  /** Everything the operating system, the loader and the processor decide. */
  datatype Env = Env(
    argc: Word,
    argv: Word,
    stackAddress: nat -> Word,
    symbol: Symbol -> Word,
    resolve: Word -> Option<nat>,
    syscall: (seq<Word>, World) -> (Word, World),
    random: World -> (Word, World))

  datatype Frame = Frame(f: FunctionRef, ip: nat)

  /** `callers` holds the return points, innermost last. */
  datatype Config = Config(cur: Frame, callers: seq<Frame>, stack: seq<Word>, world: World)

  datatype Stop = Exit | Underflow | DivideFault | BadJump | BadCall

  datatype State = Running(config: Config) | Stopped(why: Stop, stack: seq<Word>, world: World)

  datatype Effect = Continue(stack: seq<Word>, world: World) | Fault(why: Stop)

  function Body(p: Program, f: FunctionRef): seq<Operation> {
    if f in p then p[f] else []
  }

  // ----- single operations -----

  /** The permutation a stack word performs, on stacks of any element type; top of stack last. */
  function ShuffleStack<T>(s: ShuffleOp, st: seq<T>): Option<seq<T>> {
    var n := |st|;
    match s
    case Drop => if n < 1 then None else Some(st[..n-1])
    case TwoDrop => if n < 2 then None else Some(st[..n-2])
    case Dup => if n < 1 then None else Some(st + [st[n-1]])
    case Over => if n < 2 then None else Some(st + [st[n-2]])
    case TwoDup => if n < 2 then None else Some(st + [st[n-2], st[n-1]])
    case TwoOver => if n < 4 then None else Some(st + [st[n-4], st[n-3]])
    case Swap => if n < 2 then None else Some(st[..n-2] + [st[n-1], st[n-2]])
    case Tuck => if n < 2 then None else Some(st[..n-2] + [st[n-1], st[n-2], st[n-1]])
    case Rot => if n < 3 then None else Some(st[..n-3] + [st[n-2], st[n-1], st[n-3]])
    case TwoSwap => if n < 4 then None else Some(st[..n-4] + [st[n-2], st[n-1], st[n-4], st[n-3]])
  }

  function MapStack<T, U>(f: T -> U, st: seq<T>): (r: seq<U>)
    ensures |r| == |st|
  {
    seq(|st|, i requires 0 <= i < |st| => f(st[i]))
  }

  /** Stack words do not look at what they move. */
  lemma ShuffleNatural<T, U>(f: T -> U, s: ShuffleOp, st: seq<T>)
    ensures ShuffleStack(s, MapStack(f, st)) ==
      match ShuffleStack(s, st)
      case None => None
      case Some(r) => Some(MapStack(f, r))
  {
    var r, r' := ShuffleStack(s, st), ShuffleStack(s, MapStack(f, st));
    if r.Some? {
      assert r'.value == MapStack(f, r.value);
    }
  }

  /** Nor at what lies below their operands. */
  lemma ShuffleFramed<T>(s: ShuffleOp, base: seq<T>, st: seq<T>)
    requires ShuffleStack(s, st).Some?
    ensures ShuffleStack(s, base + st) == Some(base + ShuffleStack(s, st).value)
  {
    assert ShuffleStack(s, base + st).value == base + ShuffleStack(s, st).value;
  }

  function Byte(memory: map<int, int>, address: int): int {
    if address in memory then memory[address] else 0
  }

  /** Little-endian value of `n` bytes. */
  function LoadBytes(memory: map<int, int>, address: int, n: nat): int
    decreases n
  {
    if n == 0 then 0 else Byte(memory, address) + 256 * LoadBytes(memory, address + 1, n - 1)
  }

  function StoreBytes(memory: map<int, int>, address: int, n: nat, value: int): map<int, int>
    decreases n
  {
    if n == 0 then memory
    else StoreBytes(memory[address := value % 256], address + 1, n - 1, value / 256)
  }

  function LoadWord(world: World, size: nat, address: Word): Word {
    Wrap(LoadBytes(world.memory, address, size))
  }

  function StoreWord(world: World, size: nat, address: Word, value: Word): World {
    world.(memory := StoreBytes(world.memory, address, size, value))
  }

  /** Every intrinsic but `call`, which needs the program. */
  function ApplyIntrinsic(env: Env, i: Intrinsic, st: seq<Word>, world: World): Effect
    requires !i.Call?
  {
    var n := |st|;
    match i
    case Binary(op) =>
      if n < 2 then Fault(Underflow)
      else (match MachineBinary(op, st[n-2], st[n-1])
            case None => Fault(DivideFault)
            case Some(v) => Continue(st[..n-2] + [v], world))
    case Shuffle(s) =>
      (match ShuffleStack(s, st)
       case None => Fault(Underflow)
       case Some(st') => Continue(st', world))
    case DivMod =>
      if n < 2 then Fault(Underflow)
      else if st[n-1] == 0 then Fault(DivideFault)
      else Continue(st[..n-2] + [st[n-2] % st[n-1], Quotient(st[n-2], st[n-1])], world)
    case BooleanNegate =>
      if n < 1 then Fault(Underflow) else Continue(st[..n-1] + [FromBool(st[n-1] == 0)], world)
    case Load(size) =>
      if n < 1 then Fault(Underflow) else Continue(st[..n-1] + [LoadWord(world, size, st[n-1])], world)
    case Store(size) =>
      if n < 2 then Fault(Underflow) else Continue(st[..n-2], StoreWord(world, size, st[n-2], st[n-1]))
    case Top => Continue(st + [env.stackAddress(n)], world)
    case Argc => Continue(st + [env.argc], world)
    case Argv => Continue(st + [env.argv], world)
    case Random32 =>
      var (v, world') := env.random(world);
      Continue(st + [v % 0x1_0000_0000], world')
    case Random64 =>
      var (v, world') := env.random(world);
      Continue(st + [v], world')
    case Syscall(count) =>
      if n < count + 1 then Fault(Underflow)
      else
        var (v, world') := env.syscall(st[n-count-1..], world);
        Continue(st[..n-count-1] + [v], world')
  }

  /** Operations that stay in the current frame and fall through to the next index. */
  predicate IsLocal(p: Plain) {
    !p.Return? && !p.CallSymbol? && !(p.Intrinsic? && p.intrinsic.Call?)
  }

  function ApplyPlain(env: Env, p: Plain, st: seq<Word>, world: World): Effect
    requires IsLocal(p)
  {
    match p
    case PushInt(v, _) => Continue(st + [v], world)
    case PushSymbol(s) => Continue(st + [env.symbol(s)], world)
    case Cast(_) => Continue(st, world)
    case Intrinsic(i) => ApplyIntrinsic(env, i, st, world)
  }

  // ----- steps -----

  function Goto(c: Config, ip: nat): State {
    Running(c.(cur := c.cur.(ip := ip)))
  }

  function FollowJump(c: Config, j: Jump): State {
    match j
    case NoJump => Stopped(BadJump, c.stack, c.world)
    case To(t) => Goto(c, t)
  }

  function Enter(p: Program, c: Config, id: nat): State {
    if Function(id) in p then
      Running(c.(cur := Frame(Function(id), 0), callers := c.callers + [c.cur.(ip := c.cur.ip + 1)]))
    else
      Stopped(BadCall, c.stack, c.world)
  }

  function Leave(c: Config): State {
    if c.callers == [] then Stopped(Exit, c.stack, c.world)
    else Running(c.(cur := c.callers[|c.callers|-1], callers := c.callers[..|c.callers|-1]))
  }

  function StepPlain(env: Env, p: Program, op: Plain, c: Config): State {
    var n := |c.stack|;
    match op
    case Return => Goto(c, |Body(p, c.cur.f)|)
    case CallSymbol(id) => Enter(p, c, id)
    case PushInt(_, _) => StepLocal(env, op, c)
    case PushSymbol(_) => StepLocal(env, op, c)
    case Cast(_) => StepLocal(env, op, c)
    case Intrinsic(i) =>
      if i.Call? then
        if n < 1 then Stopped(Underflow, c.stack, c.world)
        else (match env.resolve(c.stack[n-1])
              case None => Stopped(BadCall, c.stack, c.world)
              case Some(id) => Enter(p, c.(stack := c.stack[..n-1]), id))
      else StepLocal(env, op, c)
  }

  function StepLocal(env: Env, op: Plain, c: Config): State
    requires IsLocal(op)
  {
    match ApplyPlain(env, op, c.stack, c.world)
    case Fault(why) => Stopped(why, c.stack, c.world)
    case Continue(st, world) => Running(Config(c.cur.(ip := c.cur.ip + 1), c.callers, st, world))
  }

  function StepOperation(env: Env, p: Program, op: Operation, c: Config): State {
    var n := |c.stack|;
    match op.kind
    case Plain(q) => StepPlain(env, p, q, c)
    case While => Goto(c, c.cur.ip + 1)
    case Else => FollowJump(c, op.jump)
    case End => FollowJump(c, op.jump)
    case If => Branch(c, op.jump)
    case Do => Branch(c, op.jump)
  }

  function Branch(c: Config, j: Jump): State {
    var n := |c.stack|;
    if n < 1 then Stopped(Underflow, c.stack, c.world)
    else
      var c' := c.(stack := c.stack[..n-1]);
      if c.stack[n-1] == 0 then FollowJump(c', j) else Goto(c', c.cur.ip + 1)
  }

  function Step(env: Env, p: Program, c: Config): State {
    var body := Body(p, c.cur.f);
    if c.cur.ip < |body| then StepOperation(env, p, body[c.cur.ip], c)
    else if c.cur.ip == |body| then Leave(c)
    else Stopped(BadJump, c.stack, c.world)
  }

  // ----- runs -----

  function Run(env: Env, p: Program, s: State, n: nat): State
    decreases n
  {
    if n == 0 || s.Stopped? then s else Run(env, p, Step(env, p, s.config), n - 1)
  }

  lemma {:induction false} RunAdd(env: Env, p: Program, s: State, m: nat, n: nat)
    ensures Run(env, p, s, m + n) == Run(env, p, Run(env, p, s, m), n)
    decreases m
  {
    if m > 0 && s.Running? {
      RunAdd(env, p, Step(env, p, s.config), m - 1, n);
    }
  }

  /** Once stopped, a run stays where it is. */
  lemma RunStopped(env: Env, p: Program, s: State, m: nat, n: nat)
    requires m <= n && Run(env, p, s, m).Stopped?
    ensures Run(env, p, s, n) == Run(env, p, s, m)
  {
    RunAdd(env, p, s, m, n - m);
  }

  function Here(f: FunctionRef, ip: nat, callers: seq<Frame>, st: seq<Word>, world: World): State {
    Running(Config(Frame(f, ip), callers, st, world))
  }

  lemma RunZero(env: Env, p: Program, s: State)
    ensures Run(env, p, s, 0) == s
  {
  }

  lemma OneStep(env: Env, p: Program, c: Config)
    ensures Run(env, p, Running(c), 1) == Step(env, p, c)
  {
    assert Run(env, p, Step(env, p, c), 0) == Step(env, p, c);
  }

  function Start(stack: seq<Word>, world: World): State {
    Running(Config(Frame(Main, 0), [], stack, world))
  }

  // ----- observations -----

  /** What the outside sees of a run: the world so far and, once it has stopped, how and with which stack. */
  datatype Observation = Observation(stopped: Option<(Stop, seq<Word>)>, world: World)

  function Observe(s: State): Observation {
    match s
    case Running(c) => Observation(None, c.world)
    case Stopped(why, stack, world) => Observation(Some((why, stack)), world)
  }

  /** Some moment of the run from `s` looks like `o`. */
  ghost predicate Seen(env: Env, p: Program, s: State, o: Observation) {
    exists n: nat :: Observe(Run(env, p, s, n)) == o
  }

  /** Everything seen of `p` from `s` is also seen of `p'` from `s'`. */
  ghost predicate Includes(env: Env, p: Program, s: State, p': Program, s': State) {
    forall n: nat :: Seen(env, p', s', Observe(Run(env, p, s, n)))
  }

  ghost predicate SameObservations(env: Env, p: Program, s: State, p': Program, s': State) {
    Includes(env, p, s, p', s') && Includes(env, p', s', p, s)
  }

  /** Two programs no starting stack and no world can tell apart, diverging runs included. */
  ghost predicate Equivalent(env: Env, p: Program, p': Program) {
    forall stack, world :: SameObservations(env, p, Start(stack, world), p', Start(stack, world))
  }
}
