/** Running the listings: labels resolved within a function, calls and returns through addresses. */
module Processor {
  import opened Wrappers
  import opened Words
  import opened Machine
  import opened Assembly
  import opened Codegen
  import opened Listing

  type Code = map<FunctionRef, seq<Line>>

  /** Where the assembler and linker put each line. */
  datatype Layout = Layout(address: (FunctionRef, nat) -> Word, locate: Word -> Option<(FunctionRef, nat)>)

  datatype AsmStop = Ended(why: Stop) | Stray | Wild

  datatype Asm =
    | AsmRunning(f: FunctionRef, line: nat, d: Data)
    | AsmStopped(stop: AsmStop, stack: seq<Word>, world: World)

  function Stopping(t: Trap, stack: seq<Word>, world: World): Asm {
    match t
    case TrapStop(why) => AsmStopped(Ended(why), stack, world)
    case StrayAccess => AsmStopped(Stray, stack, world)
    case WildJump => AsmStopped(Wild, stack, world)
  }

  function GotoLabel(code: Code, f: FunctionRef, t: nat, d: Data): Asm
    requires f in code
  {
    match FindLabel(code[f], t, 0)
    case None => AsmStopped(Wild, d.stack, d.world)
    case Some(k) => AsmRunning(f, k, d)
  }

  function GotoAddress(layout: Layout, code: Code, v: Word, d: Data): Asm {
    match layout.locate(v)
    case None => AsmStopped(Wild, d.stack, d.world)
    case Some((g, k)) => if g in code then AsmRunning(g, k, d) else AsmStopped(Wild, d.stack, d.world)
  }

  /** `call` pushes the address of the line behind it onto the data stack. */
  function PushReturn(layout: Layout, f: FunctionRef, line: nat, d: Data): Data {
    d.(stack := d.stack + [layout.address(f, line + 1)])
  }

  function AsmStep(env: Env, layout: Layout, code: Code, f: FunctionRef, line: nat, d: Data): Asm {
    if f !in code || line >= |code[f]| then AsmStopped(Wild, d.stack, d.world)
    else
      var l := code[f][line];
      if Straight(l) then
        match ExecLine(env, l, d)
        case Trapped(t, w) => Stopping(t, d.stack, w)
        case Done(d') => AsmRunning(f, line + 1, d')
      else
        match l
        case Jmp(t) => GotoLabel(code, f, t, d)
        case Jz(t) => if d.zero then GotoLabel(code, f, t, d) else AsmRunning(f, line + 1, d)
        case CallFunction(id) =>
          if Function(id) in code then AsmRunning(Function(id), 0, PushReturn(layout, f, line, d))
          else AsmStopped(Wild, d.stack, d.world)
        case CallRax => GotoAddress(layout, code, d.rax, PushReturn(layout, f, line, d))
        case Ret =>
          var n := |d.stack|;
          if n < 1 then AsmStopped(Ended(Underflow), d.stack, d.world)
          else GotoAddress(layout, code, d.stack[n-1], d.(stack := d.stack[..n-1]))
        case ExitProcess => AsmStopped(Ended(Exit), d.stack, d.world)
  }

  function AsmRun(env: Env, layout: Layout, code: Code, a: Asm, n: nat): Asm
    decreases n
  {
    if n == 0 || a.AsmStopped? then a else AsmRun(env, layout, code,
        AsmStep(env, layout, code, a.f, a.line, a.d), n - 1)
  }

  lemma {:induction false} AsmRunAdd(env: Env, layout: Layout, code: Code, a: Asm, m: nat, n: nat)
    ensures AsmRun(env, layout, code, a, m + n) == AsmRun(env, layout, code, AsmRun(env, layout, code, a, m), n)
    decreases m
  {
    hide AsmStep;
    if m > 0 && a.AsmRunning? {
      AsmRunAdd(env, layout, code, AsmStep(env, layout, code, a.f, a.line, a.d), m - 1, n);
    }
  }

  lemma AsmRunZero(env: Env, layout: Layout, code: Code, a: Asm)
    ensures AsmRun(env, layout, code, a, 0) == a
  {
  }

  lemma AsmOneStep(env: Env, layout: Layout, code: Code, f: FunctionRef, line: nat, d: Data)
    ensures AsmRun(env, layout, code, AsmRunning(f, line, d), 1) == AsmStep(env, layout, code, f, line, d)
  {
    hide AsmStep;
    var a := AsmStep(env, layout, code, f, line, d);
    assert AsmRun(env, layout, code, a, 0) == a;
  }

  /** `block` is the listing of `f` from `line` on. */
  ghost predicate LinesHere(code: Code, f: FunctionRef, line: nat, block: seq<Line>) {
    f in code && line + |block| <= |code[f]| && code[f][line..line + |block|] == block
  }

  lemma HereParts(code: Code, f: FunctionRef, line: nat, a: seq<Line>, b: seq<Line>)
    requires LinesHere(code, f, line, a + b)
    ensures LinesHere(code, f, line, a) && LinesHere(code, f, line + |a|, b)
  {
    var whole := code[f][line..line + |a + b|];
    assert whole[..|a|] == a && whole[|a|..] == b;
    assert code[f][line..line + |a|] == whole[..|a|];
    assert code[f][line + |a|..line + |a| + |b|] == whole[|a|..];
  }

  lemma HereFirst(code: Code, f: FunctionRef, line: nat, block: seq<Line>)
    requires LinesHere(code, f, line, block) && block != []
    ensures line < |code[f]| && code[f][line] == block[0]
    ensures LinesHere(code, f, line + 1, block[1..])
  {
    assert block == [block[0]] + block[1..];
    HereParts(code, f, line, [block[0]], block[1..]);
    assert code[f][line..line + 1][0] == code[f][line];
  }

  /** How a straight block ends, seen from the processor. */
  ghost predicate BlockEnds(r: Asm, f: FunctionRef, line: nat, e: Exec) {
    match e
    case Done(d) => r == AsmRunning(f, line, d)
    case Trapped(t, w) =>
      && r.AsmStopped? && r.world == w
      && r.stop == (match t case TrapStop(why) => Ended(why) case StrayAccess => Stray case WildJump => Wild)
  }

  /** The processor runs straight code as `ExecBlock` does, one line a step. */
  lemma {:induction false} RunStraight(env: Env, layout: Layout, code: Code, f: FunctionRef, line: nat,
      block: seq<Line>, d: Data)
    requires LinesHere(code, f, line, block) && AllStraight(block)
    ensures BlockEnds(AsmRun(env, layout, code, AsmRunning(f, line, d), |block|), f, line + |block|,
        ExecBlock(env, block, d))
    decreases |block|
  {
    hide ExecLine;
    if block != [] {
      HereFirst(code, f, line, block);
      match ExecLine(env, block[0], d)
      case Trapped(_, _) =>
      case Done(d') => RunStraight(env, layout, code, f, line + 1, block[1..], d');
    }
  }
}
