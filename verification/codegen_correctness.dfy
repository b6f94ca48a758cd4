/**
 The generated code simulates the operation machine: same data stack, same world, every return back to
 its own call, as long as no more than 1024 calls are active. The 1025th stores its return address over
 the call pointer; its callee still runs, but neither its return nor a further call finds the call stack.
 */
module CodegenCorrectness {
  import opened Wrappers
  import opened Words
  import opened Operations
  import opened Machine
  import opened Assembly
  import opened Codegen
  import opened Listing
  import opened Processor

  // ----- programs, code and environments that fit -----

  /** Every body is linkable and calls only functions of the program. */
  ghost predicate Generable(p: Program) {
    Main in p && forall f :: f in p ==> Linkable(p[f]) && CallsDefined(p, p[f])
  }

  predicate CallsDefined(p: Program, body: seq<Operation>) {
    forall k :: 0 <= k < |body| && body[k].kind.Plain? && body[k].kind.plain.CallSymbol? ==>
        Function(body[k].kind.plain.id) in p
  }

  ghost function GeneratedCode(p: Program): (code: Code)
    requires Generable(p)
    ensures code.Keys == p.Keys
  {
    map f | f in p :: FunctionLines(f, p[f])
  }

  /** Lines the assembler turns into no bytes, so that they share the address of what follows. */
  predicate Silent(l: Line) {
    l.Comment? || l.Label?
  }

  /** Line `k` of `f` starts at an address of its own: the first line, or one behind an instruction. */
  ghost predicate Addressed(p: Program, f: FunctionRef, k: nat)
    requires Generable(p)
  {
    var code := GeneratedCode(p);
    f in code && k < |code[f]| && (k == 0 || !Silent(code[f][k-1]))
  }

  /** Addressed lines have distinct addresses, and an address resolves to the function it is the first line of. */
  ghost predicate Fits(env: Env, layout: Layout, p: Program) {
    && Generable(p)
    && (forall f, k: nat :: Addressed(p, f, k) ==> layout.locate(layout.address(f, k)) == Some((f, k)))
    && (forall v :: env.resolve(v) == EntryAt(layout, p, v))
  }

  ghost function EntryAt(layout: Layout, p: Program, v: Word): Option<nat> {
    match layout.locate(v)
    case None => None
    case Some((f, k)) => if f.Function? && f in p && k == 0 then Some(f.id) else None
  }

  // ----- matching states -----

  ghost predicate FrameLine(p: Program, fr: Frame) {
    fr.f in p && Linkable(p[fr.f]) && fr.ip <= |p[fr.f]|
  }

  ghost function ReturnAddress(layout: Layout, p: Program, fr: Frame): Word
    requires FrameLine(p, fr)
  {
    layout.address(fr.f, LineOf(fr.f, p[fr.f], fr.ip))
  }

  ghost predicate Resumes(p: Program, fr: Frame) {
    FrameLine(p, fr) && Generable(p) && Addressed(p, fr.f, LineOf(fr.f, p[fr.f], fr.ip))
  }

  /**
   The call stack holds the return address of every caller, outermost first; the 1025th has gone into
   the call pointer and been counted up.
   */
  ghost predicate CallsMatch(layout: Layout, p: Program, callers: seq<Frame>, d: Data) {
    && |d.calls| == CALL_STACK_SIZE && |callers| <= CALL_STACK_SIZE + 1
    && (forall i :: 0 <= i < |callers| ==> Resumes(p, callers[i]) && (callers[i].f == Main <==> i == 0))
    && (forall i :: 0 <= i < |callers| && i < CALL_STACK_SIZE ==> d.calls[i] == ReturnAddress(layout, p, callers[i]))
    && (|callers| <= CALL_STACK_SIZE ==> d.callptr == |callers|)
    && (|callers| > CALL_STACK_SIZE ==> d.callptr == Wrap(ReturnAddress(layout, p, callers[CALL_STACK_SIZE]) + 1))
  }

  ghost predicate DataMatches(layout: Layout, p: Program, c: Config, d: Data) {
    d.stack == c.stack && d.world == c.world && CallsMatch(layout, p, c.callers, d)
        && (c.cur.f == Main <==> c.callers == [])
  }

  ghost predicate Matches(layout: Layout, p: Program, c: Config, a: Asm) {
    && FrameLine(p, c.cur)
    && a.AsmRunning? && a.f == c.cur.f && a.line == LineOf(c.cur.f, p[c.cur.f], c.cur.ip)
    && DataMatches(layout, p, c, a.d)
  }

  /** How the processor shows a state of the machine. */
  ghost predicate Shows(layout: Layout, p: Program, s: State, a: Asm) {
    match s
    case Running(c) => Matches(layout, p, c, a)
    case Stopped(why, st, world) =>
      a.AsmStopped? && a.stop == Ended(why) && a.world == world && (why == Exit ==> a.stack == st)
  }

  // ----- one operation -----

  /** About to run the lines of operation `c.cur.ip`, its label passed. */
  ghost predicate Poised(layout: Layout, p: Program, c: Config, line: nat, d: Data) {
    && Generable(p) && FrameLine(p, c.cur) && c.cur.ip < |p[c.cur.f]| && DataMatches(layout, p, c, d)
    && var block := Emit(p[c.cur.f], c.cur.ip);
       && line + |block| == LineOf(c.cur.f, p[c.cur.f], c.cur.ip + 1)
       && LinesHere(GeneratedCode(p), c.cur.f, line, block)
  }

  lemma OperationHere(p: Program, f: FunctionRef, ip: nat)
    requires Generable(p) && f in p && ip < |p[f]|
    ensures LinesHere(GeneratedCode(p), f, LineOf(f, p[f], ip), OperationLines(p[f], ip))
    ensures LineOf(f, p[f], ip) + |OperationLines(p[f], ip)| == LineOf(f, p[f], ip + 1)
  {
    hide OperationLines;
    hide LineOf;
    hide FunctionLines;
    LinesAt(f, p[f], ip);
  }

  lemma LabelDoesNothing(env: Env, t: nat, d: Data)
    ensures ExecBlock(env, [Label(t)], d) == Done(d)
  {
    OneLine(env, Label(t), d);
  }

  lemma PassLabel(env: Env, layout: Layout, code: Code, f: FunctionRef, line: nat, t: nat, d: Data)
    requires LinesHere(code, f, line, [Label(t)])
    ensures AsmRun(env, layout, code, AsmRunning(f, line, d), 1) == AsmRunning(f, line + 1, d)
  {
    hide ExecBlock;
    hide AsmRun;
    assert AllStraight([Label(t)]);
    RunStraight(env, layout, code, f, line, [Label(t)], d);
    LabelDoesNothing(env, t, d);
  }

  /** The lines of the operation at `c.cur.ip` follow its label, if it has one. */
  lemma AtOperation(env: Env, layout: Layout, p: Program, c: Config, a: Asm) returns (m: nat, line: nat)
    requires Generable(p) && Matches(layout, p, c, a) && c.cur.ip < |p[c.cur.f]|
    ensures Poised(layout, p, c, line, a.d)
    ensures AsmRun(env, layout, GeneratedCode(p), a, m) == AsmRunning(c.cur.f, line, a.d)
  {
    hide Emit;
    hide LineOf;
    hide GeneratedCode;
    hide LinesHere;
    hide CallsMatch;
    hide Targets;
    var f, body, ip := c.cur.f, p[c.cur.f], c.cur.ip;
    var code, block := GeneratedCode(p), Emit(body, ip);
    OperationHere(p, f, ip);
    if ip in Targets(body) {
      HereParts(code, f, a.line, [Label(ip)], block);
      PassLabel(env, layout, code, f, a.line, ip, a.d);
      m, line := 1, a.line + 1;
    } else {
      assert [] + block == block;
      m, line := 0, a.line;
    }
  }

  // ----- straight operations -----

  lemma LocalBlock(env: Env, body: seq<Operation>, ip: nat, q: Plain, d: Data)
    requires Linkable(body) && ip < |body| && body[ip].kind == Plain(q) && IsLocal(q)
    ensures AllStraight(Emit(body, ip)) && Emit(body, ip) != []
    ensures Realises(ExecBlock(env, Emit(body, ip), d), d, ApplyPlain(env, q, d.stack, d.world))
  {
    hide ExecBlock;
    match q
    case PushInt(v, _) =>
      TwoLines(env, Comment, MovImm(v), d);
      ThreeLines(env, Comment, MovImm(v), Push(RAX), d);
    case PushSymbol(s) =>
      TwoLines(env, Comment, PushAddress(s), d);
    case Cast(_) =>
      CommentDoesNothing(env, d);
    case Intrinsic(i) =>
      IntrinsicNotEmpty(i);
      hide IntrinsicCode;
      IntrinsicBlock(env, i, d);
  }

  lemma IntrinsicNotEmpty(i: Intrinsic)
    requires Emittable(i) && !i.Call?
    ensures IntrinsicCode(i) != []
  {
  }

  lemma LocalFaults(env: Env, q: Plain, st: seq<Word>, world: World)
    requires IsLocal(q)
    ensures var e := ApplyPlain(env, q, st, world); e.Fault? ==> e.why != Exit
  {
    hide MachineBinary;
    hide ShuffleStack;
  }

  lemma LocalSimulated(env: Env, layout: Layout, p: Program, c: Config, line: nat, d: Data, q: Plain) returns (m: nat)
    requires Poised(layout, p, c, line, d)
    requires p[c.cur.f][c.cur.ip].kind == Plain(q) && IsLocal(q)
    ensures m >= 1
    ensures Shows(layout, p, StepLocal(env, q, c),
        AsmRun(env, layout, GeneratedCode(p), AsmRunning(c.cur.f, line, d), m))
  {
    hide Emit;
    hide ExecBlock;
    hide LinesHere;
    hide LineOf;
    hide GeneratedCode;
    hide ApplyPlain;
    hide AsmRun;
    hide Linkable;
    var f, block := c.cur.f, Emit(p[c.cur.f], c.cur.ip);
    LocalBlock(env, p[f], c.cur.ip, q, d);
    LocalFaults(env, q, c.stack, c.world);
    RunStraight(env, layout, GeneratedCode(p), f, line, block, d);
    m := |block|;
  }

  // ----- jumps -----

  /** Jumping to a label is jumping to its operation. */
  lemma JumpLands(p: Program, f: FunctionRef, t: nat, d: Data)
    requires Generable(p) && f in p && t <= |p[f]| && (t in Targets(p[f]) || t == |p[f]|)
    ensures GotoLabel(GeneratedCode(p), f, t, d) == AsmRunning(f, LineOf(f, p[f], t), d)
  {
    hide FunctionLines;
    hide Targets;
    hide LineOf;
    LabelPlaced(f, p[f], t);
    FindsLabel(FunctionLines(f, p[f]), t, 0, LineOf(f, p[f], t));
  }

  lemma TargetListed(body: seq<Operation>, k: nat)
    requires k < |body| && HasTarget(body[k])
    ensures body[k].jump.target in Targets(body)
  {
  }

  /** Straight lines, then one line that is not. */
  lemma ThenLast(env: Env, layout: Layout, code: Code, f: FunctionRef, line: nat, front: seq<Line>, last: Line,
      d: Data, d': Data)
    requires LinesHere(code, f, line, front + [last]) && AllStraight(front) && ExecBlock(env, front, d) == Done(d')
    ensures AsmRun(env, layout, code, AsmRunning(f, line, d), |front| + 1)
        == AsmStep(env, layout, code, f, line + |front|, d')
    ensures f in code && line + |front| < |code[f]| && code[f][line + |front|] == last
  {
    hide AsmStep;
    hide AsmRun;
    hide ExecBlock;
    HereParts(code, f, line, front, [last]);
    RunStraight(env, layout, code, f, line, front, d);
    AsmRunAdd(env, layout, code, AsmRunning(f, line, d), |front|, 1);
    AsmOneStep(env, layout, code, f, line + |front|, d');
    HereFirst(code, f, line + |front|, [last]);
  }

  /** `[Comment, Jmp(t)]`. */
  lemma JumpSimulated(env: Env, layout: Layout, p: Program, c: Config, line: nat, d: Data, t: nat) returns (m: nat)
    requires Poised(layout, p, c, line, d)
    requires Emit(p[c.cur.f], c.cur.ip) == [Comment, Jmp(t)]
    requires t <= |p[c.cur.f]| && (t in Targets(p[c.cur.f]) || t == |p[c.cur.f]|)
    ensures m >= 1
    ensures Shows(layout, p, Goto(c, t), AsmRun(env, layout, GeneratedCode(p), AsmRunning(c.cur.f, line, d), m))
  {
    hide Emit;
    hide ExecBlock;
    hide LinesHere;
    hide LineOf;
    hide GeneratedCode;
    hide AsmRun;
    hide Linkable;
    hide Targets;
    hide GotoLabel;
    var f, code := c.cur.f, GeneratedCode(p);
    CommentDoesNothing(env, d);
    assert [Comment] + [Jmp(t)] == [Comment, Jmp(t)];
    ThenLast(env, layout, code, f, line, [Comment], Jmp(t), d, d);
    JumpLands(p, f, t, d);
    m := 2;
  }

  /** A lone comment. */
  lemma CommentSimulated(env: Env, layout: Layout, p: Program, c: Config, line: nat, d: Data) returns (m: nat)
    requires Poised(layout, p, c, line, d)
    requires Emit(p[c.cur.f], c.cur.ip) == [Comment]
    ensures m >= 1
    ensures Shows(layout, p, Goto(c, c.cur.ip + 1),
        AsmRun(env, layout, GeneratedCode(p), AsmRunning(c.cur.f, line, d), m))
  {
    hide Emit;
    hide ExecBlock;
    hide LinesHere;
    hide LineOf;
    hide GeneratedCode;
    hide AsmRun;
    hide Linkable;
    CommentDoesNothing(env, d);
    RunStraight(env, layout, GeneratedCode(p), c.cur.f, line, [Comment], d);
    m := 1;
  }

  /** `pop rax`, `test rax, rax`. */
  lemma TestBlock(env: Env, d: Data)
    ensures AllStraight([Comment, Pop(RAX), TestSelf(RAX)])
    ensures var n := |d.stack|;
      ExecBlock(env, [Comment, Pop(RAX), TestSelf(RAX)], d) ==
        if n < 1 then Trapped(TrapStop(Underflow), d.world)
        else Done(d.(rax := d.stack[n-1], stack := d.stack[..n-1], zero := d.stack[n-1] == 0, carry := false))
  {
    hide ExecBlock;
    TwoLines(env, Comment, Pop(RAX), d);
    ThreeLines(env, Comment, Pop(RAX), TestSelf(RAX), d);
  }

  lemma BranchSimulated(env: Env, layout: Layout, p: Program, c: Config, line: nat, d: Data, t: nat) returns (m: nat)
    requires Poised(layout, p, c, line, d)
    requires Emit(p[c.cur.f], c.cur.ip) == [Comment, Pop(RAX), TestSelf(RAX), Jz(t)]
    requires t <= |p[c.cur.f]| && t in Targets(p[c.cur.f])
    ensures m >= 1
    ensures Shows(layout, p, Branch(c, To(t)), AsmRun(env, layout, GeneratedCode(p), AsmRunning(c.cur.f, line, d), m))
  {
    hide Emit;
    hide ExecBlock;
    hide LinesHere;
    hide LineOf;
    hide GeneratedCode;
    hide AsmRun;
    hide Linkable;
    hide Targets;
    hide GotoLabel;
    var f, code, n := c.cur.f, GeneratedCode(p), |c.stack|;
    var front := [Comment, Pop(RAX), TestSelf(RAX)];
    assert front + [Jz(t)] == [Comment, Pop(RAX), TestSelf(RAX), Jz(t)];
    TestBlock(env, d);
    if n < 1 {
      HereParts(code, f, line, front, [Jz(t)]);
      RunStraight(env, layout, code, f, line, front, d);
      m := 3;
    } else {
      var d' := d.(rax := d.stack[n-1], stack := d.stack[..n-1], zero := d.stack[n-1] == 0, carry := false);
      ThenLast(env, layout, code, f, line, front, Jz(t), d, d');
      JumpLands(p, f, t, d');
      m := 4;
    }
  }

  // ----- calls -----

  /** What the prologue makes of a return address: saved, stored over the call pointer, or lost. */
  function Saved(d: Data, st: seq<Word>, v: Word): Exec {
    var d2 := d.(rax := v, rbx := d.callptr, stack := st);
    if d.callptr < |d.calls| then Done(d2.(calls := d.calls[d.callptr := v], callptr := Wrap(d.callptr + 1)))
    else if d.callptr == |d.calls| then Done(d2.(callptr := Wrap(v + 1)))
    else Trapped(StrayAccess, d.world)
  }

  /** The prologue moves the return address off the data stack. */
  lemma PrologueBlock(env: Env, id: nat, d: Data, st: seq<Word>, v: Word)
    requires d.stack == st + [v]
    ensures AllStraight(Prologue(Function(id)))
    ensures ExecBlock(env, Prologue(Function(id)), d) == Saved(d, st, v)
  {
    hide ExecBlock;
    hide ExecLine;
    hide Wrap;
    var d2 := d.(rax := v, stack := st, rbx := d.callptr);
    var a, b := [Comment, Pop(RAX), CallPointerToRbx], [SaveReturn, IncCallPointer];
    assert a + b == Prologue(Function(id));
    PrologueFront(env, d, st, v);
    PrologueBack(env, d2);
    BlockConcat(env, a, b, d);
  }

  lemma PrologueFront(env: Env, d: Data, st: seq<Word>, v: Word)
    requires d.stack == st + [v]
    ensures AllStraight([Comment, Pop(RAX), CallPointerToRbx])
    ensures ExecBlock(env, [Comment, Pop(RAX), CallPointerToRbx], d)
        == Done(d.(rax := v, stack := st, rbx := d.callptr))
  {
    hide ExecBlock;
    hide ExecLine;
    PopRax(env, d);
    assert d.stack[..|d.stack|-1] == st;
    var d1 := d.(rax := v, stack := st);
    OneLine(env, CallPointerToRbx, d1);
    CallPointerLine(env, d1);
    assert [Comment, Pop(RAX)] + [CallPointerToRbx] == [Comment, Pop(RAX), CallPointerToRbx];
    BlockConcat(env, [Comment, Pop(RAX)], [CallPointerToRbx], d);
  }

  lemma CallPointerLine(env: Env, d: Data)
    ensures ExecLine(env, CallPointerToRbx, d) == Done(d.(rbx := d.callptr))
  {
  }

  lemma PrologueBack(env: Env, d: Data)
    requires d.rbx == d.callptr
    ensures AllStraight([SaveReturn, IncCallPointer])
    ensures ExecBlock(env, [SaveReturn, IncCallPointer], d) == Saved(d, d.stack, d.rax)
  {
    hide ExecBlock;
    hide Wrap;
    TwoLines(env, SaveReturn, IncCallPointer, d);
  }

  lemma PrologueHere(p: Program, f: FunctionRef)
    requires Generable(p) && f in p
    ensures LinesHere(GeneratedCode(p), f, 0, Prologue(f))
    ensures LineOf(f, p[f], 0) == |Prologue(f)|
  {
    hide Prologue;
    hide Epilogue;
  }

  lemma SmallCount(n: nat)
    requires n <= CALL_STACK_SIZE + 1
    ensures Wrap(n) == n
  {
  }

  lemma CallPushed(layout: Layout, p: Program, callers: seq<Frame>, fr: Frame, d: Data, d1: Data)
    requires CallsMatch(layout, p, callers, d) && |callers| <= CALL_STACK_SIZE
    requires Resumes(p, fr) && (fr.f == Main <==> callers == [])
    requires var v := ReturnAddress(layout, p, fr); d1 == d.(stack := d.stack + [v])
    ensures var r := Saved(d1, d.stack, ReturnAddress(layout, p, fr));
      && r.Done? && CallsMatch(layout, p, callers + [fr], r.d)
      && r.d.stack == d.stack && r.d.world == d.world
  {
    hide Wrap;
    hide LineOf;
    hide Addressed;
    hide Linkable;
    hide Generable;
    SmallCount(|callers| + 1);
  }

  /** Entering a function with the return address on top of the data stack. */
  lemma Entered(env: Env, layout: Layout, p: Program, c: Config, id: nat, d: Data)
    requires Generable(p) && Function(id) in p && FrameLine(p, c.cur) && c.cur.ip < |p[c.cur.f]|
    requires |c.callers| <= CALL_STACK_SIZE && DataMatches(layout, p, c, d) && Resumes(p, Frame(c.cur.f, c.cur.ip + 1))
    ensures var back := Frame(c.cur.f, c.cur.ip + 1);
      var d1 := d.(stack := d.stack + [ReturnAddress(layout, p, back)]);
      Shows(layout, p, Enter(p, c, id), AsmRun(env, layout, GeneratedCode(p), AsmRunning(Function(id), 0, d1), 5))
  {
    hide ExecBlock;
    hide LinesHere;
    hide LineOf;
    hide GeneratedCode;
    hide AsmRun;
    hide Linkable;
    hide CallsMatch;
    hide Saved;
    hide ReturnAddress;
    hide Resumes;
    var back := Frame(c.cur.f, c.cur.ip + 1);
    var v := ReturnAddress(layout, p, back);
    var d1 := d.(stack := d.stack + [v]);
    PrologueHere(p, Function(id));
    PrologueBlock(env, id, d1, d.stack, v);
    CallPushed(layout, p, c.callers, back, d, d1);
    RunStraight(env, layout, GeneratedCode(p), Function(id), 0, Prologue(Function(id)), d1);
  }

  /** The line behind a call has an address of its own. */
  lemma CallResumes(p: Program, f: FunctionRef, ip: nat, call: Line)
    requires Generable(p) && f in p && ip < |p[f]|
    requires LineOf(f, p[f], ip + 1) >= 1 && LineOf(f, p[f], ip + 1) <= |GeneratedCode(p)[f]|
    requires GeneratedCode(p)[f][LineOf(f, p[f], ip + 1) - 1] == call && !Silent(call)
    ensures Resumes(p, Frame(f, ip + 1))
  {
    hide LineOf;
    hide FunctionLines;
    hide Linkable;
    LinesFit(f, p[f], ip + 1);
  }

  lemma LinesFit(f: FunctionRef, body: seq<Operation>, ip: nat)
    requires Linkable(body) && ip <= |body|
    ensures LineOf(f, body, ip) < |FunctionLines(f, body)|
  {
    hide Prologue;
    hide Epilogue;
    hide OperationLines;
    LinesGrow(body, ip, |body|);
  }

  /** `call` directly. */
  lemma CallSimulated(env: Env, layout: Layout, p: Program, c: Config, line: nat, d: Data, id: nat) returns (m: nat)
    requires Poised(layout, p, c, line, d) && Function(id) in p && |c.callers| <= CALL_STACK_SIZE
    requires Emit(p[c.cur.f], c.cur.ip) == [Comment, CallFunction(id)]
    ensures m >= 1
    ensures Shows(layout, p, Enter(p, c, id), AsmRun(env, layout, GeneratedCode(p), AsmRunning(c.cur.f, line, d), m))
  {
    hide Emit;
    hide ExecBlock;
    hide LinesHere;
    hide LineOf;
    hide GeneratedCode;
    hide AsmRun;
    hide Linkable;
    hide Shows;
    hide Enter;
    var f, code := c.cur.f, GeneratedCode(p);
    CommentDoesNothing(env, d);
    assert [Comment] + [CallFunction(id)] == [Comment, CallFunction(id)];
    ThenLast(env, layout, code, f, line, [Comment], CallFunction(id), d, d);
    CallResumes(p, f, c.cur.ip, CallFunction(id));
    AsmRunAdd(env, layout, code, AsmRunning(f, line, d), 2, 5);
    Entered(env, layout, p, c, id, d);
    m := 7;
  }

  lemma PopRax(env: Env, d: Data)
    ensures AllStraight([Comment, Pop(RAX)])
    ensures var n := |d.stack|;
      ExecBlock(env, [Comment, Pop(RAX)], d) ==
        if n < 1 then Trapped(TrapStop(Underflow), d.world) else Done(d.(rax := d.stack[n-1], stack := d.stack[..n-1]))
  {
    hide ExecBlock;
    TwoLines(env, Comment, Pop(RAX), d);
  }

  /** The function whose entry `v` addresses. */
  lemma EntryFound(layout: Layout, p: Program, v: Word, d: Data)
    requires Generable(p) && EntryAt(layout, p, v).Some?
    ensures Function(EntryAt(layout, p, v).value) in p
    ensures GotoAddress(layout, GeneratedCode(p), v, d) == AsmRunning(Function(EntryAt(layout, p, v).value), 0, d)
  {
  }

  /** `call` through an address taken from the stack. */
  lemma IndirectSimulated(env: Env, layout: Layout, p: Program, c: Config, line: nat, d: Data) returns (m: nat)
    requires Poised(layout, p, c, line, d) && Fits(env, layout, p)
    requires Emit(p[c.cur.f], c.cur.ip) == [Comment, Pop(RAX), CallRax]
    requires |c.stack| >= 1 ==> EntryAt(layout, p, c.stack[|c.stack|-1]).Some? && |c.callers| <= CALL_STACK_SIZE
    ensures m >= 1
    ensures Shows(layout, p, StepPlain(env, p, Intrinsic(Call), c),
        AsmRun(env, layout, GeneratedCode(p), AsmRunning(c.cur.f, line, d), m))
  {
    hide Emit;
    hide ExecBlock;
    hide LinesHere;
    hide LineOf;
    hide GeneratedCode;
    hide AsmRun;
    hide Linkable;
    hide Enter;
    hide EntryAt;
    hide GotoAddress;
    var f, code, n := c.cur.f, GeneratedCode(p), |c.stack|;
    var front := [Comment, Pop(RAX)];
    assert front + [CallRax] == [Comment, Pop(RAX), CallRax];
    PopRax(env, d);
    if n < 1 {
      HereParts(code, f, line, front, [CallRax]);
      RunStraight(env, layout, code, f, line, front, d);
      m := 2;
    } else {
      hide Shows;
      var v := c.stack[n-1];
      var d', c' := d.(rax := v, stack := d.stack[..n-1]), c.(stack := c.stack[..n-1]);
      ThenLast(env, layout, code, f, line, front, CallRax, d, d');
      EntryFound(layout, p, v, PushReturn(layout, f, line + 2, d'));
      CallResumes(p, f, c.cur.ip, CallRax);
      AsmRunAdd(env, layout, code, AsmRunning(f, line, d), 3, 5);
      Entered(env, layout, p, c', EntryAt(layout, p, v).value, d');
      m := 8;
    }
  }

  // ----- returns -----

  lemma EpilogueHere(p: Program, f: FunctionRef)
    requires Generable(p) && f in p
    ensures LinesHere(GeneratedCode(p), f, LineOf(f, p[f], |p[f]|), [Label(|p[f]|)] + Epilogue(f))
  {
    hide Prologue;
    hide Epilogue;
    hide BodyLines;
    var lines, at := FunctionLines(f, p[f]), LineOf(f, p[f], |p[f]|);
    assert lines == Prologue(f) + BodyLines(p[f], |p[f]|) + ([Label(|p[f]|)] + Epilogue(f));
    assert lines[at..] == [Label(|p[f]|)] + Epilogue(f);
  }

  lemma EpilogueBlock(env: Env, d: Data)
    requires |d.calls| == CALL_STACK_SIZE && 0 < d.callptr <= CALL_STACK_SIZE
    ensures AllStraight([DecCallPointer, CallPointerToRbx, LoadReturn, Push(RAX)])
    ensures var k := d.callptr - 1;
      ExecBlock(env, [DecCallPointer, CallPointerToRbx, LoadReturn, Push(RAX)], d)
        == Done(d.(callptr := k, rbx := k, rax := d.calls[k], stack := d.stack + [d.calls[k]]))
  {
    SmallCount(d.callptr - 1);
    hide Wrap;
    hide ExecBlock;
    hide ExecLine;
    var k := d.callptr - 1;
    var d1 := d.(callptr := k, rbx := k);
    var a, b := [DecCallPointer, CallPointerToRbx], [LoadReturn, Push(RAX)];
    assert a + b == [DecCallPointer, CallPointerToRbx, LoadReturn, Push(RAX)];
    EpilogueFront(env, d);
    EpilogueBack(env, d1);
    BlockConcat(env, a, b, d);
  }

  lemma EpilogueFront(env: Env, d: Data)
    ensures AllStraight([DecCallPointer, CallPointerToRbx])
    ensures var k := Wrap(d.callptr - 1);
      ExecBlock(env, [DecCallPointer, CallPointerToRbx], d) == Done(d.(callptr := k, rbx := k))
  {
    hide Wrap;
    hide ExecBlock;
    TwoLines(env, DecCallPointer, CallPointerToRbx, d);
  }

  lemma EpilogueBack(env: Env, d: Data)
    requires |d.calls| == CALL_STACK_SIZE && d.rbx < CALL_STACK_SIZE
    ensures AllStraight([LoadReturn, Push(RAX)])
    ensures ExecBlock(env, [LoadReturn, Push(RAX)], d)
        == Done(d.(rax := d.calls[d.rbx], stack := d.stack + [d.calls[d.rbx]]))
  {
    hide ExecBlock;
    TwoLines(env, LoadReturn, Push(RAX), d);
  }

  lemma RetLands(env: Env, layout: Layout, code: Code, f: FunctionRef, line: nat, d: Data, st: seq<Word>, v: Word,
      g: FunctionRef, k: nat)
    requires f in code && line < |code[f]| && code[f][line] == Ret && d.stack == st + [v]
    requires layout.locate(v) == Some((g, k)) && g in code
    ensures AsmStep(env, layout, code, f, line, d) == AsmRunning(g, k, d.(stack := st))
  {
    hide ExecLine;
    assert d.stack[..|d.stack|-1] == st;
  }

  /** A return resumes right behind its own call. */
  lemma ReturnSimulated(env: Env, layout: Layout, p: Program, c: Config, line: nat, d: Data)
    requires Generable(p) && Fits(env, layout, p) && DataMatches(layout, p, c, d) && 0 < |c.callers| <= CALL_STACK_SIZE
    requires LinesHere(GeneratedCode(p), c.cur.f, line, Epilogue(c.cur.f))
    ensures Shows(layout, p, Leave(c), AsmRun(env, layout, GeneratedCode(p), AsmRunning(c.cur.f, line, d), 5))
  {
    hide ExecBlock;
    hide LinesHere;
    hide LineOf;
    hide AsmRun;
    hide AsmStep;
    hide Linkable;
    hide GeneratedCode;
    var f, code, k := c.cur.f, GeneratedCode(p), d.callptr - 1;
    var front, fr := [DecCallPointer, CallPointerToRbx, LoadReturn, Push(RAX)], c.callers[|c.callers|-1];
    assert front + [Ret] == Epilogue(f);
    var v := d.calls[k];
    var d' := d.(callptr := k, rbx := k, rax := v, stack := d.stack + [v]);
    EpilogueBlock(env, d);
    ThenLast(env, layout, code, f, line, front, Ret, d, d');
    RetLands(env, layout, code, f, line + 4, d', d.stack, v, fr.f, LineOf(fr.f, p[fr.f], fr.ip));
  }

  lemma ExitSimulated(env: Env, layout: Layout, p: Program, c: Config, line: nat, d: Data)
    requires Generable(p) && DataMatches(layout, p, c, d) && c.callers == []
    requires LinesHere(GeneratedCode(p), c.cur.f, line, Epilogue(c.cur.f))
    ensures Shows(layout, p, Leave(c), AsmRun(env, layout, GeneratedCode(p), AsmRunning(c.cur.f, line, d), 1))
  {
    hide LinesHere;
    hide AsmRun;
    hide GeneratedCode;
    HereFirst(GeneratedCode(p), Main, line, [ExitProcess]);
    AsmOneStep(env, layout, GeneratedCode(p), Main, line, d);
  }

  lemma LeaveSimulated(env: Env, layout: Layout, p: Program, c: Config, a: Asm) returns (m: nat)
    requires Generable(p) && Fits(env, layout, p) && Matches(layout, p, c, a) && c.cur.ip == |p[c.cur.f]|
    requires |c.callers| <= CALL_STACK_SIZE
    ensures m >= 1 && Shows(layout, p, Leave(c), AsmRun(env, layout, GeneratedCode(p), a, m))
  {
    hide LinesHere;
    hide LineOf;
    hide GeneratedCode;
    hide AsmRun;
    hide Linkable;
    hide Shows;
    hide Epilogue;
    var f, code, t := c.cur.f, GeneratedCode(p), |p[c.cur.f]|;
    EpilogueHere(p, f);
    HereParts(code, f, a.line, [Label(t)], Epilogue(f));
    PassLabel(env, layout, code, f, a.line, t, a.d);
    if c.callers == [] {
      ExitSimulated(env, layout, p, c, a.line + 1, a.d);
      m := 2;
    } else {
      ReturnSimulated(env, layout, p, c, a.line + 1, a.d);
      m := 6;
    }
    AsmRunAdd(env, layout, code, a, 1, m - 1);
  }

  // ----- any step -----

  /** The machine's next step is a call through an address that is no function's. */
  ghost predicate StrayCall(env: Env, p: Program, c: Config) {
    var r := Step(env, p, c);
    r.Stopped? && r.why == BadCall
  }

  /** There is room for the next step: it is not too deep, or neither calls nor returns. */
  ghost predicate HasRoom(env: Env, p: Program, c: Config) {
    || |c.callers| <= CALL_STACK_SIZE
    || (var r := Step(env, p, c); r.Running? ==> |r.config.callers| == |c.callers|)
  }

  lemma PlainSimulated(env: Env, layout: Layout, p: Program, c: Config, line: nat, d: Data, q: Plain) returns (m: nat)
    requires Poised(layout, p, c, line, d) && Fits(env, layout, p) && !StrayCall(env, p, c) && HasRoom(env, p, c)
    requires p[c.cur.f][c.cur.ip].kind == Plain(q)
    ensures m >= 1
    ensures Shows(layout, p, Step(env, p, c), AsmRun(env, layout, GeneratedCode(p), AsmRunning(c.cur.f, line, d), m))
  {
    hide LinesHere;
    hide LineOf;
    hide GeneratedCode;
    hide AsmRun;
    hide Shows;
    hide Addressed;
    hide CallsMatch;
    hide ApplyPlain;
    hide IntrinsicCode;
    match q
    case Return => m := JumpSimulated(env, layout, p, c, line, d, |p[c.cur.f]|);
    case CallSymbol(id) => m := CallSimulated(env, layout, p, c, line, d, id);
    case Intrinsic(i) =>
      if i.Call? {
        m := IndirectSimulated(env, layout, p, c, line, d);
      } else {
        m := LocalSimulated(env, layout, p, c, line, d, q);
      }
    case _ => m := LocalSimulated(env, layout, p, c, line, d, q);
  }

  lemma ControlSimulated(env: Env, layout: Layout, p: Program, c: Config, line: nat, d: Data) returns (m: nat)
    requires Poised(layout, p, c, line, d) && !p[c.cur.f][c.cur.ip].kind.Plain?
    ensures m >= 1
    ensures Shows(layout, p, Step(env, p, c), AsmRun(env, layout, GeneratedCode(p), AsmRunning(c.cur.f, line, d), m))
  {
    hide LinesHere;
    hide LineOf;
    hide GeneratedCode;
    hide AsmRun;
    hide Shows;
    hide CallsMatch;
    hide Targets;
    var body, ip := p[c.cur.f], c.cur.ip;
    if body[ip].kind.While? {
      m := CommentSimulated(env, layout, p, c, line, d);
    } else {
      TargetListed(body, ip);
      var t := body[ip].jump.target;
      match body[ip].kind
      case Else => m := JumpSimulated(env, layout, p, c, line, d, t);
      case End =>
        if ip + 1 == t {
          m := CommentSimulated(env, layout, p, c, line, d);
        } else {
          m := JumpSimulated(env, layout, p, c, line, d, t);
        }
      case _ => m := BranchSimulated(env, layout, p, c, line, d, t);
    }
  }

  lemma OperationSimulated(env: Env, layout: Layout, p: Program, c: Config, a: Asm) returns (m: nat)
    requires Fits(env, layout, p) && Matches(layout, p, c, a) && c.cur.ip < |p[c.cur.f]| && !StrayCall(env, p, c)
    requires HasRoom(env, p, c)
    ensures m >= 1 && Shows(layout, p, Step(env, p, c), AsmRun(env, layout, GeneratedCode(p), a, m))
  {
    hide GeneratedCode;
    hide AsmRun;
    hide Shows;
    hide Step;
    hide CallsMatch;
    hide Poised;
    hide StrayCall;
    hide HasRoom;
    hide LineOf;
    hide Linkable;
    hide Addressed;
    hide EntryAt;
    var m1, line := AtOperation(env, layout, p, c, a);
    var m2;
    if p[c.cur.f][c.cur.ip].kind.Plain? {
      m2 := PlainSimulated(env, layout, p, c, line, a.d, p[c.cur.f][c.cur.ip].kind.plain);
    } else {
      m2 := ControlSimulated(env, layout, p, c, line, a.d);
    }
    AsmRunAdd(env, layout, GeneratedCode(p), a, m1, m2);
    m := m1 + m2;
  }

  lemma LeaveNeedsRoom(env: Env, p: Program, c: Config)
    requires c.cur.f in p && c.cur.ip == |p[c.cur.f]| && HasRoom(env, p, c)
    ensures |c.callers| <= CALL_STACK_SIZE
  {
    hide StepOperation;
  }

  /** One step of the machine is one or more lines of the generated code. */
  lemma StepSimulated(env: Env, layout: Layout, p: Program, c: Config, a: Asm) returns (m: nat)
    requires Fits(env, layout, p) && Matches(layout, p, c, a) && !StrayCall(env, p, c) && HasRoom(env, p, c)
    ensures m >= 1 && Shows(layout, p, Step(env, p, c), AsmRun(env, layout, GeneratedCode(p), a, m))
  {
    hide GeneratedCode;
    hide AsmRun;
    hide Shows;
    hide CallsMatch;
    hide StrayCall;
    hide LineOf;
    hide Linkable;
    hide Addressed;
    hide EntryAt;
    hide StepOperation;
    hide Leave;
    if c.cur.ip == |p[c.cur.f]| {
      LeaveNeedsRoom(env, p, c);
      m := LeaveSimulated(env, layout, p, c, a);
    } else {
      m := OperationSimulated(env, layout, p, c, a);
    }
  }

  // ----- whole runs -----

  ghost predicate Roomy(env: Env, p: Program, s: State) {
    s.Running? ==> HasRoom(env, p, s.config)
  }

  /** The first `n` steps have room on the call stack, and none is a stray call. */
  ghost predicate Tame(env: Env, p: Program, s: State, n: nat) {
    && (forall k: nat :: k < n ==> Roomy(env, p, Run(env, p, s, k)))
    && (var r := Run(env, p, s, n); r.Stopped? ==> r.why != BadCall)
  }

  /** Registers as they may be, an empty call stack, and the program's first line. */
  ghost predicate Boots(p: Program, stack: seq<Word>, world: World, a: Asm) {
    && Generable(p)
    && a.AsmRunning? && a.f == Main && a.line == LineOf(Main, p[Main], 0)
    && a.d.stack == stack && a.d.world == world && |a.d.calls| == CALL_STACK_SIZE && a.d.callptr == 0
  }

  lemma BootMatches(layout: Layout, p: Program, stack: seq<Word>, world: World, a: Asm)
    requires Boots(p, stack, world, a)
    ensures Shows(layout, p, Start(stack, world), a)
  {
  }

  lemma TamePrefix(env: Env, p: Program, s: State, n: nat)
    requires n >= 1 && Tame(env, p, s, n)
    ensures Tame(env, p, s, n - 1) && Roomy(env, p, Run(env, p, s, n - 1))
    ensures var r := Run(env, p, s, n - 1); r.Running? ==>
        Run(env, p, s, n) == Step(env, p, r.config) && !StrayCall(env, p, r.config)
    ensures var r := Run(env, p, s, n - 1); r.Stopped? ==> Run(env, p, s, n) == r
  {
    hide Step;
    var r := Run(env, p, s, n - 1);
    RunAdd(env, p, s, n - 1, 1);
    if r.Running? {
      OneStep(env, p, r.config);
    }
  }

  /** Whatever the machine does in `n` steps, the generated code shows after some number of lines. */
  lemma {:induction false} CodeFollowsMachine(env: Env, layout: Layout, p: Program, s: State, a: Asm,
      n: nat) returns (m: nat)
    requires Fits(env, layout, p) && Shows(layout, p, s, a) && Tame(env, p, s, n)
    ensures Generable(p) && Shows(layout, p, Run(env, p, s, n), AsmRun(env, layout, GeneratedCode(p), a, m))
    ensures Run(env, p, s, n).Running? ==> m >= n
    decreases n
  {
    hide AsmRun;
    hide Run;
    hide Step;
    hide Tame;
    hide StrayCall;
    hide HasRoom;
    hide GeneratedCode;
    hide Matches;
    if n == 0 {
      RunZero(env, p, s);
      AsmRunZero(env, layout, GeneratedCode(p), a);
      m := 0;
    } else {
      TamePrefix(env, p, s, n);
      var r := Run(env, p, s, n - 1);
      m := CodeFollowsMachine(env, layout, p, s, a, n - 1);
      if r.Running? {
        var a1 := AsmRun(env, layout, GeneratedCode(p), a, m);
        var m1 := StepSimulated(env, layout, p, r.config, a1);
        AsmRunAdd(env, layout, GeneratedCode(p), a, m, m1);
        m := m + m1;
      }
    }
  }

  /** A stopped processor stays stopped. */
  lemma AsmRunStopped(env: Env, layout: Layout, code: Code, a: Asm, m: nat, n: nat)
    requires m <= n && AsmRun(env, layout, code, a, m).AsmStopped?
    ensures AsmRun(env, layout, code, a, n) == AsmRun(env, layout, code, a, m)
  {
    hide AsmStep;
    AsmRunAdd(env, layout, code, a, m, n - m);
  }

  /** The whole run keeps within the call stack and makes no stray call. */
  ghost predicate TameForever(env: Env, p: Program, s: State) {
    forall n: nat :: Tame(env, p, s, n)
  }

  lemma TameNow(env: Env, p: Program, s: State, n: nat)
    requires TameForever(env, p, s)
    ensures Tame(env, p, s, n)
  {
  }

  predicate Shallow(s: State) {
    s.Running? ==> |s.config.callers| <= CALL_STACK_SIZE
  }

  predicate NoStrayCall(s: State) {
    s.Stopped? ==> s.why != BadCall
  }

  /** In particular a run that never has more than 1024 active calls has room for all of its steps. */
  lemma ShallowIsTame(env: Env, p: Program, s: State)
    requires forall n: nat :: Shallow(Run(env, p, s, n)) && NoStrayCall(Run(env, p, s, n))
    ensures TameForever(env, p, s)
  {
    hide Run;
    hide Step;
    forall n: nat
      ensures Tame(env, p, s, n)
    {
      assert NoStrayCall(Run(env, p, s, n));
      forall k: nat | k < n
        ensures Roomy(env, p, Run(env, p, s, k))
      {
        assert Shallow(Run(env, p, s, k));
      }
    }
  }

  /** However far the generated code has run, it is on its way to a state that shows one of the machine. */
  lemma MachineFollowsCode(env: Env, layout: Layout, p: Program, s: State, a: Asm, m: nat) returns (n: nat, m': nat)
    requires Fits(env, layout, p) && Shows(layout, p, s, a) && TameForever(env, p, s)
    ensures m' >= m && Shows(layout, p, Run(env, p, s, n), AsmRun(env, layout, GeneratedCode(p), a, m'))
  {
    hide Run;
    hide AsmRun;
    hide GeneratedCode;
    hide TameForever;
    hide Tame;
    TameNow(env, p, s, m);
    n := m;
    m' := CodeFollowsMachine(env, layout, p, s, a, n);
    if m' < m {
      AsmRunStopped(env, layout, GeneratedCode(p), a, m', m);
      m' := m;
    }
  }

  ghost predicate MachineEnds(env: Env, p: Program, s: State, why: Stop, world: World) {
    exists n: nat, st :: Run(env, p, s, n) == Stopped(why, st, world)
  }

  ghost predicate MachineExits(env: Env, p: Program, s: State, st: seq<Word>, world: World) {
    exists n: nat :: Run(env, p, s, n) == Stopped(Exit, st, world)
  }

  ghost predicate CodeEnds(env: Env, layout: Layout, code: Code, a: Asm, why: Stop, world: World) {
    exists m: nat, st :: AsmRun(env, layout, code, a, m) == AsmStopped(Ended(why), st, world)
  }

  ghost predicate CodeExits(env: Env, layout: Layout, code: Code, a: Asm, st: seq<Word>, world: World) {
    exists m: nat :: AsmRun(env, layout, code, a, m) == AsmStopped(Ended(Exit), st, world)
  }

  lemma CodeStopShown(env: Env, layout: Layout, p: Program, s: State, a: Asm, m: nat) returns (n: nat)
    requires Fits(env, layout, p) && Shows(layout, p, s, a) && TameForever(env, p, s)
    requires AsmRun(env, layout, GeneratedCode(p), a, m).AsmStopped?
    ensures Run(env, p, s, n).Stopped?
    ensures Shows(layout, p, Run(env, p, s, n), AsmRun(env, layout, GeneratedCode(p), a, m))
  {
    hide Run;
    hide AsmRun;
    hide GeneratedCode;
    hide TameForever;
    var m';
    n, m' := MachineFollowsCode(env, layout, p, s, a, m);
    AsmRunStopped(env, layout, GeneratedCode(p), a, m, m');
  }

  lemma MachineStopShown(env: Env, layout: Layout, p: Program, s: State, a: Asm, n: nat) returns (m: nat)
    requires Fits(env, layout, p) && Shows(layout, p, s, a) && TameForever(env, p, s)
    ensures Shows(layout, p, Run(env, p, s, n), AsmRun(env, layout, GeneratedCode(p), a, m))
  {
    hide Run;
    hide AsmRun;
    hide GeneratedCode;
    hide TameForever;
    hide Tame;
    TameNow(env, p, s, n);
    m := CodeFollowsMachine(env, layout, p, s, a, n);
  }

  lemma EndsExact(env: Env, layout: Layout, p: Program, s: State, a: Asm, why: Stop, end: World)
    requires Fits(env, layout, p) && Shows(layout, p, s, a) && TameForever(env, p, s)
    ensures MachineEnds(env, p, s, why, end) <==> CodeEnds(env, layout, GeneratedCode(p), a, why, end)
  {
    hide Run;
    hide AsmRun;
    hide GeneratedCode;
    hide TameForever;
    hide Matches;
    var code := GeneratedCode(p);
    if MachineEnds(env, p, s, why, end) {
      var n: nat, st :| Run(env, p, s, n) == Stopped(why, st, end);
      var m := MachineStopShown(env, layout, p, s, a, n);
      assert AsmRun(env, layout, code, a, m) == AsmStopped(Ended(why), AsmRun(env, layout, code, a, m).stack, end);
    }
    if CodeEnds(env, layout, code, a, why, end) {
      var m: nat, st :| AsmRun(env, layout, code, a, m) == AsmStopped(Ended(why), st, end);
      var n := CodeStopShown(env, layout, p, s, a, m);
      assert Run(env, p, s, n) == Stopped(why, Run(env, p, s, n).stack, end);
    }
  }

  lemma ExitsExact(env: Env, layout: Layout, p: Program, s: State, a: Asm, st: seq<Word>, end: World)
    requires Fits(env, layout, p) && Shows(layout, p, s, a) && TameForever(env, p, s)
    ensures MachineExits(env, p, s, st, end) <==> CodeExits(env, layout, GeneratedCode(p), a, st, end)
  {
    hide Run;
    hide AsmRun;
    hide GeneratedCode;
    hide TameForever;
    hide Matches;
    var code := GeneratedCode(p);
    if MachineExits(env, p, s, st, end) {
      var n: nat :| Run(env, p, s, n) == Stopped(Exit, st, end);
      var m := MachineStopShown(env, layout, p, s, a, n);
      assert AsmRun(env, layout, code, a, m) == AsmStopped(Ended(Exit), st, end);
    }
    if CodeExits(env, layout, code, a, st, end) {
      var m: nat :| AsmRun(env, layout, code, a, m) == AsmStopped(Ended(Exit), st, end);
      var n := CodeStopShown(env, layout, p, s, a, m);
      assert Run(env, p, s, n) == Stopped(Exit, st, end);
    }
  }

  /**
   A program whose calls stay within the call stack ends in the generated code exactly as it ends on the
   machine: same reason, same world, and on exit the same data stack. It runs on forever exactly when the
   machine does.
   */
  lemma GeneratedCodeExact(env: Env, layout: Layout, p: Program, stack: seq<Word>, world: World, a: Asm, why: Stop,
      st: seq<Word>, end: World)
    requires Fits(env, layout, p) && Boots(p, stack, world, a) && TameForever(env, p, Start(stack, world))
    ensures MachineEnds(env, p, Start(stack, world), why, end) <==> CodeEnds(env, layout, GeneratedCode(p), a, why, end)
    ensures MachineExits(env, p, Start(stack, world), st, end) <==> CodeExits(env, layout, GeneratedCode(p), a, st, end)
  {
    hide MachineEnds;
    hide MachineExits;
    hide CodeEnds;
    hide CodeExits;
    hide GeneratedCode;
    hide TameForever;
    hide Shows;
    BootMatches(layout, p, stack, world, a);
    EndsExact(env, layout, p, Start(stack, world), a, why, end);
    ExitsExact(env, layout, p, Start(stack, world), a, st, end);
  }

  // ----- one call too many -----

  /**
   The 1025th active call stores its return address over the call pointer. Its callee runs on with the data
   stack and world of the machine and with the other return addresses in place, up to its next call or return.
   */
  lemma DeepCallCorrupts(env: Env, layout: Layout, p: Program, stack: seq<Word>, world: World, a: Asm,
      n: nat) returns (m: nat)
    requires Fits(env, layout, p) && Boots(p, stack, world, a) && Tame(env, p, Start(stack, world), n)
    requires var s := Run(env, p, Start(stack, world), n); s.Running? && |s.config.callers| > CALL_STACK_SIZE
    ensures var c, r := Run(env, p, Start(stack, world), n).config, AsmRun(env, layout, GeneratedCode(p), a, m);
      && FrameLine(p, c.cur) && r.AsmRunning? && r.f == c.cur.f && r.line == LineOf(c.cur.f, p[c.cur.f], c.cur.ip)
      && r.d.stack == c.stack && r.d.world == c.world
      && |c.callers| == CALL_STACK_SIZE + 1 == |r.d.calls| + 1
      && FrameLine(p, c.callers[CALL_STACK_SIZE])
      && r.d.callptr == Wrap(ReturnAddress(layout, p, c.callers[CALL_STACK_SIZE]) + 1)
      && forall i :: 0 <= i < CALL_STACK_SIZE ==>
          FrameLine(p, c.callers[i]) && r.d.calls[i] == ReturnAddress(layout, p, c.callers[i])
  {
    hide Run;
    hide AsmRun;
    hide GeneratedCode;
    hide Fits;
    hide Tame;
    hide LineOf;
    hide Wrap;
    BootMatches(layout, p, stack, world, a);
    m := CodeFollowsMachine(env, layout, p, Start(stack, world), a, n);
  }

  /** Code is loaded above the first addresses, as the linker does. */
  ghost predicate LoadedHigh(layout: Layout, p: Program)
    requires Generable(p)
  {
    forall f, k: nat :: Addressed(p, f, k) ==> CALL_STACK_SIZE < layout.address(f, k) < WORD_SIZE - 1
  }

  lemma EpilogueStrays(env: Env, d: Data)
    requires |d.calls| == CALL_STACK_SIZE && CALL_STACK_SIZE < Wrap(d.callptr - 1)
    ensures AllStraight([DecCallPointer, CallPointerToRbx, LoadReturn])
    ensures ExecBlock(env, [DecCallPointer, CallPointerToRbx, LoadReturn], d) == Trapped(StrayAccess, d.world)
  {
    hide Wrap;
    hide ExecBlock;
    EpilogueFront(env, d);
    var k := Wrap(d.callptr - 1);
    OneLine(env, LoadReturn, d.(callptr := k, rbx := k));
    assert [DecCallPointer, CallPointerToRbx] + [LoadReturn] == [DecCallPointer, CallPointerToRbx, LoadReturn];
    BlockConcat(env, [DecCallPointer, CallPointerToRbx], [LoadReturn], d);
  }

  lemma CountedUp(v: Word)
    requires v < WORD_SIZE - 1
    ensures Wrap(Wrap(v + 1) - 1) == v && Wrap(v + 1) == v + 1
  {
  }

  /**
   That callee does not come back: it looks for its return address behind the call stack, at the index the address
   itself.
   */
  lemma DeepReturnStrays(env: Env, layout: Layout, p: Program, c: Config, a: Asm)
    requires Generable(p) && LoadedHigh(layout, p) && Matches(layout, p, c, a)
    requires |c.callers| > CALL_STACK_SIZE && c.cur.ip == |p[c.cur.f]|
    ensures var r := AsmRun(env, layout, GeneratedCode(p), a, 4); r.AsmStopped? && r.stop == Stray && r.world == c.world
  {
    hide LinesHere;
    hide LineOf;
    hide GeneratedCode;
    hide AsmRun;
    hide Linkable;
    hide Wrap;
    hide ExecBlock;
    var f, code, t := c.cur.f, GeneratedCode(p), |p[c.cur.f]|;
    EpilogueHere(p, f);
    HereParts(code, f, a.line, [Label(t)], Epilogue(f));
    PassLabel(env, layout, code, f, a.line, t, a.d);
    var front := [DecCallPointer, CallPointerToRbx, LoadReturn];
    assert Epilogue(f) == front + [Push(RAX), Ret];
    HereParts(code, f, a.line + 1, front, [Push(RAX), Ret]);
    CountedUp(ReturnAddress(layout, p, c.callers[CALL_STACK_SIZE]));
    EpilogueStrays(env, a.d);
    RunStraight(env, layout, code, f, a.line + 1, front, a.d);
    AsmRunAdd(env, layout, code, a, 1, 3);
  }

  /** Entering any function then stores behind the call pointer. */
  lemma EntryStrays(env: Env, layout: Layout, p: Program, callers: seq<Frame>, id: nat, d: Data, st: seq<Word>, v: Word)
    requires Generable(p) && LoadedHigh(layout, p) && Function(id) in p
    requires CallsMatch(layout, p, callers, d) && |callers| > CALL_STACK_SIZE && d.stack == st + [v]
    ensures var r := AsmRun(env, layout, GeneratedCode(p), AsmRunning(Function(id), 0, d), 5);
      r.AsmStopped? && r.stop == Stray && r.world == d.world
  {
    hide LinesHere;
    hide LineOf;
    hide GeneratedCode;
    hide AsmRun;
    hide Linkable;
    hide Wrap;
    hide ExecBlock;
    CountedUp(ReturnAddress(layout, p, callers[CALL_STACK_SIZE]));
    PrologueHere(p, Function(id));
    PrologueBlock(env, id, d, st, v);
    RunStraight(env, layout, GeneratedCode(p), Function(id), 0, Prologue(Function(id)), d);
  }

  lemma DirectStrays(env: Env, layout: Layout, p: Program, c: Config, line: nat, d: Data, id: nat) returns (m: nat)
    requires Poised(layout, p, c, line, d) && Function(id) in p && LoadedHigh(layout, p)
    requires |c.callers| > CALL_STACK_SIZE
    requires Emit(p[c.cur.f], c.cur.ip) == [Comment, CallFunction(id)]
    ensures var r := AsmRun(env, layout, GeneratedCode(p), AsmRunning(c.cur.f, line, d), m);
      r.AsmStopped? && r.stop == Stray && r.world == c.world
  {
    hide Emit;
    hide ExecBlock;
    hide LinesHere;
    hide LineOf;
    hide GeneratedCode;
    hide AsmRun;
    hide Linkable;
    hide CallsMatch;
    hide LoadedHigh;
    var f, code := c.cur.f, GeneratedCode(p);
    CommentDoesNothing(env, d);
    assert [Comment] + [CallFunction(id)] == [Comment, CallFunction(id)];
    ThenLast(env, layout, code, f, line, [Comment], CallFunction(id), d, d);
    AsmRunAdd(env, layout, code, AsmRunning(f, line, d), 2, 5);
    var d1 := PushReturn(layout, f, line + 1, d);
    SameCalls(layout, p, c.callers, d, d1);
    EntryStrays(env, layout, p, c.callers, id, d1, d.stack, layout.address(f, line + 2));
    m := 7;
  }

  lemma SameCalls(layout: Layout, p: Program, callers: seq<Frame>, d: Data, d': Data)
    requires CallsMatch(layout, p, callers, d) && d'.calls == d.calls && d'.callptr == d.callptr
    ensures CallsMatch(layout, p, callers, d')
  {
    hide Wrap;
  }

  lemma IndirectStrays(env: Env, layout: Layout, p: Program, c: Config, line: nat, d: Data) returns (m: nat)
    requires Poised(layout, p, c, line, d) && LoadedHigh(layout, p) && |c.callers| > CALL_STACK_SIZE
    requires Emit(p[c.cur.f], c.cur.ip) == [Comment, Pop(RAX), CallRax]
    requires |c.stack| >= 1 && EntryAt(layout, p, c.stack[|c.stack|-1]).Some?
    ensures var r := AsmRun(env, layout, GeneratedCode(p), AsmRunning(c.cur.f, line, d), m);
      r.AsmStopped? && r.stop == Stray && r.world == c.world
  {
    hide Emit;
    hide ExecBlock;
    hide LinesHere;
    hide LineOf;
    hide GeneratedCode;
    hide AsmRun;
    hide Linkable;
    hide CallsMatch;
    hide LoadedHigh;
    hide EntryAt;
    hide GotoAddress;
    var f, code, n := c.cur.f, GeneratedCode(p), |c.stack|;
    var front := [Comment, Pop(RAX)];
    assert front + [CallRax] == [Comment, Pop(RAX), CallRax];
    PopRax(env, d);
    var v := c.stack[n-1];
    var d' := d.(rax := v, stack := d.stack[..n-1]);
    ThenLast(env, layout, code, f, line, front, CallRax, d, d');
    var d1 := PushReturn(layout, f, line + 2, d');
    EntryFound(layout, p, v, d1);
    AsmRunAdd(env, layout, code, AsmRunning(f, line, d), 3, 5);
    SameCalls(layout, p, c.callers, d, d1);
    EntryStrays(env, layout, p, c.callers, EntryAt(layout, p, v).value, d1, d'.stack, layout.address(f, line + 3));
    m := 8;
  }

  /** Which steps lack room. */
  lemma NoRoom(env: Env, layout: Layout, p: Program, c: Config)
    requires Fits(env, layout, p) && FrameLine(p, c.cur) && !HasRoom(env, p, c) && c.cur.ip < |p[c.cur.f]|
    ensures p[c.cur.f][c.cur.ip].kind.Plain?
    ensures var q := p[c.cur.f][c.cur.ip].kind.plain;
      || (q.CallSymbol? && Function(q.id) in p)
      || (q == Intrinsic(Call) && |c.stack| >= 1 && EntryAt(layout, p, c.stack[|c.stack|-1]).Some?)
  {
    hide Linkable;
    hide Addressed;
    hide ApplyPlain;
    hide EntryAt;
  }

  /** A step without room ends the run outside everything modelled: behind the call stack. */
  lemma DeepStepStrays(env: Env, layout: Layout, p: Program, c: Config, a: Asm) returns (m: nat)
    requires Fits(env, layout, p) && LoadedHigh(layout, p) && Matches(layout, p, c, a) && !HasRoom(env, p, c)
    ensures var r := AsmRun(env, layout, GeneratedCode(p), a, m); r.AsmStopped? && r.stop == Stray && r.world == c.world
  {
    hide GeneratedCode;
    hide AsmRun;
    hide LinesHere;
    hide LineOf;
    hide Addressed;
    hide LoadedHigh;
    hide EntryAt;
    hide IntrinsicCode;
    hide Step;
    hide CallsMatch;
    if c.cur.ip == |p[c.cur.f]| {
      DeepReturnStrays(env, layout, p, c, a);
      m := 4;
    } else {
      NoRoom(env, layout, p, c);
      var m1, line := AtOperation(env, layout, p, c, a);
      var q, m2 := p[c.cur.f][c.cur.ip].kind.plain, 0;
      if q.CallSymbol? {
        m2 := DirectStrays(env, layout, p, c, line, a.d, q.id);
      } else {
        m2 := IndirectStrays(env, layout, p, c, line, a.d);
      }
      AsmRunAdd(env, layout, GeneratedCode(p), a, m1, m2);
      m := m1 + m2;
    }
  }
}
