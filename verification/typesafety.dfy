/** Accepted programs never underflow, however long they run and however deep they recurse. */
module TypeSafety {
  import opened Words
  import opened Operations
  import opened Machine
  import opened Structured
  import opened Types
  import opened Typechecker

  /** Declared inputs and outputs of a function; `main` takes and leaves nothing. */
  function InputsOf(decls: Declarations, f: FunctionRef): nat {
    if f.Function? && f.id in decls && decls[f.id].effect.Some? then |decls[f.id].effect.value.input| else 0
  }

  function OutputsOf(decls: Declarations, f: FunctionRef): nat {
    if f.Function? && f.id in decls && decls[f.id].effect.Some? then |decls[f.id].effect.value.output| else 0
  }

  predicate Checked(decls: Declarations, f: FunctionRef) {
    f == Main || (f.id in decls && decls[f.id].effect.Some?)
  }

  function DeclaredProgram(main: seq<Operation>, decls: Declarations): Program {
    map f | f in {Main} + set id | id in decls :: Function(id) :: if f == Main then main else decls[f.id].body
  }

  lemma DeclaredBody(main: seq<Operation>, decls: Declarations, f: FunctionRef)
    ensures f in DeclaredProgram(main, decls) <==> f == Main || f.id in decls
    ensures Checked(decls, f) ==> Body(DeclaredProgram(main, decls), f) == if f == Main then main else decls[f.id].body
  {
    if f.Function? {
      assert f in DeclaredProgram(main, decls) <==> f in {Main} + set id | id in decls :: Function(id);
    }
  }

  /** `main` and every function with a declared effect have been accepted. */
  ghost predicate Accepted(main: seq<Operation>, decls: Declarations) {
    forall f :: Checked(decls, f) ==> SafeBody(main, decls, f)
  }

  ghost predicate SafeBody(main: seq<Operation>, decls: Declarations, f: FunctionRef) {
    HeightSafe(decls, Body(DeclaredProgram(main, decls), f), InputsOf(decls, f), OutputsOf(decls, f))
  }

  ghost function HeightsOf(main: seq<Operation>, decls: Declarations, f: FunctionRef): (H: Heights)
    requires SafeBody(main, decls, f)
    ensures SafeHeights(decls, Body(DeclaredProgram(main, decls), f), InputsOf(decls, f), OutputsOf(decls, f), H)
  {
    var H :| SafeHeights(decls, Body(DeclaredProgram(main, decls), f), InputsOf(decls, f), OutputsOf(decls, f), H);
    H
  }

  /** Every body is what `crossreference` made of some block. */
  ghost predicate Crossreferenced(main: seq<Operation>, decls: Declarations, blocks: map<FunctionRef, Block>) {
    && Main in blocks && main == Link(blocks[Main], 0)
    && forall id :: id in decls ==> Function(id) in blocks && decls[id].body == Link(blocks[Function(id)], 0)
  }

  ghost predicate FaultyFunction(decls: Declarations, id: nat)
    requires id in decls
  {
    decls[id].effect.Some? && Faulty(decls, decls[id].body, decls[id].effect.value.input, decls[id].effect.value.output)
  }

  /** Every function with a declared effect first, then `main`. */
  method TypecheckProgram(main: seq<Operation>, decls: Declarations, ghost blocks: map<FunctionRef,
      Block>) returns (accepted: bool)
    requires Crossreferenced(main, decls, blocks)
    ensures accepted ==> Accepted(main, decls)
    ensures !accepted ==> Faulty(decls, main, [], []) || exists id :: id in decls && FaultyFunction(decls, id)
  {
    hide Faulty;
    hide HeightSafe;
    var todo := decls.Keys;
    while todo != {}
      invariant todo <= decls.Keys
      invariant forall id :: id in decls && id !in todo && decls[id].effect.Some? ==>
          SafeBody(main, decls, Function(id))
      decreases |todo|
    {
      var id :| id in todo;
      todo := todo - {id};
      if decls[id].effect.Some? {
        var e := decls[id].effect.value;
        var ok := Typecheck(decls, decls[id].body, e.input, e.output, blocks[Function(id)]);
        if !ok {
          return false;
        }
        DeclaredBody(main, decls, Function(id));
      }
    }
    accepted := Typecheck(decls, main, [], [], blocks[Main]);
    DeclaredBody(main, decls, Main);
  }

  // ----- the invariant -----

  /** At `ip` in `f`, whose part of the stack starts at `base`, a total of `height` entries is accounted for. */
  ghost predicate FrameOk(main: seq<Operation>, decls: Declarations, fr: Frame, base: nat, height: nat) {
    && Checked(decls, fr.f) && SafeBody(main, decls, fr.f)
    && height >= base && (fr.ip, height - base) in HeightsOf(main, decls, fr.f)
  }

  /** Callers, each waiting for the frame above it to leave its declared outputs at its own base. */
  ghost predicate CallersOk(main: seq<Operation>, decls: Declarations, callers: seq<Frame>, bases: seq<nat>,
      cur: FunctionRef, base: nat)
    requires |bases| == |callers|
    decreases |callers|
  {
    if callers == [] then cur == Main && base == 0
    else
      var n := |callers| - 1;
      && bases[n] <= base
      && FrameOk(main, decls, callers[n], bases[n], base + OutputsOf(decls, cur))
      && CallersOk(main, decls, callers[..n], bases[..n], callers[n].f, bases[n])
  }

  /** `base` and `bases` say where each active call's own part of the stack starts. */
  ghost predicate Typed(main: seq<Operation>, decls: Declarations, c: Config, bases: seq<nat>, base: nat) {
    && |bases| == |c.callers|
    && FrameOk(main, decls, c.cur, base, |c.stack|)
    && CallersOk(main, decls, c.callers, bases, c.cur.f, base)
  }

  /** A step inside the current call. */
  ghost predicate Stays(c: Config, bases: seq<nat>, base: nat, c': Config, bases': seq<nat>, base': nat) {
    c'.callers == c.callers && bases' == bases && base' == base && c'.cur.f == c.cur.f
  }

  /** A call: the callee's part of the stack starts below its declared inputs. */
  ghost predicate Enters(decls: Declarations, c: Config, bases: seq<nat>, base: nat, c': Config, bases': seq<nat>,
      base': nat) {
    && c'.callers == c.callers + [Frame(c.cur.f, c.cur.ip + 1)]
    && bases' == bases + [base] && base <= base' && base' + InputsOf(decls, c'.cur.f) == |c.stack|
    && c'.stack == c.stack
  }

  /** A return: exactly the declared outputs lie above the callee's base. */
  ghost predicate Leaves(decls: Declarations, c: Config, bases: seq<nat>, base: nat, c': Config, bases': seq<nat>,
      base': nat) {
    && |c.callers| > 0 && |bases| == |c.callers|
    && c'.callers == c.callers[..|c.callers|-1] && c'.cur == c.callers[|c.callers|-1]
    && bases' == bases[..|bases|-1] && base' == bases[|bases|-1]
    && c'.stack == c.stack && |c.stack| == base + OutputsOf(decls, c.cur.f)
  }

  /** What a step of a typed configuration may be; nothing below the current call's base is touched. */
  ghost predicate StepTyped(main: seq<Operation>, decls: Declarations, c: Config, bases: seq<nat>, base: nat,
                            s: State, bases': seq<nat>, base': nat)
  {
    match s
    case Running(c') =>
      && Typed(main, decls, c', bases', base')
      && base <= |c.stack| && base <= |c'.stack| && c'.stack[..base] == c.stack[..base]
      && (Stays(c, bases, base, c', bases', base') || Enters(decls, c, bases, base, c', bases', base')
          || Leaves(decls, c, bases, base, c', bases', base'))
    case Stopped(why, st, _) => (why == Exit && st == []) || why == DivideFault
  }

  lemma HeightHere(main: seq<Operation>, decls: Declarations, fr: Frame, base: nat, height: nat)
    requires FrameOk(main, decls, fr, base, height)
    ensures HeightOk(decls, Body(DeclaredProgram(main, decls), fr.f), OutputsOf(decls, fr.f),
                     HeightsOf(main, decls, fr.f), fr.ip, height - base)
  {
    hide HeightOk;
    var x := (fr.ip, height - base);
    assert x in HeightsOf(main, decls, fr.f);
  }

  lemma LocalTyped(env: Env, main: seq<Operation>, decls: Declarations, c: Config, bases: seq<nat>, base: nat, p: Plain)
    requires Typed(main, decls, c, bases, base) && IsLocal(p)
    requires |c.stack| - base >= Inputs(decls, p)
    requires (c.cur.ip + 1, |c.stack| - base - Inputs(decls, p) + Outputs(decls, p)) in HeightsOf(main, decls, c.cur.f)
    ensures StepTyped(main, decls, c, bases, base, StepLocal(env, p, c), bases, base)
  {
    hide SafeHeights;
    hide ApplyPlain;
    hide CallersOk;
    hide Inputs;
    hide Outputs;
    hide HeightsOf;
    hide SafeBody;
    MachineHeight(env, decls, p, c.stack, c.world);
    var r := ApplyPlain(env, p, c.stack, c.world);
    if r.Continue? {
      var keep := |c.stack| - Inputs(decls, p);
      assert r.stack[..base] == r.stack[..keep][..base] == c.stack[..keep][..base] == c.stack[..base];
    }
  }

  lemma GotoTyped(main: seq<Operation>, decls: Declarations, c: Config, bases: seq<nat>, base: nat,
      st: seq<Word>, ip: nat)
    requires Typed(main, decls, c, bases, base)
    requires base <= |st| <= |c.stack| && st == c.stack[..|st|]
    requires (ip, |st| - base) in HeightsOf(main, decls, c.cur.f)
    ensures StepTyped(main, decls, c, bases, base, Goto(c.(stack := st), ip), bases, base)
  {
    hide SafeHeights;
    hide CallersOk;
    hide HeightsOf;
    hide SafeBody;
    assert st[..base] == c.stack[..base];
  }

  lemma CallTyped(main: seq<Operation>, decls: Declarations, c: Config, bases: seq<nat>, base: nat, id: nat)
    requires Accepted(main, decls) && Typed(main, decls, c, bases, base)
    requires id in decls && decls[id].effect.Some?
    requires var f := Function(id);
      && |c.stack| - base >= InputsOf(decls, f)
      && (c.cur.ip + 1, |c.stack| - base - InputsOf(decls, f) + OutputsOf(decls, f)) in HeightsOf(main, decls, c.cur.f)
    ensures StepTyped(main, decls, c, bases, base, Enter(DeclaredProgram(main, decls), c, id),
                      bases + [base], |c.stack| - InputsOf(decls, Function(id)))
  {
    hide SafeHeights;
    hide HeightsOf;
    hide SafeBody;
    hide DeclaredProgram;
    var f := Function(id);
    DeclaredBody(main, decls, f);
    assert Checked(decls, f);
    assert SafeBody(main, decls, f);
    EntryHeight(main, decls, f);
    var callers' := c.callers + [Frame(c.cur.f, c.cur.ip + 1)];
    assert callers'[..|c.callers|] == c.callers && (bases + [base])[..|bases|] == bases;
  }

  lemma EntryHeight(main: seq<Operation>, decls: Declarations, f: FunctionRef)
    requires SafeBody(main, decls, f)
    ensures (0, InputsOf(decls, f)) in HeightsOf(main, decls, f)
  {
  }

  lemma LeaveTyped(main: seq<Operation>, decls: Declarations, c: Config, bases: seq<nat>, base: nat)
      returns (bases': seq<nat>, base': nat)
    requires Typed(main, decls, c, bases, base) && |c.stack| == base + OutputsOf(decls, c.cur.f)
    ensures StepTyped(main, decls, c, bases, base, Leave(c), bases', base')
  {
    hide SafeHeights;
    hide HeightsOf;
    hide SafeBody;
    if c.callers == [] {
      bases', base' := bases, base;
    } else {
      var n := |c.callers| - 1;
      bases', base' := bases[..n], bases[n];
    }
  }

  lemma BranchTyped(main: seq<Operation>, decls: Declarations, c: Config, bases: seq<nat>, base: nat, t: nat)
    requires Typed(main, decls, c, bases, base) && |c.stack| - base >= 1
    requires (c.cur.ip + 1, |c.stack| - base - 1) in HeightsOf(main, decls, c.cur.f)
    requires (t, |c.stack| - base - 1) in HeightsOf(main, decls, c.cur.f)
    ensures StepTyped(main, decls, c, bases, base, Branch(c, To(t)), bases, base)
  {
    hide SafeHeights;
    hide StepTyped;
    hide Typed;
    hide HeightsOf;
    var st := c.stack[..|c.stack|-1];
    GotoTyped(main, decls, c, bases, base, st, if c.stack[|c.stack|-1] == 0 then t else c.cur.ip + 1);
  }

  lemma OperationTyped(env: Env, main: seq<Operation>, decls: Declarations, c: Config, bases: seq<nat>, base: nat)
      returns (bases': seq<nat>, base': nat)
    requires Accepted(main, decls) && Typed(main, decls, c, bases, base)
    requires c.cur.ip < |Body(DeclaredProgram(main, decls), c.cur.f)|
    ensures StepTyped(main, decls, c, bases, base,
                      StepOperation(env, DeclaredProgram(main, decls),
                          Body(DeclaredProgram(main, decls), c.cur.f)[c.cur.ip], c), bases', base')
  {
    hide SafeHeights;
    hide StepTyped;
    hide DeclaredProgram;
    hide HeightsOf;
    hide SafeBody;
    hide CallersOk;
    var p := DeclaredProgram(main, decls);
    var body := Body(p, c.cur.f);
    HeightHere(main, decls, c.cur, base, |c.stack|);
    bases', base' := bases, base;
    var op := body[c.cur.ip];
    assert c.stack[..|c.stack|] == c.stack && c.(stack := c.stack) == c;
    match op.kind
    case Plain(q) =>
      bases', base' := PlainTyped(env, main, decls, c, bases, base, q);
    case While => GotoTyped(main, decls, c, bases, base, c.stack, c.cur.ip + 1);
    case Else => GotoTyped(main, decls, c, bases, base, c.stack, op.jump.target);
    case End => GotoTyped(main, decls, c, bases, base, c.stack, op.jump.target);
    case If => BranchTyped(main, decls, c, bases, base, op.jump.target);
    case Do => BranchTyped(main, decls, c, bases, base, op.jump.target);
  }

  lemma PlainTyped(env: Env, main: seq<Operation>, decls: Declarations, c: Config, bases: seq<nat>, base: nat, q: Plain)
      returns (bases': seq<nat>, base': nat)
    requires Accepted(main, decls) && Typed(main, decls, c, bases, base)
    requires var body := Body(DeclaredProgram(main, decls), c.cur.f);
      c.cur.ip < |body| && body[c.cur.ip].kind == Plain(q)
    ensures StepTyped(main, decls, c, bases, base, StepPlain(env, DeclaredProgram(main, decls), q, c), bases', base')
  {
    hide SafeHeights;
    hide StepTyped;
    hide DeclaredProgram;
    hide HeightsOf;
    hide SafeBody;
    hide CallersOk;
    hide Accepted;
    var p := DeclaredProgram(main, decls);
    var body := Body(p, c.cur.f);
    HeightHere(main, decls, c.cur, base, |c.stack|);
    bases', base' := bases, base;
    assert c.stack[..|c.stack|] == c.stack && c.(stack := c.stack) == c;
    match q
    case Return =>
      GotoTyped(main, decls, c, bases, base, c.stack, |body|);
    case CallSymbol(id) =>
      CallTyped(main, decls, c, bases, base, id);
      bases', base' := bases + [base], |c.stack| - InputsOf(decls, Function(id));
    case Intrinsic(i) =>
      LocalTyped(env, main, decls, c, bases, base, q);
    case _ =>
      LocalTyped(env, main, decls, c, bases, base, q);
  }

  /** Typed configurations step to typed ones, or exit with an empty stack, or divide by zero. */
  lemma Preservation(env: Env, main: seq<Operation>, decls: Declarations, c: Config, bases: seq<nat>, base: nat)
      returns (bases': seq<nat>, base': nat)
    requires Accepted(main, decls) && Typed(main, decls, c, bases, base)
    ensures StepTyped(main, decls, c, bases, base, Step(env, DeclaredProgram(main, decls), c), bases', base')
  {
    hide SafeHeights;
    hide StepTyped;
    hide DeclaredProgram;
    hide HeightsOf;
    hide SafeBody;
    hide CallersOk;
    var body := Body(DeclaredProgram(main, decls), c.cur.f);
    HeightHere(main, decls, c.cur, base, |c.stack|);
    if c.cur.ip < |body| {
      bases', base' := OperationTyped(env, main, decls, c, bases, base);
    } else {
      bases', base' := LeaveTyped(main, decls, c, bases, base);
    }
  }

  // ----- whole runs -----

  ghost predicate IsTyped(main: seq<Operation>, decls: Declarations, c: Config) {
    exists bases, base :: Typed(main, decls, c, bases, base)
  }

  lemma {:induction false} RunTyped(env: Env, main: seq<Operation>, decls: Declarations, c: Config, bases: seq<nat>,
      base: nat, n: nat)
    requires Accepted(main, decls) && Typed(main, decls, c, bases, base)
    ensures match Run(env, DeclaredProgram(main, decls), Running(c), n)
      case Running(c') => IsTyped(main, decls, c')
      case Stopped(why, st, _) => (why == Exit && st == []) || why == DivideFault
    decreases n
  {
    hide Step;
    hide FrameOk;
    hide CallersOk;
    hide DeclaredProgram;
    hide Accepted;
    if n == 0 {
      assert Typed(main, decls, c, bases, base);
    } else {
      var bases', base' := Preservation(env, main, decls, c, bases, base);
      var s := Step(env, DeclaredProgram(main, decls), c);
      if s.Running? {
        RunTyped(env, main, decls, s.config, bases', base', n - 1);
      }
    }
  }

  /**
   Type checker soundness: a run of an accepted program, of any length and recursion depth, is still
   running, has exited with an empty stack, or has divided by zero. It never underflows, never jumps
   outside a body and never calls a missing function.
   */
  lemma AcceptedProgramsAreSafe(env: Env, main: seq<Operation>, decls: Declarations, world: World, n: nat)
    requires Accepted(main, decls)
    ensures var r := Run(env, DeclaredProgram(main, decls), Start([], world), n);
      r.Running? || (r.why == Exit && r.stack == []) || r.why == DivideFault
  {
    assert Checked(decls, Main);
    assert SafeBody(main, decls, Main);
    EntryHeight(main, decls, Main);
    var c := Start([], world).config;
    assert CallersOk(main, decls, [], [], Main, 0);
    RunTyped(env, main, decls, c, [], 0, n);
  }

  /** The run from `s` first comes back from the call at depth `depth` after exactly `n` steps. */
  ghost predicate ReturnsAfter(env: Env, p: Program, s: State, depth: nat, n: nat) {
    && (forall k: nat :: k < n ==> InsideCall(Run(env, p, s, k), depth))
    && Run(env, p, s, n).Running? && |Run(env, p, s, n).config.callers| < depth
  }

  predicate InsideCall(s: State, depth: nat) {
    s.Running? && |s.config.callers| >= depth
  }

  /** Inside a call made from `c`: the callers below are as they were, and so is the stack below `floor`. */
  ghost predicate During(main: seq<Operation>, decls: Declarations, c: Config, id: nat, bases: seq<nat>,
      base: nat, floor: nat,
                         c': Config, bases': seq<nat>, base': nat)
    requires floor <= |c.stack| && |bases| == |c.callers|
  {
    var d := |c.callers| + 1;
    && Typed(main, decls, c', bases', base')
    && |c'.callers| >= d && c'.callers[..d] == c.callers + [Frame(c.cur.f, c.cur.ip + 1)]
    && bases'[..d] == bases + [base]
    && (if |c'.callers| == d then base' == floor && c'.cur.f == Function(id)
        else bases'[d] == floor && c'.callers[d].f == Function(id) && base' >= floor)
    && |c'.stack| >= floor && c'.stack[..floor] == c.stack[..floor]
  }

  /** Bases grow towards the top of the call stack. */
  lemma {:induction false} BasesBelow(main: seq<Operation>, decls: Declarations, callers: seq<Frame>, bases: seq<nat>,
      cur: FunctionRef, base: nat, i: nat)
    requires |bases| == |callers| && CallersOk(main, decls, callers, bases, cur, base) && i < |bases|
    ensures bases[i] <= base
    decreases |callers|
  {
    hide FrameOk;
    var n := |callers| - 1;
    if i < n {
      BasesBelow(main, decls, callers[..n], bases[..n], callers[n].f, bases[n], i);
    }
  }

  lemma BaseBelowCaller(main: seq<Operation>, decls: Declarations, c: Config, bases: seq<nat>, base: nat, d: nat)
    requires Typed(main, decls, c, bases, base) && d < |bases|
    ensures bases[d] <= bases[|bases|-1]
  {
    hide FrameOk;
    var n := |bases| - 1;
    if d < n {
      BasesBelow(main, decls, c.callers[..n], bases[..n], c.callers[n].f, bases[n], d);
    }
  }

  /** One step inside a call keeps everything below it. */
  lemma DuringStep(env: Env, main: seq<Operation>, decls: Declarations, c: Config, id: nat, bases: seq<nat>,
      base: nat, floor: nat,
                   c': Config, bases': seq<nat>, base': nat) returns (bases'': seq<nat>, base'': nat)
    requires Accepted(main, decls) && floor <= |c.stack| && |bases| == |c.callers|
    requires During(main, decls, c, id, bases, base, floor, c', bases', base')
    requires InsideCall(Step(env, DeclaredProgram(main, decls), c'), |c.callers| + 1)
    ensures During(main, decls, c, id, bases, base, floor, Step(env, DeclaredProgram(main, decls), c').config,
        bases'', base'')
  {
    hide Step;
    hide FrameOk;
    hide CallersOk;
    hide Accepted;
    hide DeclaredProgram;
    var d := |c.callers| + 1;
    bases'', base'' := Preservation(env, main, decls, c', bases', base');
    var s := Step(env, DeclaredProgram(main, decls), c').config;
    assert s.stack[..floor] == s.stack[..base'][..floor] == c'.stack[..base'][..floor] == c'.stack[..floor];
    if d < |bases'| {
      BaseBelowCaller(main, decls, c', bases', base', d);
    }
    assert s.callers[..d] == c'.callers[..d];
    assert bases''[..d] == bases'[..d];
  }

  lemma {:induction false} DuringRun(env: Env, main: seq<Operation>, decls: Declarations, c: Config, id: nat,
      bases: seq<nat>, base: nat,
                                     floor: nat, s: State, n: nat) returns (bases': seq<nat>, base': nat)
    requires Accepted(main, decls) && floor <= |c.stack| && |bases| == |c.callers|
    requires s.Running? && During(main, decls, c, id, bases, base, floor, s.config, bases + [base], floor)
    requires forall k: nat :: k <= n ==> InsideCall(Run(env, DeclaredProgram(main, decls), s, k), |c.callers| + 1)
    ensures var r := Run(env, DeclaredProgram(main, decls), s, n);
      r.Running? && During(main, decls, c, id, bases, base, floor, r.config, bases', base')
    decreases n
  {
    hide Step;
    hide During;
    hide Accepted;
    hide DeclaredProgram;
    var p := DeclaredProgram(main, decls);
    if n == 0 {
      bases', base' := bases + [base], floor;
    } else {
      var bases1, base1 := DuringRun(env, main, decls, c, id, bases, base, floor, s, n - 1);
      var c1 := Run(env, p, s, n - 1).config;
      OneStep(env, p, c1);
      RunAdd(env, p, s, n - 1, 1);
      bases', base' := DuringStep(env, main, decls, c, id, bases, base, floor, c1, bases1, base1);
    }
  }

  /**
   A call that comes back resumes right behind itself, in the same calling context, with the caller's
   stack below the declared inputs untouched and exactly the declared outputs on top of it.
   */
  lemma CallsLeaveDeclaredOutputs(env: Env, main: seq<Operation>, decls: Declarations, c: Config, bases: seq<nat>,
      base: nat, id: nat, n: nat)
    requires Accepted(main, decls) && Typed(main, decls, c, bases, base)
    requires var body := Body(DeclaredProgram(main, decls), c.cur.f);
      c.cur.ip < |body| && body[c.cur.ip].kind == Plain(CallSymbol(id))
    requires Step(env, DeclaredProgram(main, decls), c).Running?
    requires ReturnsAfter(env, DeclaredProgram(main, decls), Step(env, DeclaredProgram(main, decls), c),
        |c.callers| + 1, n)
    ensures var r := Run(env, DeclaredProgram(main, decls), Step(env, DeclaredProgram(main, decls), c), n).config;
      var floor := |c.stack| - InputsOf(decls, Function(id));
      && r.cur == Frame(c.cur.f, c.cur.ip + 1) && r.callers == c.callers
      && 0 <= floor && |r.stack| == floor + OutputsOf(decls, Function(id)) && r.stack[..floor] == c.stack[..floor]
  {
    hide FrameOk;
    hide CallersOk;
    hide During;
    hide Accepted;
    hide DeclaredProgram;
    var p := DeclaredProgram(main, decls);
    var d := |c.callers| + 1;
    var s := Step(env, p, c);
    assert s == Enter(p, c, id);
    hide Step;
    var floor := CallBegins(env, main, decls, c, bases, base, id);
    RunZero(env, p, s);
    assert n > 0;
    var bases2, base2 := DuringRun(env, main, decls, c, id, bases, base, floor, s, n - 1);
    var last := Run(env, p, s, n - 1).config;
    OneStep(env, p, last);
    RunAdd(env, p, s, n - 1, 1);
    CallFinishes(env, main, decls, c, bases, base, id, floor, last, bases2, base2);
  }

  lemma CallBegins(env: Env, main: seq<Operation>, decls: Declarations, c: Config, bases: seq<nat>, base: nat,
      id: nat) returns (floor: nat)
    requires Accepted(main, decls) && Typed(main, decls, c, bases, base)
    requires Step(env, DeclaredProgram(main, decls), c) == Enter(DeclaredProgram(main, decls), c, id)
    requires Step(env, DeclaredProgram(main, decls), c).Running?
    ensures floor == |c.stack| - InputsOf(decls, Function(id))
    ensures During(main, decls, c, id, bases, base, floor, Step(env, DeclaredProgram(main, decls), c).config,
        bases + [base], floor)
  {
    hide FrameOk;
    hide CallersOk;
    hide Accepted;
    hide DeclaredProgram;
    hide Step;
    var bases1, base1 := Preservation(env, main, decls, c, bases, base);
    floor := base1;
    var c' := Step(env, DeclaredProgram(main, decls), c).config;
    assert c'.callers == c.callers + [Frame(c.cur.f, c.cur.ip + 1)];
    assert c'.callers[..|c.callers| + 1] == c'.callers && bases1[..|c.callers| + 1] == bases1;
  }

  lemma CallFinishes(env: Env, main: seq<Operation>, decls: Declarations, c: Config, bases: seq<nat>, base: nat,
      id: nat, floor: nat,
                     last: Config, bases': seq<nat>, base': nat)
    requires Accepted(main, decls) && floor <= |c.stack| && |bases| == |c.callers|
    requires During(main, decls, c, id, bases, base, floor, last, bases', base')
    requires var s := Step(env, DeclaredProgram(main, decls), last);
      s.Running? && |s.config.callers| < |c.callers| + 1
    ensures var r := Step(env, DeclaredProgram(main, decls), last).config;
      && r.cur == Frame(c.cur.f, c.cur.ip + 1) && r.callers == c.callers
      && |r.stack| == floor + OutputsOf(decls, Function(id)) && r.stack[..floor] == c.stack[..floor]
  {
    hide FrameOk;
    hide CallersOk;
    hide Accepted;
    hide DeclaredProgram;
    hide Step;
    var d := |c.callers| + 1;
    var bases3, base3 := Preservation(env, main, decls, last, bases', base');
    assert last.callers[..d] == last.callers;
    assert last.callers[d - 1] == Frame(c.cur.f, c.cur.ip + 1);
    assert last.callers[..d - 1] == c.callers;
  }
}
