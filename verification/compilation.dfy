/** The linked jump code of a structured program runs exactly as the structured program does. */
module Compilation {
  import opened Words
  import opened Operations
  import opened Machine
  import opened Structured

  ghost predicate At(body: seq<Operation>, lo: nat, code: seq<Operation>) {
    lo + |code| <= |body| && body[lo..lo + |code|] == code
  }

  lemma AtParts(body: seq<Operation>, lo: nat, a: seq<Operation>, b: seq<Operation>)
    requires At(body, lo, a + b)
    ensures At(body, lo, a) && At(body, lo + |a|, b)
  {
    var whole := body[lo..lo + |a + b|];
    assert whole[..|a|] == a && whole[|a|..] == b;
    assert body[lo..lo + |a|] == whole[..|a|];
    assert body[lo + |a|..lo + |a| + |b|] == whole[|a|..];
  }

  lemma AtHead(body: seq<Operation>, lo: nat, op: Operation)
    requires At(body, lo, [op])
    ensures lo < |body| && body[lo] == op
  {
    assert body[lo..lo + 1][0] == body[lo];
  }

  lemma AtIfThen(body: seq<Operation>, lo: nat, s: Stmt)
    requires s.IfThen? && At(body, lo, LinkStmt(s, lo))
    ensures var end := lo + 1 + Size(s.thn);
      && end < |body|
      && body[lo] == Operation(If, To(end))
      && At(body, lo + 1, Link(s.thn, lo + 1))
      && body[end] == Operation(End, To(end + 1))
  {
    var end := lo + 1 + Size(s.thn);
    var i, t, e := [Operation(If, To(end))], Link(s.thn, lo + 1), [Operation(End, To(end + 1))];
    AtParts(body, lo, i + t, e);
    AtParts(body, lo, i, t);
    AtHead(body, lo, i[0]);
    AtHead(body, end, e[0]);
  }

  lemma AtIfElse(body: seq<Operation>, lo: nat, s: Stmt)
    requires s.IfElse? && At(body, lo, LinkStmt(s, lo))
    ensures var els := lo + 1 + Size(s.thn);
      var end := els + 1 + Size(s.els);
      && end < |body|
      && body[lo] == Operation(If, To(els + 1))
      && At(body, lo + 1, Link(s.thn, lo + 1))
      && body[els] == Operation(Else, To(end))
      && At(body, els + 1, Link(s.els, els + 1))
      && body[end] == Operation(End, To(end + 1))
  {
    var els := lo + 1 + Size(s.thn);
    var end := els + 1 + Size(s.els);
    var i, t, l := [Operation(If, To(els + 1))], Link(s.thn, lo + 1), [Operation(Else, To(end))];
    var e, n := Link(s.els, els + 1), [Operation(End, To(end + 1))];
    AtParts(body, lo, i + t + l + e, n);
    AtParts(body, lo, i + t + l, e);
    AtParts(body, lo, i + t, l);
    AtParts(body, lo, i, t);
    AtHead(body, lo, i[0]);
    AtHead(body, els, l[0]);
    AtHead(body, end, n[0]);
  }

  lemma AtLoop(body: seq<Operation>, lo: nat, s: Stmt)
    requires s.Loop? && At(body, lo, LinkStmt(s, lo))
    ensures var do := lo + 1 + Size(s.cond);
      var end := do + 1 + Size(s.body);
      && end < |body|
      && body[lo] == Operation(While, NoJump)
      && At(body, lo + 1, Link(s.cond, lo + 1))
      && body[do] == Operation(Do, To(end + 1))
      && At(body, do + 1, Link(s.body, do + 1))
      && body[end] == Operation(End, To(lo))
  {
    var do := lo + 1 + Size(s.cond);
    var end := do + 1 + Size(s.body);
    var w, c, d := [Operation(While, NoJump)], Link(s.cond, lo + 1), [Operation(Do, To(end + 1))];
    var b, n := Link(s.body, do + 1), [Operation(End, To(lo))];
    AtParts(body, lo, w + c + d + b, n);
    AtParts(body, lo, w + c + d, b);
    AtParts(body, lo, w + c, d);
    AtParts(body, lo, w, c);
    AtHead(body, lo, w[0]);
    AtHead(body, do, d[0]);
    AtHead(body, end, n[0]);
  }

  // ----- simulation -----

  /**
   `n` machine steps from `s` realise outcome `o` of code in `f` that falls through to index `hi`.
   When the fuel was too little, the machine has used it up and is still running.
   */
  ghost predicate Realises(env: Env, q: Program, s: State, f: FunctionRef, hi: nat, callers: seq<Frame>,
                           o: Outcome, fuel: nat, n: nat)
  {
    var r := Run(env, q, s, n);
    match o
    case Next(st, world) => r == Here(f, hi, callers, st, world)
    case Returned(st, world) => r == Here(f, |Body(q, f)|, callers, st, world)
    case Aborted(why, st, world) => r == Stopped(why, st, world)
    case OutOfFuel => n >= fuel && r.Running?
  }

  lemma Prepend(env: Env, q: Program, s: State, m: nat, s': State, f: FunctionRef, hi: nat, callers: seq<Frame>,
                o: Outcome, fuel: nat, fuel': nat, n: nat)
    requires Run(env, q, s, m) == s'
    requires Realises(env, q, s', f, hi, callers, o, fuel, n)
    requires fuel' <= fuel + m
    ensures Realises(env, q, s, f, hi, callers, o, fuel', m + n)
  {
    RunAdd(env, q, s, m, n);
  }

  lemma StepBranch(env: Env, q: Program, f: FunctionRef, ip: nat, callers: seq<Frame>, st: seq<Word>,
      world: World, t: nat)
    requires ip < |Body(q, f)| && Body(q, f)[ip] in {Operation(If, To(t)), Operation(Do, To(t))}
    ensures Run(env, q, Here(f, ip, callers, st, world), 1) ==
      if |st| < 1 then Stopped(Underflow, st, world)
      else Here(f, if st[|st|-1] == 0 then t else ip + 1, callers, st[..|st|-1], world)
  {
    OneStep(env, q, Here(f, ip, callers, st, world).config);
  }

  lemma StepJump(env: Env, q: Program, f: FunctionRef, ip: nat, callers: seq<Frame>, st: seq<Word>,
      world: World, t: nat)
    requires ip < |Body(q, f)|
    requires Body(q, f)[ip] in {Operation(Else, To(t)), Operation(End, To(t))}
          || (Body(q, f)[ip].kind == While && t == ip + 1)
    ensures Run(env, q, Here(f, ip, callers, st, world), 1) == Here(f, t, callers, st, world)
  {
    OneStep(env, q, Here(f, ip, callers, st, world).config);
  }

  lemma StepLeave(env: Env, q: Program, f: FunctionRef, callers: seq<Frame>, st: seq<Word>, world: World)
    ensures Run(env, q, Here(f, |Body(q, f)|, callers, st, world), 1)
         == Leave(Here(f, |Body(q, f)|, callers, st, world).config)
  {
    OneStep(env, q, Here(f, |Body(q, f)|, callers, st, world).config);
  }

  /** One step after `n` more. */
  lemma ThenJump(env: Env, q: Program, s: State, n: nat, f: FunctionRef, ip: nat, callers: seq<Frame>,
                 st: seq<Word>, world: World, t: nat)
    requires Run(env, q, s, n) == Here(f, ip, callers, st, world)
    requires ip < |Body(q, f)|
    requires Body(q, f)[ip] in {Operation(Else, To(t)), Operation(End, To(t))}
    ensures Run(env, q, s, n + 1) == Here(f, t, callers, st, world)
  {
    StepJump(env, q, f, ip, callers, st, world, t);
    RunAdd(env, q, s, n, 1);
  }

  lemma {:induction false} BlockRealised(env: Env, p: StructuredProgram, fuel: nat, f: FunctionRef, b: Block,
      lo: nat, callers: seq<Frame>, st: seq<Word>, world: World) returns (n: nat)
    requires f in p && At(LinkProgram(p)[f], lo, Link(b, lo))
    ensures Realises(env, LinkProgram(p), Here(f, lo, callers, st, world), f, lo + Size(b), callers,
                     Exec(env, p, fuel, b, st, world), fuel, n)
    decreases fuel, 1, b
  {
    hide Run;
    hide LinkStmt;
    hide ExecStmt;
    var q := LinkProgram(p);
    var s := Here(f, lo, callers, st, world);
    match b
    case Nil =>
      n := 0;
      RunZero(env, q, s);
    case Seq(h, rest) =>
      AtParts(q[f], lo, LinkStmt(h, lo), Link(rest, lo + StmtSize(h)));
      n := StmtRealised(env, p, fuel, f, h, lo, callers, st, world);
      var r := ExecStmt(env, p, fuel, h, st, world);
      if r.Next? {
        var mid := lo + StmtSize(h);
        var m := BlockRealised(env, p, fuel, f, rest, mid, callers, r.stack, r.world);
        Prepend(env, q, s, n, Here(f, mid, callers, r.stack, r.world), f, lo + Size(b), callers,
                Exec(env, p, fuel, rest, r.stack, r.world), fuel, fuel, m);
        n := n + m;
      }
  }

  lemma {:induction false} StmtRealised(env: Env, p: StructuredProgram, fuel: nat, f: FunctionRef, h: Stmt,
      lo: nat, callers: seq<Frame>, st: seq<Word>, world: World) returns (n: nat)
    requires f in p && At(LinkProgram(p)[f], lo, LinkStmt(h, lo))
    ensures Realises(env, LinkProgram(p), Here(f, lo, callers, st, world), f, lo + StmtSize(h), callers,
                     ExecStmt(env, p, fuel, h, st, world), fuel, n)
    decreases fuel, 1, h
  {
    match h
    case Simple(op) =>
      n := SimpleRealised(env, p, fuel, f, op, lo, callers, st, world);
    case IfThen(t) =>
      n := IfThenRealised(env, p, fuel, f, h, lo, callers, st, world);
    case IfElse(t, e) =>
      n := IfElseRealised(env, p, fuel, f, h, lo, callers, st, world);
    case Loop(c, b) =>
      if fuel == 0 {
        n := 0;
      } else {
        n := LoopRealised(env, p, fuel, f, h, lo, callers, st, world);
      }
  }

  lemma {:induction false} IfThenRealised(env: Env, p: StructuredProgram, fuel: nat, f: FunctionRef, h: Stmt,
      lo: nat, callers: seq<Frame>, st: seq<Word>, world: World) returns (n: nat)
    requires f in p && h.IfThen? && At(LinkProgram(p)[f], lo, LinkStmt(h, lo))
    ensures Realises(env, LinkProgram(p), Here(f, lo, callers, st, world), f, lo + StmtSize(h), callers,
                     ExecStmt(env, p, fuel, h, st, world), fuel, n)
    decreases fuel, 1, h, 0
  {
    hide Run;
    hide LinkStmt;
    var q := LinkProgram(p);
    var s := Here(f, lo, callers, st, world);
    var end := lo + 1 + Size(h.thn);
    AtIfThen(q[f], lo, h);
    StepBranch(env, q, f, lo, callers, st, world, end);
    n := 1;
    if |st| >= 1 {
      var st' := st[..|st|-1];
      if st[|st|-1] == 0 {
        ThenJump(env, q, s, 1, f, end, callers, st', world, end + 1);
        n := 2;
      } else {
        var m := BlockRealised(env, p, fuel, f, h.thn, lo + 1, callers, st', world);
        n := CloseBranch(env, q, s, 1, f, lo + 1, end, callers, st', world,
                         Exec(env, p, fuel, h.thn, st', world), fuel, m);
      }
    }
  }

  /** A branch body that runs into its closing `end` leaves the block. */
  lemma CloseBranch(env: Env, q: Program, s: State, m: nat, f: FunctionRef, lo: nat, end: nat, callers: seq<Frame>,
      st: seq<Word>, world: World, o: Outcome, fuel: nat, k: nat) returns (n: nat)
    requires f in q && end < |q[f]| && q[f][end] == Operation(End, To(end + 1))
    requires Run(env, q, s, m) == Here(f, lo, callers, st, world)
    requires Realises(env, q, Here(f, lo, callers, st, world), f, end, callers, o, fuel, k)
    ensures Realises(env, q, s, f, end + 1, callers, o, fuel, n)
  {
    hide Run;
    var mid := Here(f, lo, callers, st, world);
    n := k;
    if o.Next? {
      ThenJump(env, q, mid, k, f, end, callers, o.stack, o.world, end + 1);
      n := k + 1;
    }
    Prepend(env, q, s, m, mid, f, end + 1, callers, o, fuel, fuel, n);
    n := m + n;
  }

  lemma {:induction false} IfElseRealised(env: Env, p: StructuredProgram, fuel: nat, f: FunctionRef, h: Stmt,
      lo: nat, callers: seq<Frame>, st: seq<Word>, world: World) returns (n: nat)
    requires f in p && h.IfElse? && At(LinkProgram(p)[f], lo, LinkStmt(h, lo))
    ensures Realises(env, LinkProgram(p), Here(f, lo, callers, st, world), f, lo + StmtSize(h), callers,
                     ExecStmt(env, p, fuel, h, st, world), fuel, n)
    decreases fuel, 1, h, 0
  {
    hide Run;
    hide Step;
    hide LinkStmt;
    hide LinkProgram;
    hide Exec;
    var q := LinkProgram(p);
    var s := Here(f, lo, callers, st, world);
    var els := lo + 1 + Size(h.thn);
    var end := els + 1 + Size(h.els);
    AtIfElse(q[f], lo, h);
    StepBranch(env, q, f, lo, callers, st, world, els + 1);
    n := 1;
    if |st| >= 1 {
      var st' := st[..|st|-1];
      if st[|st|-1] == 0 {
        var m := BlockRealised(env, p, fuel, f, h.els, els + 1, callers, st', world);
        n := CloseBranch(env, q, s, 1, f, els + 1, end, callers, st', world,
                         Exec(env, p, fuel, h.els, st', world), fuel, m);
      } else {
        var m := BlockRealised(env, p, fuel, f, h.thn, lo + 1, callers, st', world);
        var o := Exec(env, p, fuel, h.thn, st', world);
        if o.Next? {
          ThenJump(env, q, Here(f, lo + 1, callers, st', world), m, f, els, callers, o.stack, o.world, end);
          m := m + 1;
        }
        n := CloseBranch(env, q, s, 1, f, lo + 1, end, callers, st', world, o, fuel, m);
      }
    }
  }

  lemma {:induction false} LoopRealised(env: Env, p: StructuredProgram, fuel: nat, f: FunctionRef, h: Stmt,
      lo: nat, callers: seq<Frame>, st: seq<Word>, world: World) returns (n: nat)
    requires f in p && h.Loop? && fuel > 0 && At(LinkProgram(p)[f], lo, LinkStmt(h, lo))
    ensures Realises(env, LinkProgram(p), Here(f, lo, callers, st, world), f, lo + StmtSize(h), callers,
                     ExecStmt(env, p, fuel, h, st, world), fuel, n)
    decreases fuel, 1, h, 1
  {
    hide Run;
    hide Step;
    hide LinkStmt;
    hide LinkProgram;
    hide Exec;
    var q := LinkProgram(p);
    var s := Here(f, lo, callers, st, world);
    var do := lo + 1 + Size(h.cond);
    var end := do + 1 + Size(h.body);
    AtLoop(q[f], lo, h);
    StepJump(env, q, f, lo, callers, st, world, lo + 1);
    var m := BlockRealised(env, p, fuel, f, h.cond, lo + 1, callers, st, world);
    var r := Exec(env, p, fuel, h.cond, st, world);
    Prepend(env, q, s, 1, Here(f, lo + 1, callers, st, world), f, do, callers, r, fuel, fuel, m);
    n := 1 + m;
    if r.Next? {
      StepBranch(env, q, f, do, callers, r.stack, r.world, end + 1);
      RunAdd(env, q, s, n, 1);
      n := n + 1;
      if |r.stack| >= 1 && r.stack[|r.stack|-1] != 0 {
        n := IterationRealised(env, p, fuel, f, h, lo, callers, s, n, r.stack[..|r.stack|-1], r.world);
      }
    }
  }

  /** From the loop body on: the body, the jump back, and the remaining iterations. */
  lemma {:induction false} IterationRealised(env: Env, p: StructuredProgram, fuel: nat, f: FunctionRef, h: Stmt,
      lo: nat, callers: seq<Frame>, s: State, m: nat, st: seq<Word>, world: World) returns (n: nat)
    requires f in p && h.Loop? && fuel > 0 && At(LinkProgram(p)[f], lo, LinkStmt(h, lo))
    requires Run(env, LinkProgram(p), s, m) == Here(f, lo + 2 + Size(h.cond), callers, st, world)
    ensures var r := Exec(env, p, fuel, h.body, st, world);
      Realises(env, LinkProgram(p), s, f, lo + StmtSize(h), callers,
               if r.Next? then ExecStmt(env, p, fuel - 1, h, r.stack, r.world) else r, fuel, n)
    decreases fuel, 1, h, 0
  {
    hide Run;
    hide Step;
    hide LinkStmt;
    hide LinkProgram;
    hide Exec;
    hide ExecStmt;
    var q := LinkProgram(p);
    var do := lo + 1 + Size(h.cond);
    var end := do + 1 + Size(h.body);
    AtLoop(q[f], lo, h);
    var k := BlockRealised(env, p, fuel, f, h.body, do + 1, callers, st, world);
    var r := Exec(env, p, fuel, h.body, st, world);
    Prepend(env, q, s, m, Here(f, do + 1, callers, st, world), f, end, callers, r, fuel, fuel, k);
    n := m + k;
    if r.Next? {
      ThenJump(env, q, s, n, f, end, callers, r.stack, r.world, lo);
      n := n + 1;
      var j := StmtRealised(env, p, fuel - 1, f, h, lo, callers, r.stack, r.world);
      Prepend(env, q, s, n, Here(f, lo, callers, r.stack, r.world), f, lo + StmtSize(h), callers,
              ExecStmt(env, p, fuel - 1, h, r.stack, r.world), fuel - 1, fuel, j);
      n := n + j;
    }
  }

  lemma {:induction false} SimpleRealised(env: Env, p: StructuredProgram, fuel: nat, f: FunctionRef, op: Plain,
      lo: nat, callers: seq<Frame>, st: seq<Word>, world: World) returns (n: nat)
    requires f in p && At(LinkProgram(p)[f], lo, LinkStmt(Simple(op), lo))
    ensures Realises(env, LinkProgram(p), Here(f, lo, callers, st, world), f, lo + 1, callers,
                     ExecSimple(env, p, fuel, op, st, world), fuel, n)
    decreases fuel, 0, 1
  {
    var q := LinkProgram(p);
    var s := Here(f, lo, callers, st, world);
    AtHead(q[f], lo, Operation(Plain(op), NoJump));
    OneStep(env, q, s.config);
    n := 1;
    if op.CallSymbol? {
      n := CallRealised(env, p, fuel, f, op.id, lo, callers, s, st, world);
    } else if op.Intrinsic? && op.intrinsic.Call? && |st| >= 1 {
      var target := env.resolve(st[|st|-1]);
      if target.Some? {
        n := CallRealised(env, p, fuel, f, target.value, lo, callers, s, st[..|st|-1], world);
      }
    }
  }

  lemma {:induction false} CallRealised(env: Env, p: StructuredProgram, fuel: nat, f: FunctionRef, id: nat,
      lo: nat, callers: seq<Frame>, s: State, st: seq<Word>, world: World) returns (n: nat)
    requires Run(env, LinkProgram(p), s, 1) == Enter(LinkProgram(p), Here(f, lo, callers, st, world).config, id)
    requires s.Running?
    ensures Realises(env, LinkProgram(p), s, f, lo + 1, callers, ExecCall(env, p, fuel, id, st, world), fuel, n)
    decreases fuel, 0, 0
  {
    hide Run;
    hide Link;
    var q := LinkProgram(p);
    var g := Function(id);
    n := 1;
    if g in p && fuel > 0 {
      var callers' := callers + [Frame(f, lo + 1)];
      assert q[g] == Link(p[g], 0) && q[g][0..|q[g]|] == q[g];
      var m := BlockRealised(env, p, fuel - 1, g, p[g], 0, callers', st, world);
      var r := Exec(env, p, fuel - 1, p[g], st, world);
      RunAdd(env, q, s, 1, m);
      n := 1 + m;
      if r.Next? || r.Returned? {
        StepLeave(env, q, g, callers', r.stack, r.world);
        assert callers'[..|callers'|-1] == callers;
        RunAdd(env, q, s, n, 1);
        n := n + 1;
      }
    }
  }

  // ----- the whole program -----

  /** How running `main` ends, if this much fuel suffices. */
  function ExecMain(env: Env, p: StructuredProgram, fuel: nat, st: seq<Word>, world: World): Outcome
    requires Main in p
  {
    Exec(env, p, fuel, p[Main], st, world)
  }

  /** The structured program ends with this stop, stack and world. */
  ghost predicate Ends(env: Env, p: StructuredProgram, st: seq<Word>, world: World,
                       why: Stop, st': seq<Word>, world': World)
    requires Main in p
  {
    exists fuel: nat :: EndsWithin(env, p, fuel, st, world, why, st', world')
  }

  predicate EndsWithin(env: Env, p: StructuredProgram, fuel: nat, st: seq<Word>, world: World,
                       why: Stop, st': seq<Word>, world': World)
    requires Main in p
  {
    match ExecMain(env, p, fuel, st, world)
    case Next(s, w) => why == Exit && st' == s && world' == w
    case Returned(s, w) => why == Exit && st' == s && world' == w
    case Aborted(y, s, w) => why == y && st' == s && world' == w
    case OutOfFuel => false
  }

  ghost predicate Halts(env: Env, q: Program, s: State, why: Stop, st: seq<Word>, world: World) {
    exists n: nat :: Run(env, q, s, n) == Stopped(why, st, world)
  }

  lemma MainRealised(env: Env, p: StructuredProgram, fuel: nat, st: seq<Word>, world: World) returns (n: nat)
    requires Main in p
    ensures var o := ExecMain(env, p, fuel, st, world);
      var r := Run(env, LinkProgram(p), Start(st, world), n);
      match o
      case Next(s, w) => r == Stopped(Exit, s, w)
      case Returned(s, w) => r == Stopped(Exit, s, w)
      case Aborted(why, s, w) => r == Stopped(why, s, w)
      case OutOfFuel => n >= fuel && r.Running?
  {
    var q := LinkProgram(p);
    assert q[Main][0..|q[Main]|] == q[Main];
    n := BlockRealised(env, p, fuel, Main, p[Main], 0, [], st, world);
    var o := ExecMain(env, p, fuel, st, world);
    if o.Next? || o.Returned? {
      OneStep(env, q, Here(Main, |q[Main]|, [], o.stack, o.world).config);
      RunAdd(env, q, Start(st, world), n, 1);
      n := n + 1;
    }
  }

  /**
   The jump code halts in a given way exactly when the structured program ends that way: same stop,
   same stack, same world, for every environment, call graph and starting stack. In particular one
   diverges exactly when the other does.
   */
  lemma CompilationCorrect(env: Env, p: StructuredProgram, st: seq<Word>, world: World,
                           why: Stop, st': seq<Word>, world': World)
    requires Main in p
    ensures Ends(env, p, st, world, why, st', world')
       <==> Halts(env, LinkProgram(p), Start(st, world), why, st', world')
  {
    var q := LinkProgram(p);
    var s := Start(st, world);
    if Ends(env, p, st, world, why, st', world') {
      var fuel: nat :| EndsWithin(env, p, fuel, st, world, why, st', world');
      var n := MainRealised(env, p, fuel, st, world);
      assert Run(env, q, s, n) == Stopped(why, st', world');
    }
    if Halts(env, q, s, why, st', world') {
      var n: nat :| Run(env, q, s, n) == Stopped(why, st', world');
      var m := MainRealised(env, p, n, st, world);
      if m <= n {
        if Run(env, q, s, m).Stopped? {
          RunStopped(env, q, s, m, n);
        }
      } else {
        RunStopped(env, q, s, n, m);
      }
      assert EndsWithin(env, p, n, st, world, why, st', world');
    }
  }
}
