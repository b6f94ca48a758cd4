/** Concrete bodies on which the optimizer's rewrites do change the meaning. */
module OptimizerCounterexamples {
  import opened Wrappers
  import opened Words
  import opened Operations
  import opened Machine
  import opened Structured
  import opened Folding
  import opened FoldCorrectness
  import opened Conditions
  import opened Simulation
  import opened Listing

  function Push(v: Word): Operation {
    Operation(Plain(PushInt(v, Int)), NoJump)
  }

  const PLUS: Operation := Operation(Plain(Intrinsic(Binary(Add))), NoJump)

  /** Runs that stop differently are told apart. */
  lemma StopsDiffer(env: Env, p: Program, p': Program, st: seq<Word>, world: World, m: nat, n: nat)
    requires Run(env, p, Start(st, world), m).Stopped? && Run(env, p', Start(st, world), n).Stopped?
    requires Run(env, p, Start(st, world), m).why != Run(env, p', Start(st, world), n).why
    ensures !Equivalent(env, p, p')
  {
    hide Step;
    var s := Start(st, world);
    if Equivalent(env, p, p') {
      assert SameObservations(env, p, s, p', s);
      var o := Observe(Run(env, p, s, m));
      assert Seen(env, p', s, o);
      var k: nat :| Observe(Run(env, p', s, k)) == o;
      if k <= n {
        RunStopped(env, p', s, k, n);
      } else {
        RunStopped(env, p', s, n, k);
      }
    }
  }

  // ----- a loop rewrite, then a fold -----

  /** `5 while true do 1 + end`. */
  const ENDLESS: Block :=
    Seq(Simple(PushInt(5, Int)), Seq(Loop(Seq(Simple(PushInt(1, Bool)), Nil),
                                          Seq(Simple(PushInt(1, Int)), Seq(Simple(Intrinsic(Binary(Add))), Nil))), Nil))

  const ENDLESS_CODE: seq<Operation> :=
    [Push(5), Operation(While, NoJump), Operation(Plain(PushInt(1, Bool)), NoJump), Operation(Do, To(7)), Push(1), PLUS,
     Operation(End, To(1))]

  /** What the infinite-loop rewrite leaves of it. */
  const LOOP: seq<Operation> := [Push(5), Push(1), PLUS, Operation(End, To(1))]

  lemma EndlessLinks()
    ensures Link(ENDLESS, 0) == ENDLESS_CODE
  {
    var cond := Seq(Simple(PushInt(1, Bool)), Nil);
    var add := Seq(Simple(Intrinsic(Binary(Add))), Nil);
    var body := Seq(Simple(PushInt(1, Int)), add);
    assert Link(cond, 2) == [Operation(Plain(PushInt(1, Bool)), NoJump)] && Size(cond) == 1;
    assert Link(add, 5) == [PLUS] && Size(add) == 1;
    assert Link(body, 4) == [Push(1), PLUS] && Size(body) == 2;
    var loop := Loop(cond, body);
    assert LinkStmt(loop, 1) == ENDLESS_CODE[1..];
    assert Link(Seq(loop, Nil), 1) == LinkStmt(loop, 1) + Link(Nil, 1 + StmtSize(loop));
  }

  /** The jump back now lands inside the run `5 1 +`, so the body is no longer guarded. */
  lemma LoopRewriteUnguards()
    ensures Guarded(Link(ENDLESS, 0)) && Link(ENDLESS, 0) == ENDLESS_CODE
    ensures RewriteInfiniteLoop(ENDLESS_CODE, 3) == Some(LOOP) && !Guarded(LOOP)
  {
    LinkGuarded(ENDLESS);
    EndlessLinks();
    LoopTakesIn();
    assert Jumps(LOOP[3].kind) && LOOP[3].jump == To(1) && !Landing(LOOP, 1);
    var body1 := ENDLESS_CODE[..7] + ENDLESS_CODE[7..];
    assert body1 == ENDLESS_CODE;
    var body2 := [Push(5), Operation(While, NoJump), Push(1), PLUS, Operation(End, To(1))];
    assert ENDLESS_CODE[..2] + ENDLESS_CODE[4..] == body2;
    assert Remap(body2, 4, Some(6), 3) == body2;
    assert FindWhile(body2, 1, 3) == Some(1);
    assert body2[..1] + body2[2..] == LOOP;
  }

  lemma LoopTakesIn()
    ensures TakesIn(LOOP, 0, 1)
  {
    assert LOOP[0..2] == [] + [LOOP[0]] + [LOOP[1]];
    FoldRunSnoc([], LOOP[0]);
    FoldRunSnoc([] + [LOOP[0]], LOOP[1]);
  }

  lemma LoopFolds()
    ensures FoldBody(LOOP) == FoldOutcome.Changed([Push(6), Operation(End, NoJump)])
  {
    assert ToSigned(Wrap(6)) == 6;
    assert FoldOperation([], LOOP[0]) == Folded([5]);
    assert FoldOperation([5], LOOP[1]) == Folded([5, 1]);
    assert FoldOperation([5, 1], LOOP[2]) == Folded([6]);
    assert FoldOperation([6], LOOP[3]) == Blocked;
    assert !AlreadyFolded(LOOP, 0, 3, [6]);
    assert ScanFrom(LOOP, 3, Some(0), [6]) == Found(0, 3, [6]);
    assert ScanFrom(LOOP, 2, Some(0), [5, 1]) == Found(0, 3, [6]);
    assert ScanFrom(LOOP, 1, Some(0), [5]) == Found(0, 3, [6]);
    assert ScanFrom(LOOP, 0, None, []) == Found(0, 3, [6]);
    assert LOOP[..0] + Pushes([6]) + LOOP[3..] == [Push(6), Operation(End, To(1))];
    assert Splice(LOOP, 0, 3, [6]) == [Push(6), Operation(End, NoJump)];
  }

  lemma {:induction false} LoopRunsOn(env: Env, p: Program, x: Word, world: World, n: nat)
    requires Main in p && p[Main] == LOOP
    ensures Run(env, p, Here(Main, 1, [], [x], world), n).Running?
    decreases n
  {
    var s0 := Here(Main, 1, [], [x], world);
    var s1 := Here(Main, 2, [], [x, 1], world);
    var s2 := Here(Main, 3, [], [Wrap(x + 1)], world);
    var s3 := Here(Main, 1, [], [Wrap(x + 1)], world);
    assert [x] + [1] == [x, 1];
    assert Step(env, p, s0.config) == s1;
    assert [x, 1][..0] + [Wrap(x + 1)] == [Wrap(x + 1)];
    assert Step(env, p, s1.config) == s2;
    assert Step(env, p, s2.config) == s3;
    hide Step;
    OneStep(env, p, s0.config);
    OneStep(env, p, s1.config);
    OneStep(env, p, s2.config);
    RunAdd(env, p, s0, 1, 1);
    RunAdd(env, p, s0, 2, 1);
    RunZero(env, p, s0);
    if n >= 3 {
      LoopRunsOn(env, p, Wrap(x + 1), world, n - 3);
      RunAdd(env, p, s0, 3, n - 3);
    } else {
      assert n == 0 || n == 1 || n == 2;
    }
  }

  lemma NotLinkable()
    ensures !Linkable([Push(6), Operation(End, NoJump)])
  {
    assert Jumps([Push(6), Operation(End, NoJump)][1].kind);
  }

  /** Folding leaves an `end` without a jump: the generator's assertion fails, and no jump makes it the loop it was. */
  lemma FoldAfterLoopRewriteDiffers(env: Env, world: World)
    ensures FoldBody(LOOP).Changed? && !Linkable(FoldBody(LOOP).body)
    ensures !Equivalent(env, map[Main := LOOP], map[Main := FoldBody(LOOP).body])
  {
    LoopFolds();
    NotLinkable();
    var p, p' := map[Main := LOOP], map[Main := FoldBody(LOOP).body];
    var s := Start([], world);
    FoldedLoopStops(env, p', world);
    hide Run;
    if Equivalent(env, p, p') {
      assert SameObservations(env, p, s, p', s);
      assert Seen(env, p, s, Observe(Run(env, p', s, 2)));
      var n: nat :| Observe(Run(env, p, s, n)) == Observe(Run(env, p', s, 2));
      LoopNeverStops(env, p, world, n);
    }
  }

  lemma FoldedLoopStops(env: Env, p: Program, world: World)
    requires Main in p && p[Main] == [Push(6), Operation(End, NoJump)]
    ensures Run(env, p, Start([], world), 2) == Stopped(BadJump, [6], world)
  {
    var s := Start([], world);
    var t1 := Here(Main, 1, [], [6], world);
    assert [] + [6] == [6];
    assert Step(env, p, s.config) == t1;
    assert Step(env, p, t1.config) == Stopped(BadJump, [6], world);
    hide Step;
    OneStep(env, p, s.config);
    OneStep(env, p, t1.config);
    RunAdd(env, p, s, 1, 1);
  }

  lemma LoopNeverStops(env: Env, p: Program, world: World, n: nat)
    requires Main in p && p[Main] == LOOP
    ensures Run(env, p, Start([], world), n).Running?
  {
    var s := Start([], world);
    assert Step(env, p, s.config) == Here(Main, 1, [], [5], world) by {
      assert [] + [5] == [5];
    }
    hide Step;
    if n > 0 {
      LoopRunsOn(env, p, 5, world, n - 1);
      OneStep(env, p, s.config);
      RunAdd(env, p, s, 1, n - 1);
    }
  }

  // ----- a loop nested in another block -----

  /** `0 if while 1 do end end`. */
  const NESTED: Block := Seq(Simple(PushInt(0, Int)),
      Seq(IfThen(Seq(Loop(Seq(Simple(PushInt(1, Int)), Nil), Nil), Nil)), Nil))

  const NESTED_CODE: seq<Operation> :=
    [Push(0), Operation(If, To(6)), Operation(While, NoJump), Push(1), Operation(Do, To(6)), Operation(End, To(2)),
     Operation(End, To(7))]

  lemma NestedLinks()
    ensures Link(NESTED, 0) == NESTED_CODE
  {
    assert Link(Seq(Simple(PushInt(1, Int)), Nil), 3) == [Push(1)];
    var loop := Loop(Seq(Simple(PushInt(1, Int)), Nil), Nil);
    assert LinkStmt(loop, 2) == [Operation(While, NoJump), Push(1), Operation(Do, To(6)), Operation(End, To(2))];
    assert Link(Seq(loop, Nil), 2) == LinkStmt(loop, 2);
    assert Size(Seq(loop, Nil)) == 4;
  }

  lemma NestedRewrites()
    ensures RewriteInfiniteLoop(NESTED_CODE, 4) == Some([Push(0), Operation(If, To(6)), Operation(End, To(2))])
  {
    var body1 := NESTED_CODE[..6];
    assert NESTED_CODE[..6] + NESTED_CODE[7..] == body1;
    assert Erase(NESTED_CODE, 6, 7) == Some(body1);
    var body2 := [Push(0), Operation(If, To(6)), Operation(While, NoJump), Operation(End, To(2))];
    assert body1[..3] + body1[5..] == body2;
    assert Erase(body1, 3, 5) == Some(body2);
    assert Remap(body2, 5, Some(5), 3) == body2;
    assert FindWhile(body2, 2, 4) == Some(2);
    assert body2[..2] + body2[3..] == [Push(0), Operation(If, To(6)), Operation(End, To(2))];
  }

  /** Cutting everything behind a nested endless loop cuts the `end` of the block around it. */
  lemma NestedLoopRewriteDiffers(env: Env, world: World)
    ensures RewriteInfiniteLoop(Link(NESTED, 0), 4).Some?
    ensures !Equivalent(env, map[Main := Link(NESTED, 0)], map[Main := RewriteInfiniteLoop(Link(NESTED, 0), 4).value])
  {
    hide Step;
    hide Link;
    hide RewriteInfiniteLoop;
    hide Equivalent;
    NestedLinks();
    NestedRewrites();
    var p, p' := map[Main := NESTED_CODE], map[Main := [Push(0), Operation(If, To(6)), Operation(End, To(2))]];
    NestedRuns(env, p, world);
    NestedRewrittenRuns(env, p', world);
    StopsDiffer(env, p, p', [], world, 4, 3);
  }

  lemma NestedRuns(env: Env, p: Program, world: World)
    requires Main in p && p[Main] == NESTED_CODE
    ensures Run(env, p, Start([], world), 4) == Stopped(Exit, [], world)
  {
    assert [] + [0] == [0] && [0][..0] == [];
    var s0, s1, s2, s3 := Start([], world), Here(Main, 1, [], [0], world), Here(Main, 6, [], [], world),
        Here(Main, 7, [], [], world);
    assert Step(env, p, s0.config) == s1;
    assert Step(env, p, s1.config) == s2;
    assert Step(env, p, s2.config) == s3;
    assert Step(env, p, s3.config) == Stopped(Exit, [], world);
    hide Step;
    FourSteps(env, p, s0, s1, s2, s3);
  }

  lemma NestedRewrittenRuns(env: Env, p: Program, world: World)
    requires Main in p && p[Main] == [Push(0), Operation(If, To(6)), Operation(End, To(2))]
    ensures Run(env, p, Start([], world), 3) == Stopped(BadJump, [], world)
  {
    assert [] + [0] == [0] && [0][..0] == [];
    var s0, s1, s2 := Start([], world), Here(Main, 1, [], [0], world), Here(Main, 6, [], [], world);
    assert Step(env, p, s0.config) == s1;
    assert Step(env, p, s1.config) == s2;
    assert Step(env, p, s2.config) == Stopped(BadJump, [], world);
    hide Step;
    ThreeSteps(env, p, s0, s1, s2);
  }

  lemma ThreeSteps(env: Env, p: Program, s0: State, s1: State, s2: State)
    requires s0.Running? && s1.Running? && s2.Running?
    requires Step(env, p, s0.config) == s1 && Step(env, p, s1.config) == s2
    ensures Run(env, p, s0, 3) == Step(env, p, s2.config)
  {
    hide Step;
    OneStep(env, p, s0.config);
    OneStep(env, p, s1.config);
    OneStep(env, p, s2.config);
    RunAdd(env, p, s0, 1, 1);
    RunAdd(env, p, s0, 2, 1);
  }

  lemma FourSteps(env: Env, p: Program, s0: State, s1: State, s2: State, s3: State)
    requires s0.Running? && s1.Running? && s2.Running? && s3.Running?
    requires Step(env, p, s0.config) == s1 && Step(env, p, s1.config) == s2 && Step(env, p, s2.config) == s3
    ensures Run(env, p, s0, 4) == Step(env, p, s3.config)
  {
    hide Step;
    ThreeSteps(env, p, s0, s1, s2);
    OneStep(env, p, s3.config);
    RunAdd(env, p, s0, 3, 1);
  }

  // ----- a constant `if` without `else` -----

  /** `1 if 7 end`, linked. */
  const IF_CODE: seq<Operation> := [Push(1), Operation(If, To(3)), Push(7), Operation(End, To(4))]

  lemma ConstantIfRewrites()
    ensures RewriteTrueIf(IF_CODE, 1) == Some([Operation(End, To(3))])
  {
    var body1 := [Push(1), Operation(If, To(3)), Operation(End, To(4))];
    assert IF_CODE[..2] + IF_CODE[3..] == body1;
    assert Erase(IF_CODE, 2, 3) == Some(body1);
    var one := Operation(Plain(PushInt(1, Int)), To(0xFFFF_FFFE));
    var body2 := [one, Operation(If, To(2)), Operation(End, To(3))];
    assert Remap(body1, 2, None, 1) == body2;
    var body3 := [one, Operation(If, To(0)), Operation(End, To(3))];
    assert Remap(body2, 1, Some(2), 2) == body3;
    assert body3[..0] + body3[2..] == [Operation(End, To(3))];
    assert Erase(body3, 0, 2) == Some([Operation(End, To(3))]);
  }

  /** The pass takes the operation before `end` for the `end`, and drops it. */
  lemma ConstantIfRewriteDiffers(env: Env, world: World)
    ensures IF_CODE == Link(Seq(Simple(PushInt(1, Int)), Seq(IfThen(Seq(Simple(PushInt(7, Int)), Nil)), Nil)), 0)
    ensures IsCondition(IF_CODE, 1) && RewriteCondition(IF_CODE, 1).Some?
    ensures !Equivalent(env, map[Main := IF_CODE], map[Main := RewriteCondition(IF_CODE, 1).value])
  {
    hide Step;
    hide Run;
    hide Equivalent;
    hide RewriteTrueIf;
    ConstantIfRewrites();
    ConstantIfLinks();
    var p, p' := map[Main := IF_CODE], map[Main := [Operation(End, To(3))]];
    ConstantIfRuns(env, p, world);
    RewrittenIfRuns(env, p', world);
    StopsDiffer(env, p, p', [], world, 5, 2);
  }

  lemma ConstantIfLinks()
    ensures IF_CODE == Link(Seq(Simple(PushInt(1, Int)), Seq(IfThen(Seq(Simple(PushInt(7, Int)), Nil)), Nil)), 0)
  {
    assert Link(Seq(Simple(PushInt(7, Int)), Nil), 2) == [Push(7)];
  }

  lemma RewrittenIfRuns(env: Env, p: Program, world: World)
    requires Main in p && p[Main] == [Operation(End, To(3))]
    ensures Run(env, p, Start([], world), 2) == Stopped(BadJump, [], world)
  {
    var s0, t1 := Start([], world), Here(Main, 3, [], [], world);
    assert Step(env, p, s0.config) == t1;
    assert Step(env, p, t1.config) == Stopped(BadJump, [], world);
    hide Step;
    OneStep(env, p, s0.config);
    OneStep(env, p, t1.config);
    RunAdd(env, p, s0, 1, 1);
  }

  lemma ConstantIfRuns(env: Env, p: Program, world: World)
    requires Main in p && p[Main] == IF_CODE
    ensures Run(env, p, Start([], world), 5) == Stopped(Exit, [7], world)
  {
    assert [] + [1] == [1] && [1][..0] == [] && [] + [7] == [7];
    var s0, s1, s2 := Start([], world), Here(Main, 1, [], [1], world), Here(Main, 2, [], [], world);
    var s3, s4 := Here(Main, 3, [], [7], world), Here(Main, 4, [], [7], world);
    assert Step(env, p, s0.config) == s1;
    assert Step(env, p, s1.config) == s2;
    assert Step(env, p, s2.config) == s3;
    assert Step(env, p, s3.config) == s4;
    assert Step(env, p, s4.config) == Stopped(Exit, [7], world);
    hide Step;
    FourSteps(env, p, s0, s1, s2, s3);
    OneStep(env, p, s4.config);
    RunAdd(env, p, s0, 4, 1);
  }

  // ----- other constant branches -----

  function Control(k: Kind, t: nat): Operation {
    Operation(k, To(t))
  }

  /** A body that stands still at its start, in whatever state it gets there. */
  lemma {:induction false} StandsStill(env: Env, p: Program, ip: nat, st: seq<Word>, world: World, n: nat)
    requires Main in p && ip < |p[Main]| && p[Main][ip] == Control(End, ip)
    ensures Run(env, p, Here(Main, ip, [], st, world), n) == Here(Main, ip, [], st, world)
    decreases n
  {
    var s := Here(Main, ip, [], st, world);
    assert Step(env, p, s.config) == s;
    hide Step;
    if n > 0 {
      StandsStill(env, p, ip, st, world, n - 1);
    }
  }

  /** A run that stops is told from one that never does. */
  lemma StopsOnlyOnce(env: Env, p: Program, p': Program, st: seq<Word>, world: World, m: nat)
    requires Run(env, p, Start(st, world), m).Stopped? && forall n: nat :: Run(env, p', Start(st, world), n).Running?
    ensures !Equivalent(env, p, p')
  {
    var s := Start(st, world);
    NeverSeen(env, p', s, Observe(Run(env, p, s, m)));
    hide Run;
    assert !SameObservations(env, p, s, p', s);
  }

  lemma NeverSeen(env: Env, p: Program, s: State, o: Observation)
    requires o.stopped.Some? && forall n: nat :: Run(env, p, s, n).Running?
    ensures !Seen(env, p, s, o)
  {
    hide Run;
    forall n: nat
      ensures Observe(Run(env, p, s, n)) != o
    {
      assert Run(env, p, s, n).Running?;
    }
  }

  /** `0 if end`, linked. */
  const EMPTY_IF: seq<Operation> := [Push(0), Control(If, 2), Control(End, 3)]

  lemma EmptyIfRewrites()
    ensures RewriteFalseIf(EMPTY_IF, 1) == Some([Control(End, 0)])
  {
    assert EMPTY_IF[..0] + EMPTY_IF[2..] == [Control(End, 3)];
    assert Erase(EMPTY_IF, 0, 2) == Some([Control(End, 3)]);
    assert Remap([Control(End, 3)], 1, None, 3) == [Control(End, 0)];
  }

  lemma EmptyIfRuns(env: Env, p: Program, world: World)
    requires Main in p && p[Main] == EMPTY_IF
    ensures Run(env, p, Start([], world), 4) == Stopped(Exit, [], world)
  {
    assert [] + [0] == [0] && [0][..0] == [];
    var s0, s1, s2, s3 := Start([], world), Here(Main, 1, [], [0], world), Here(Main, 2, [], [], world),
        Here(Main, 3, [], [], world);
    assert Step(env, p, s0.config) == s1;
    assert Step(env, p, s1.config) == s2;
    assert Step(env, p, s2.config) == s3;
    assert Step(env, p, s3.config) == Stopped(Exit, [], world);
    hide Step;
    FourSteps(env, p, s0, s1, s2, s3);
  }

  /** What is left of `0 if end` jumps to itself: a program that exits now runs on forever. */
  lemma EmptyIfRewriteDiffers(env: Env, world: World)
    ensures EMPTY_IF == Link(Seq(Simple(PushInt(0, Int)), Seq(IfThen(Nil), Nil)), 0)
    ensures IsCondition(EMPTY_IF, 1) && RewriteCondition(EMPTY_IF, 1).Some?
    ensures !Equivalent(env, map[Main := EMPTY_IF], map[Main := RewriteCondition(EMPTY_IF, 1).value])
  {
    hide Step;
    hide Run;
    hide Equivalent;
    hide RewriteFalseIf;
    EmptyIfRewrites();
    assert LinkStmt(IfThen(Nil), 1) == [Control(If, 2), Control(End, 3)];
    var p, p' := map[Main := EMPTY_IF], map[Main := [Control(End, 0)]];
    EmptyIfRuns(env, p, world);
    forall n: nat
      ensures Run(env, p', Start([], world), n).Running?
    {
      StandsStill(env, p', 0, [], world, n);
    }
    StopsOnlyOnce(env, p, p', [], world, 4);
  }

  // ----- a dead loop in a branch -----

  const ARGC: Operation := Operation(Plain(Intrinsic(Argc)), NoJump)

  const DEAD: Block :=
    Seq(Simple(Intrinsic(Argc)), Seq(IfThen(Seq(Loop(Seq(Simple(PushInt(0, Int)), Nil), Nil), Nil)), Nil))

  /** `argc if while 0 do end end`, linked. */
  const DEAD_CODE: seq<Operation> :=
    [ARGC, Control(If, 6), Operation(While, NoJump), Push(0), Control(Do, 6), Control(End, 2), Control(End, 7)]

  /** What is left of it; the jump of `argc` is no longer empty, and nobody reads it. */
  const DEAD_REWRITTEN: seq<Operation> := [ARGC.(jump := To(0xFFFF_FFFB)), Control(If, 1), Control(End, 2)]

  lemma DeadLinks()
    ensures Link(DEAD, 0) == DEAD_CODE
  {
    assert Link(Seq(Simple(PushInt(0, Int)), Nil), 3) == [Push(0)];
    var loop := Loop(Seq(Simple(PushInt(0, Int)), Nil), Nil);
    assert LinkStmt(loop, 2) == [Operation(While, NoJump), Push(0), Control(Do, 6), Control(End, 2)];
    assert Link(Seq(loop, Nil), 2) == LinkStmt(loop, 2);
    assert Size(Seq(loop, Nil)) == 4;
  }

  lemma DeadRewrites()
    ensures RewriteDeadLoop(DEAD_CODE, 4) == Some(DEAD_REWRITTEN)
  {
    var body1 := [ARGC, Control(If, 6), Operation(While, NoJump), Control(End, 7)];
    assert DEAD_CODE[..3] + DEAD_CODE[6..] == body1;
    assert Erase(DEAD_CODE, 3, 6) == Some(body1);
    var argc, loop := ARGC.(jump := To(0xFFFF_FFFB)), Operation(While, To(0xFFFF_FFFB));
    var body2 := [argc, Control(If, 2), loop, Control(End, 3)];
    assert Remap(body1, 5, None, 4) == body2;
    assert FindWhile(body2, 2, 4) == Some(2);
    var body3 := [argc, Control(If, 2), Control(End, 3)];
    assert body2[..2] + body2[3..] == body3;
    assert Remap(body3, 2, Some(4), 1) == DEAD_REWRITTEN;
  }

  lemma DeadRuns(env: Env, p: Program, world: World) returns (n: nat)
    requires Main in p && p[Main] == DEAD_CODE
    ensures Run(env, p, Start([], world), n) == Stopped(Exit, [], world)
  {
    var v := env.argc;
    assert [] + [v] == [v] && [v][..0] == [] && [] + [0] == [0] && [0][..0] == [];
    var s0, s1, s6, s7 := Start([], world), Here(Main, 1, [], [v], world), Here(Main, 6, [], [], world),
        Here(Main, 7, [], [], world);
    var s2, s3, s4 := Here(Main, 2, [], [], world), Here(Main, 3, [], [], world), Here(Main, 4, [], [0], world);
    assert Step(env, p, s0.config) == s1;
    assert Step(env, p, s1.config) == if v == 0 then s6 else s2;
    assert Step(env, p, s2.config) == s3 && Step(env, p, s3.config) == s4 && Step(env, p, s4.config) == s6;
    assert Step(env, p, s6.config) == s7 && Step(env, p, s7.config) == Stopped(Exit, [], world);
    hide Step;
    if v == 0 {
      FourSteps(env, p, s0, s1, s6, s7);
      n := 4;
    } else {
      FourSteps(env, p, s0, s1, s2, s3);
      ThreeSteps(env, p, s4, s6, s7);
      RunAdd(env, p, s0, 4, 3);
      n := 7;
    }
  }

  lemma DeadRewrittenRuns(env: Env, p: Program, world: World)
    requires Main in p && p[Main] == DEAD_REWRITTEN
    ensures Run(env, p, Start([], world), 2) == if env.argc == 0 then Here(Main, 1, [], [], world)
        else Here(Main, 2, [], [], world)
    ensures Run(env, p, Here(Main, 1, [], [], world), 1) == Stopped(Underflow, [], world)
  {
    var v := env.argc;
    assert [] + [v] == [v] && [v][..0] == [];
    var s0, s1, s2 := Start([], world), Here(Main, 1, [], [v], world), Here(Main, 1, [], [], world);
    assert Step(env, p, s0.config) == s1;
    assert Step(env, p, s1.config) == if v == 0 then s2 else Here(Main, 2, [], [], world);
    assert Step(env, p, s2.config) == Stopped(Underflow, [], world);
    hide Step;
    OneStep(env, p, s0.config);
    OneStep(env, p, s1.config);
    OneStep(env, p, s2.config);
    RunAdd(env, p, s0, 1, 1);
  }

  /**
   Jumps just behind a dead loop are lowered twice: what is left of `argc if while 0 do end end` underflows without
   arguments and never ends with them.
   */
  lemma DeadLoopRewriteDiffers(env: Env, world: World)
    ensures Link(DEAD, 0) == DEAD_CODE && IsCondition(DEAD_CODE, 4) && RewriteCondition(DEAD_CODE, 4).Some?
    ensures !Equivalent(env, map[Main := DEAD_CODE], map[Main := RewriteCondition(DEAD_CODE, 4).value])
  {
    hide Step;
    hide Run;
    hide Equivalent;
    hide RewriteDeadLoop;
    hide Link;
    DeadLinks();
    DeadRewrites();
    var p, p' := map[Main := DEAD_CODE], map[Main := DEAD_REWRITTEN];
    var m := DeadRuns(env, p, world);
    DeadRewrittenRuns(env, p', world);
    if env.argc == 0 {
      RunAdd(env, p', Start([], world), 2, 1);
      StopsDiffer(env, p, p', [], world, m, 3);
    } else {
      forall n: nat
        ensures Run(env, p', Start([], world), n).Running?
      {
        if n >= 2 {
          StandsStill(env, p', 2, [], world, n - 2);
          RunAdd(env, p', Start([], world), 2, n - 2);
        } else {
          NotYetStopped(env, p', Start([], world), n, 2);
        }
      }
      StopsOnlyOnce(env, p, p', [], world, m);
    }
  }

  lemma NotYetStopped(env: Env, p: Program, s: State, m: nat, n: nat)
    requires m <= n && Run(env, p, s, n).Running?
    ensures Run(env, p, s, m).Running?
  {
    if Run(env, p, s, m).Stopped? {
      RunStopped(env, p, s, m, n);
    }
  }

  // ----- a constant `if` with an empty `else` -----

  /** `<value> if 7 else end`, linked. */
  function EmptyElse(value: Word): seq<Operation> {
    [Push(value), Control(If, 4), Push(7), Control(Else, 4), Control(End, 5)]
  }

  lemma EmptyElseLinks(value: Word)
    ensures EmptyElse(value) == Link(Seq(Simple(PushInt(value, Int)),
        Seq(IfElse(Seq(Simple(PushInt(7, Int)), Nil), Nil), Nil)), 0)
  {
    assert Link(Seq(Simple(PushInt(7, Int)), Nil), 2) == [Push(7)];
    var branch := IfElse(Seq(Simple(PushInt(7, Int)), Nil), Nil);
    assert LinkStmt(branch, 1) == [Control(If, 4), Push(7), Control(Else, 4), Control(End, 5)];
  }

  lemma TrueElseRewrites()
    ensures RewriteTrueIf(EmptyElse(1), 1)
        == Some([Operation(Plain(PushInt(7, Int)), To(0xFFFF_FFFE)), Control(End, 4)])
  {
    var body := EmptyElse(1);
    var body1 := [Push(1), Control(If, 4), Push(7), Control(End, 5)];
    assert body[..3] + body[4..] == body1;
    assert Erase(body, 3, 4) == Some(body1);
    var one, seven := Operation(Plain(PushInt(1, Int)), To(0xFFFF_FFFE)),
        Operation(Plain(PushInt(7, Int)), To(0xFFFF_FFFE));
    var body2 := [one, Control(If, 3), seven, Control(End, 4)];
    assert Remap(body1, 3, None, 1) == body2;
    var body3 := [one, Control(If, 1), seven, Control(End, 4)];
    assert Remap(body2, 1, Some(3), 2) == body3;
    assert body3[..0] + body3[2..] == [seven, Control(End, 4)];
    assert Erase(body3, 0, 2) == Some([seven, Control(End, 4)]);
  }

  lemma FalseElseRewrites()
    ensures RewriteFalseIf(EmptyElse(0), 1) == Some([Control(End, 2)])
  {
    var body := EmptyElse(0);
    assert body[..0] + body[4..] == [Control(End, 5)];
    assert Erase(body, 0, 4) == Some([Control(End, 5)]);
    assert Remap([Control(End, 5)], 3, None, 3) == [Control(End, 2)];
  }

  /** `<value> if 7 else end` exits, whatever the value. */
  lemma EmptyElseRuns(env: Env, p: Program, value: Word, world: World) returns (n: nat)
    requires Main in p && p[Main] == EmptyElse(value)
    ensures Run(env, p, Start([], world), n).Stopped? && Run(env, p, Start([], world), n).why == Exit
  {
    assert [] + [value] == [value] && [value][..0] == [] && [] + [7] == [7];
    var s0, s1, s2 := Start([], world), Here(Main, 1, [], [value], world), Here(Main, 2, [], [], world);
    var s3, t4, t5 := Here(Main, 3, [], [7], world), Here(Main, 4, [], [7], world), Here(Main, 5, [], [7], world);
    var u4, u5 := Here(Main, 4, [], [], world), Here(Main, 5, [], [], world);
    assert Step(env, p, s0.config) == s1;
    assert Step(env, p, s1.config) == if value == 0 then u4 else s2;
    assert Step(env, p, s2.config) == s3 && Step(env, p, s3.config) == t4;
    assert Step(env, p, t4.config) == t5 && Step(env, p, t5.config) == Stopped(Exit, [7], world);
    assert Step(env, p, u4.config) == u5 && Step(env, p, u5.config) == Stopped(Exit, [], world);
    hide Step;
    if value == 0 {
      FourSteps(env, p, s0, s1, u4, u5);
      n := 4;
    } else {
      ThreeSteps(env, p, s0, s1, s2);
      ThreeSteps(env, p, s3, t4, t5);
      RunAdd(env, p, s0, 3, 3);
      n := 6;
    }
  }

  lemma JumpsOut(env: Env, p: Program, ip: nat, t: nat, st: seq<Word>, world: World)
    requires Main in p && ip < |p[Main]| < t && p[Main][ip] == Control(End, t)
    ensures Run(env, p, Here(Main, ip, [], st, world), 2) == Stopped(BadJump, st, world)
  {
    var s0, s1 := Here(Main, ip, [], st, world), Here(Main, t, [], st, world);
    assert Step(env, p, s0.config) == s1;
    assert Step(env, p, s1.config) == Stopped(BadJump, st, world);
    hide Step;
    OneStep(env, p, s0.config);
    OneStep(env, p, s1.config);
    RunAdd(env, p, s0, 1, 1);
  }

  lemma TrueElseJumpsOut(env: Env, p: Program, world: World)
    requires Main in p && p[Main] == [Operation(Plain(PushInt(7, Int)), To(0xFFFF_FFFE)), Control(End, 4)]
    ensures Run(env, p, Start([], world), 3) == Stopped(BadJump, [7], world)
  {
    assert [] + [7] == [7];
    assert Step(env, p, Start([], world).config) == Here(Main, 1, [], [7], world);
    hide Step;
    OneStep(env, p, Start([], world).config);
    JumpsOut(env, p, 1, 4, [7], world);
    RunAdd(env, p, Start([], world), 1, 2);
  }

  /** With an empty `else` the `end` that stays jumps out of the body, whether the condition is true or false. */
  lemma EmptyElseRewriteDiffers(env: Env, value: Word, world: World)
    requires value <= 1
    ensures EmptyElse(value) == Link(Seq(Simple(PushInt(value, Int)),
        Seq(IfElse(Seq(Simple(PushInt(7, Int)), Nil), Nil), Nil)), 0)
    ensures IsCondition(EmptyElse(value), 1) && RewriteCondition(EmptyElse(value), 1).Some?
    ensures !Equivalent(env, map[Main := EmptyElse(value)], map[Main := RewriteCondition(EmptyElse(value), 1).value])
  {
    hide Step;
    hide Run;
    hide Equivalent;
    hide Link;
    hide RewriteTrueIf;
    hide RewriteFalseIf;
    EmptyElseLinks(value);
    var p := map[Main := EmptyElse(value)];
    var m := EmptyElseRuns(env, p, value, world);
    if value == 1 {
      TrueElseRewrites();
      var p' := map[Main := [Operation(Plain(PushInt(7, Int)), To(0xFFFF_FFFE)), Control(End, 4)]];
      TrueElseJumpsOut(env, p', world);
      StopsDiffer(env, p, p', [], world, m, 3);
    } else {
      FalseElseRewrites();
      var p' := map[Main := [Control(End, 2)]];
      JumpsOut(env, p', 0, 2, [], world);
      StopsDiffer(env, p, p', [], world, m, 2);
    }
  }
}
