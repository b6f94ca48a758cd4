/**
 The compiler end to end: tokens, linked jump code, whatever the optimizer runs, generated code. The last does
 exactly what the structured source means.
 */
module Pipeline {
  import opened Wrappers
  import opened Words
  import opened Operations
  import opened Machine
  import opened Simulation
  import opened Structured
  import opened Compilation
  import opened Conditions
  import opened UnusedWords
  import opened Optimizer
  import opened Processor
  import opened CodegenCorrectness
  import opened FoldSchedules
  import opened OptimizerRuns
  import opened CheckedRuns
  import opened ConditionPasses
  import opened Contexts
  import LoopRewriting
  import BranchRewriting
  import P = Parsing
  import F = ForwardTranslation
  import opened SourceMeaning
  import opened FrontEnd
  import opened Types
  import opened TypeSafety

  // ----- end to end -----

  lemma ExitsIsHalts(env: Env, q: Program, s: State, st: seq<Word>, end: World)
    ensures MachineExits(env, q, s, st, end) <==> Halts(env, q, s, Exit, st, end)
  {
    hide Run;
  }

  /** Where a run of the optimizer ends. */
  function Optimized(trace: seq<Stage>): Program {
    if trace == [] then map[] else Compiled(trace[|trace| - 1])
  }

  /** Generated, assembled and started. */
  ghost predicate Loaded(env: Env, layout: Layout, q: Program, stack: seq<Word>, world: World, a: Asm) {
    Generable(q) ==> Fits(env, layout, q) && Boots(q, stack, world, a)
  }

  /** A run of the optimizer on this program, every step of it sound on the program it meets. */
  ghost predicate OptimizerRun(q: Program, trace: seq<Stage>) {
    SoundTrace(trace) && Compiled(trace[0]) == q
  }

  /** Whatever the driver does to a calm program with closed sharers is such a run. */
  lemma CalmOptimizerRun(q: Program, trace: seq<Stage>)
    requires IsTrace(trace) && Compiled(trace[0]) == q && CalmStage(trace[0]) && SharersClosed(trace[0].words)
    ensures OptimizerRun(q, trace)
  {
    hide StageStep;
    hide SoundTrace;
    hide CalmStage;
    hide SharersClosed;
    CalmRun(trace);
  }

  /** Addresses that resolve are those of the program that is loaded. */
  lemma FitsResolves(env: Env, layout: Layout, q: Program)
    requires Fits(env, layout, q)
    ensures ResolvesWithin(env, q)
  {
    hide Generable;
    hide Addressed;
    forall v: Word
      ensures env.resolve(v).Some? ==> Function(env.resolve(v).value) in q
    {
      assert env.resolve(v) == EntryAt(layout, q, v);
    }
  }

  /** What the optimizer leaves can be generated and, where it is loaded, does what it started from does. */
  lemma OptimizedAlike(env: Env, layout: Layout, q: Program, trace: seq<Stage>, stack: seq<Word>, world: World, a: Asm)
    requires AllReady(q) && OptimizerRun(q, trace) && Loaded(env, layout, Optimized(trace), stack, world, a)
    ensures Generable(Optimized(trace)) && Equivalent(env, q, Optimized(trace))
  {
    hide Equivalent;
    hide SoundTrace;
    hide Compiled;
    hide AllReady;
    hide Fits;
    hide Boots;
    hide Generable;
    hide ResolvesWithin;
    assert trace != [] by {
      NotEmptyTrace(trace);
    }
    RunReady(trace);
    ReadyGenerable(Optimized(trace));
    FitsResolves(env, layout, Optimized(trace));
    RunUnobservable(env, trace);
  }

  lemma NotEmptyTrace(trace: seq<Stage>)
    requires SoundTrace(trace)
    ensures trace != []
  {
  }

  /** The source ends for this reason in this world, whatever is left on the stack. */
  ghost predicate SourceEndsFor(env: Env, words: P.Dictionary, source: F.Source, stack: seq<Word>, world: World,
                                why: Stop, end: World) {
    exists st :: SourceEnds(env, words, source, stack, world, why, st, end)
  }

  /** The source ends as any program does that cannot be told from its linked blocks. */
  lemma SourceHalts(env: Env, words: P.Dictionary, source: F.Source, r: Program, stack: seq<Word>, world: World,
                    why: Stop, st: seq<Word>, end: World)
    requires F.Formed(words, P.Global, source) && AllNested(source) && IdsApart(words, DefinitionsOf(source))
    requires Equivalent(env, LinkProgram(ProgramBlocks(words, source)), r)
    ensures SourceEnds(env, words, source, stack, world, why, st, end)
       <==> Halts(env, r, Start(stack, world), why, st, end)
  {
    hide Ends;
    hide SourceEnds;
    hide Halts;
    hide Equivalent;
    hide LinkProgram;
    var p := ProgramBlocks(words, source);
    SourceIsBlocks(env, words, source, stack, world, why, st, end);
    CompilationCorrect(env, p, stack, world, why, st, end);
    EquivalentHalts(env, LinkProgram(p), r, stack, world, why, st, end);
  }

  lemma SourceHaltsFor(env: Env, words: P.Dictionary, source: F.Source, r: Program, stack: seq<Word>, world: World,
                       why: Stop, end: World)
    requires F.Formed(words, P.Global, source) && AllNested(source) && IdsApart(words, DefinitionsOf(source))
    requires Equivalent(env, LinkProgram(ProgramBlocks(words, source)), r)
    ensures SourceEndsFor(env, words, source, stack, world, why, end)
       <==> MachineEnds(env, r, Start(stack, world), why, end)
  {
    hide SourceEnds;
    hide Equivalent;
    hide LinkProgram;
    hide Run;
    if st :| SourceEnds(env, words, source, stack, world, why, st, end) {
      SourceHalts(env, words, source, r, stack, world, why, st, end);
    }
    if n: nat, st :| Run(env, r, Start(stack, world), n) == Stopped(why, st, end) {
      assert Halts(env, r, Start(stack, world), why, st, end);
      SourceHalts(env, words, source, r, stack, world, why, st, end);
    }
  }

  /**
   From tokens to a running process: when the parser reads well-formed source, crossreferencing accepts it, the
   optimizer runs on what is left and the result is generated, the process exits with a data stack and a world exactly
   when the source, run from its tokens, ends with them, and stops for any other reason in a world exactly when the
   source does.
   */
  lemma {:induction false} CompilerExact(env: Env, layout: Layout, words: P.Dictionary, source: F.Source, q: Program,
      trace: seq<Stage>, stack: seq<Word>, world: World, a: Asm, why: Stop, st: seq<Word>, end: World)
    requires F.Formed(words, P.Global, source) && F.Distinct(words, source)
    requires IdsApart(words, DefinitionsOf(source)) && AllComplete(words, source)
    requires ParsedAs(words, Reading(words, source), q) && OptimizerRun(q, trace)
    requires Loaded(env, layout, Optimized(trace), stack, world, a)
    requires TameForever(env, Optimized(trace), Start(stack, world))
    ensures Generable(Optimized(trace))
    ensures SourceEnds(env, words, source, stack, world, Exit, st, end)
       <==> CodeExits(env, layout, GeneratedCode(Optimized(trace)), a, st, end)
    ensures SourceEndsFor(env, words, source, stack, world, why, end)
       <==> CodeEnds(env, layout, GeneratedCode(Optimized(trace)), a, why, end)
  {
    hide SourceEnds;
    hide SourceEndsFor;
    hide Halts;
    hide MachineExits;
    hide MachineEnds;
    hide CodeExits;
    hide CodeEnds;
    hide Equivalent;
    hide Boots;
    hide Fits;
    hide TameForever;
    hide GeneratedCode;
    hide Generable;
    hide AllReady;
    hide OptimizerRun;
    hide Optimized;
    hide ParsedAs;
    hide SourceReady;
    hide LinkProgram;
    hide AllComplete;
    hide AllNested;
    hide F.Formed;
    FrontEndExact(words, source, q);
    CompleteIsReady(words, source);
    SourceLinksReady(ProgramBlocks(words, source));
    OptimizedAlike(env, layout, q, trace, stack, world, a);
    var r := Optimized(trace);
    SourceHalts(env, words, source, r, stack, world, Exit, st, end);
    SourceHaltsFor(env, words, source, r, stack, world, why, end);
    ExitsIsHalts(env, r, Start(stack, world), st, end);
    GeneratedCodeExact(env, layout, r, stack, world, a, why, st, end);
  }

  // ----- accepted programs, optimized and generated -----

  /** The run never calls an address that is no function's. */
  ghost predicate NeverStrays(env: Env, p: Program, s: State) {
    forall n: nat :: NoStrayCall(Run(env, p, s, n))
  }

  /** The first of the first `n` states without room for its step, or the `n`th. */
  lemma {:induction false} FirstCramped(env: Env, p: Program, s: State, n: nat) returns (k: nat)
    requires NeverStrays(env, p, s)
    ensures k <= n && Tame(env, p, s, k)
    ensures k == n || !Roomy(env, p, Run(env, p, s, k))
  {
    hide Run;
    hide Roomy;
    if n == 0 {
      k := 0;
    } else {
      k := FirstCramped(env, p, s, n - 1);
      if k == n - 1 && Roomy(env, p, Run(env, p, s, k)) {
        k := n;
      }
    }
    assert NoStrayCall(Run(env, p, s, k));
  }

  /** Generated code stops only where the machine stops, or behind the call stack. */
  lemma CodeStopsLike(env: Env, layout: Layout, p: Program, s: State, a: Asm, m: nat) returns (n: nat)
    requires Fits(env, layout, p) && LoadedHigh(layout, p) && Shows(layout, p, s, a) && NeverStrays(env, p, s)
    requires AsmRun(env, layout, GeneratedCode(p), a, m).AsmStopped?
    ensures var r := AsmRun(env, layout, GeneratedCode(p), a, m);
      r.stop == Stray || (Run(env, p, s, n).Stopped? && Shows(layout, p, Run(env, p, s, n), r))
  {
    hide Run;
    hide AsmRun;
    hide GeneratedCode;
    hide Tame;
    hide NeverStrays;
    hide LoadedHigh;
    hide HasRoom;
    n := FirstCramped(env, p, s, m);
    var code := GeneratedCode(p);
    var m1 := CodeFollowsMachine(env, layout, p, s, a, n);
    var s1 := Run(env, p, s, n);
    if s1.Running? && !HasRoom(env, p, s1.config) {
      var a1 := AsmRun(env, layout, code, a, m1);
      var m2 := DeepStepStrays(env, layout, p, s1.config, a1);
      AsmRunAdd(env, layout, code, a, m1, m2);
      SameStop(env, layout, code, a, m, m1 + m2);
    } else if s1.Stopped? {
      SameStop(env, layout, code, a, m, m1);
    } else {
      AsmRunStopped(env, layout, code, a, m, m1);
    }
  }

  lemma SameStop(env: Env, layout: Layout, code: Code, a: Asm, m: nat, n: nat)
    requires AsmRun(env, layout, code, a, m).AsmStopped? && AsmRun(env, layout, code, a, n).AsmStopped?
    ensures AsmRun(env, layout, code, a, m) == AsmRun(env, layout, code, a, n)
  {
    hide AsmRun;
    if m <= n {
      AsmRunStopped(env, layout, code, a, m, n);
    } else {
      AsmRunStopped(env, layout, code, a, n, m);
    }
  }

  predicate SafeStop(s: State) {
    s.Stopped? ==> (s.why == Exit && s.stack == []) || s.why == DivideFault
  }

  /** Programs alike an accepted one stop as safely. */
  lemma AcceptedAlike(env: Env, main: seq<Operation>, decls: Declarations, q: Program, world: World, n: nat)
    requires Accepted(main, decls) && Equivalent(env, DeclaredProgram(main, decls), q)
    ensures SafeStop(Run(env, q, Start([], world), n))
  {
    hide Run;
    hide Accepted;
    hide DeclaredProgram;
    var p, s := DeclaredProgram(main, decls), Start([], world);
    assert SameObservations(env, p, s, q, s);
    assert Seen(env, p, s, Observe(Run(env, q, s, n)));
    var k: nat :| Observe(Run(env, p, s, k)) == Observe(Run(env, q, s, n));
    AcceptedProgramsAreSafe(env, main, decls, world, k);
  }

  /**
   The generated code of an accepted and optimized program never underflows: it runs on, exits with an empty
   stack, divides by zero, or nests too many calls.
   */
  lemma AcceptedCodeIsSafe(env: Env, layout: Layout, main: seq<Operation>, decls: Declarations, trace: seq<Stage>,
      world: World, a: Asm, m: nat)
    requires Accepted(main, decls) && AllReady(DeclaredProgram(main, decls))
    requires OptimizerRun(DeclaredProgram(main, decls), trace) && Loaded(env, layout, Optimized(trace), [], world, a)
    requires Generable(Optimized(trace)) ==> LoadedHigh(layout, Optimized(trace))
    ensures Generable(Optimized(trace))
    ensures var r := AsmRun(env, layout, GeneratedCode(Optimized(trace)), a, m);
      || r.AsmRunning?
      || r.stop == Stray
      || (r.stop == Ended(Exit) && r.stack == [])
      || r.stop == Ended(DivideFault)
  {
    hide Run;
    hide AsmRun;
    hide GeneratedCode;
    hide Accepted;
    hide DeclaredProgram;
    hide Matches;
    hide Equivalent;
    hide LoadedHigh;
    hide OptimizerRun;
    hide Optimized;
    hide AllReady;
    hide Generable;
    var q, s := Optimized(trace), Start([], world);
    OptimizedAlike(env, layout, DeclaredProgram(main, decls), trace, [], world, a);
    if AsmRun(env, layout, GeneratedCode(q), a, m).AsmStopped? {
      forall n: nat
        ensures NoStrayCall(Run(env, q, s, n))
      {
        AcceptedAlike(env, main, decls, q, world, n);
      }
      BootMatches(layout, q, [], world, a);
      var n := CodeStopsLike(env, layout, q, s, a, m);
      AcceptedAlike(env, main, decls, q, world, n);
    }
  }

  // ----- removal, in the layout of what is left -----

  /** In the environment of the reduced program a removal cannot be observed, indirect calls included. */
  lemma RemovalInReducedLayout(env: Env, layout: Layout, words: Dictionary, main: seq<Operation>, words': Dictionary)
    requires KeepsExactly(words, main, words') && NothingMissed(words, main)
    requires Fits(env, layout, ProgramOf(main, words'))
    ensures Equivalent(env, ProgramOf(main, words), ProgramOf(main, words'))
  {
    hide KeepsExactly;
    hide NothingMissed;
    hide Equivalent;
    hide Fits;
    hide ResolvesWithin;
    FitsResolves(env, layout, ProgramOf(main, words'));
    ResolvedRemoval(env, words, main, words');
  }

  // ----- an endless loop cut down, then folds -----

  /**
   The infinite-loop rewrite where it is right and no literals before the loop take in its first operation, followed
   by any faithful schedule of folds, cannot be observed.
   */
  lemma {:induction false} LoopThenFolds(env: Env, p: Program, f: FunctionRef, path: Path, cond: Block, value: Word,
      ty: Type, b: Block, r: seq<Operation>, order: seq<FunctionRef>)
    requires f in p && AllReady(p) && value != 0 && |p[f]| + 3 < EMPTY_JUMP
    requires p[f] == Link(Plug(path, LoopUnit(cond, value, ty, b)), 0)
    requires var w := Offset(path);
      var d := w + 1 + Size(cond);
      && d + 2 < |p[f]| && BranchRewriting.NoControl(p[f], w + 1, d) && OnlyConditions(path)
      && !LoopRewriting.Joins(p[f], w, if d > w + 1 then w + 1 else d + 2)
      && RewriteInfiniteLoop(p[f], d + 1) == Some(r)
    requires FaithfulSchedule(p[f := r], order)
    ensures Equivalent(env, p, FoldSchedule(p[f := r], order))
  {
    hide Link;
    hide Size;
    hide Plug;
    hide Offset;
    hide OnlyConditions;
    hide Equivalent;
    hide RewriteInfiniteLoop;
    hide BranchRewriting.NoControl;
    hide LoopRewriting.Joins;
    hide Ready;
    hide RightAt;
    hide FaithfulSchedule;
    hide FoldSchedule;
    var d := Offset(path) + 1 + Size(cond);
    SourceLoopRight(path, cond, value, ty, b, p[f]);
    assert p[f][d + 1].kind == Do && p[f][d].kind.plain.value == value by {
      LinkedLoop(path, cond, value, ty, b, p[f]);
    }
    assert RewriteCondition(p[f], d + 1) == RewriteInfiniteLoop(p[f], d + 1);
    RightReady(p.Keys, p[f], d + 1);
    RightEquivalent(env, p, f, d + 1);
    var q := p[f := r];
    assert q.Keys == p.Keys;
    ScheduleUnobservable(env, q, order);
    EquivalentTrans(env, p, q, FoldSchedule(q, order));
  }
}
