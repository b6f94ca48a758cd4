/**
 Whole runs of the optimizer: removals and sweeps of both passes, one after the other. When each step is sound on
 the program it meets, the program at the end cannot be told from the one at the start. Conditions on the first
 program under which every step is sound are given as well.
 */
module OptimizerRuns {
  import opened Wrappers
  import opened Operations
  import opened Machine
  import opened Folding
  import opened FoldCorrectness
  import opened Conditions
  import opened UnusedWords
  import opened Optimizer
  import opened FoldSchedules
  import opened FoldCompleteness
  import opened UndecidedConditions
  import opened ConditionPasses

  function Compiled(s: Stage): Program {
    ProgramOf(s.main, s.words)
  }

  // ----- sound steps -----

  /** What the pass does to this body is right. */
  ghost predicate SoundBody(pass: Pass, body: seq<Operation>) {
    match pass
    case KnownConditions => RightPass(body)
    case ConstantFolding => FaithfulBody(body)
  }

  ghost predicate SoundSweep(pass: Pass, s: Stage) {
    && SoundBody(pass, s.main)
    && forall k :: 0 <= k < |s.words| && IsFunction(s.words, k) ==> SoundBody(pass, s.words[k].def.body)
  }

  ghost predicate SoundlySwept(pass: Pass, s: Stage, s': Stage) {
    Sweeps(pass, s, s') && SoundSweep(pass, s)
  }

  /** A removal that misses no word, a sweep that is right on every body, or nothing at all. */
  ghost predicate SoundStep(s: Stage, s': Stage) {
    || (s'.main == s.main && s'.words == s.words)
    || (Removes(s, s') && NothingMissed(s.words, s.main))
    || SoundlySwept(KnownConditions, s, s')
    || SoundlySwept(ConstantFolding, s, s')
  }

  ghost predicate SoundTrace(trace: seq<Stage>) {
    |trace| > 0 && forall k :: 0 <= k < |trace| - 1 ==> SoundStep(trace[k], trace[k + 1])
  }

  lemma SoundRest(trace: seq<Stage>)
    requires SoundTrace(trace) && |trace| > 1
    ensures SoundStep(trace[0], trace[1]) && SoundTrace(trace[1..])
  {
    hide SoundStep;
    var rest := trace[1..];
    assert SoundStep(trace[0], trace[0 + 1]);
    forall k | 0 <= k < |rest| - 1
      ensures SoundStep(rest[k], rest[k + 1])
    {
      assert SoundStep(trace[k + 1], trace[k + 1 + 1]);
    }
  }

  // ----- a sweep, as a program -----

  function Swept(pass: Pass, p: Program): (r: Program)
    ensures r.Keys == p.Keys
  {
    map f | f in p :: After(pass, p[f])
  }

  lemma {:induction false} SweptFunction(pass: Pass, words: Dictionary, id: nat)
    ensures FunctionNamed(AfterAll(pass, words), id) ==
      match FunctionNamed(words, id) case None => None case Some(body) => Some(After(pass, body))
    decreases |words|
  {
    hide PassResult;
    if words != [] {
      var n := |words| - 1;
      SweptFunction(pass, words[..n], id);
      assert AfterAll(pass, words)[..n] == AfterAll(pass, words[..n]);
    }
  }

  /** Sweeping all words is sweeping the functions of the program. */
  lemma SweptProgram(pass: Pass, s: Stage)
    ensures ProgramOf(After(pass, s.main), AfterAll(pass, s.words)) == Swept(pass, Compiled(s))
  {
    hide PassResult;
    hide FunctionNamed;
    hide AfterAll;
    var p, q := Compiled(s), ProgramOf(After(pass, s.main), AfterAll(pass, s.words));
    forall f: FunctionRef
      ensures f in q <==> f in p
      ensures f in p ==> q[f] == After(pass, p[f])
    {
      if f.Function? {
        SweptFunction(pass, s.words, f.id);
        ProgramBody(s.main, s.words, f.id);
        ProgramBody(After(pass, s.main), AfterAll(pass, s.words), f.id);
      }
    }
  }

  lemma FunctionFrom(s: Stage, f: FunctionRef) returns (k: nat)
    requires f in Compiled(s) && f != Main
    ensures k < |s.words| && IsFunction(s.words, k) && s.words[k].id == f.id && Compiled(s)[f] == s.words[k].def.body
  {
    hide FunctionNamed;
    ProgramBody(s.main, s.words, f.id);
    var r := FunctionNamed(s.words, f.id);
    k :| 0 <= k < |s.words| && s.words[k].id == f.id && s.words[k].def == FunctionWord(r.value);
  }

  lemma SweepSound(pass: Pass, s: Stage, f: FunctionRef)
    requires SoundSweep(pass, s) && f in Compiled(s)
    ensures SoundBody(pass, Compiled(s)[f])
  {
    hide SoundBody;
    hide FunctionNamed;
    if f != Main {
      var k := FunctionFrom(s, f);
    }
  }

  /** A sound pass leaves a body ready for the generator. */
  lemma SoundReady(pass: Pass, functions: set<FunctionRef>, body: seq<Operation>)
    requires Ready(functions, body) && SoundBody(pass, body)
    ensures Ready(functions, After(pass, body))
  {
    hide Ready;
    hide Splice;
    hide FoldRun;
    hide ScanFrom;
    hide RightFrom;
    hide ConditionsFrom;
    match pass
    case KnownConditions => PassReady(functions, body, 1, false);
    case ConstantFolding =>
      if FoldBody(body).Changed? {
        ScanFindsRun(body, 0, None, []);
        var r := ScanFrom(body, 0, None, []);
        SpliceReady(functions, body, r.start, r.end, r.stack);
      }
  }

  /** Nor can it be observed on one function. */
  lemma SoundPass(env: Env, pass: Pass, p: Program, f: FunctionRef)
    requires AllReady(p) && f in p && SoundBody(pass, p[f])
    ensures Equivalent(env, p, p[f := After(pass, p[f])])
  {
    hide AllReady;
    hide Equivalent;
    hide RightFrom;
    hide ConditionsFrom;
    hide FoldBody;
    assert p[f := p[f]] == p;
    match pass
    case KnownConditions => PassUnobservable(env, p, f, 1, false);
    case ConstantFolding =>
      if FoldBody(p[f]).Changed? {
        ReadyGuarded(p, f);
        FoldingEquivalent(env, p, f);
      } else {
        EquivalentRefl(env, p);
      }
  }

  lemma SweptReady(pass: Pass, p: Program)
    requires AllReady(p) && forall f :: f in p ==> SoundBody(pass, p[f])
    ensures AllReady(Swept(pass, p))
  {
    hide Ready;
    hide SoundBody;
    hide PassResult;
    var q := Swept(pass, p);
    forall f | f in q
      ensures Ready(q.Keys, q[f])
    {
      SoundReady(pass, p.Keys, p[f]);
    }
  }

  /** Some functions swept, the others not yet. */
  function Partly(pass: Pass, p: Program, done: set<FunctionRef>): (r: Program)
    ensures r.Keys == p.Keys
  {
    map f | f in p :: if f in done then After(pass, p[f]) else p[f]
  }

  lemma PartlyReady(pass: Pass, p: Program, done: set<FunctionRef>)
    requires AllReady(p) && forall f :: f in p ==> SoundBody(pass, p[f])
    ensures AllReady(Partly(pass, p, done))
  {
    hide Ready;
    hide SoundBody;
    hide PassResult;
    var q := Partly(pass, p, done);
    forall f | f in q
      ensures Ready(q.Keys, q[f])
    {
      SoundReady(pass, p.Keys, p[f]);
    }
  }

  lemma {:induction false} PartlyUnobservable(env: Env, pass: Pass, p: Program, done: set<FunctionRef>)
    requires AllReady(p) && (forall f :: f in p ==> SoundBody(pass, p[f])) && done <= p.Keys
    ensures Equivalent(env, p, Partly(pass, p, done))
    decreases done
  {
    hide AllReady;
    hide Equivalent;
    hide SoundBody;
    hide PassResult;
    if done == {} {
      assert Partly(pass, p, done) == p;
      EquivalentRefl(env, p);
    } else {
      var f :| f in done;
      var before := done - {f};
      var q := Partly(pass, p, before);
      PartlyUnobservable(env, pass, p, before);
      PartlyReady(pass, p, before);
      assert q[f] == p[f];
      SoundPass(env, pass, q, f);
      assert q[f := After(pass, p[f])] == Partly(pass, p, done);
      EquivalentTrans(env, p, q, Partly(pass, p, done));
    }
  }

  lemma SweptUnobservable(env: Env, pass: Pass, p: Program)
    requires AllReady(p) && forall f :: f in p ==> SoundBody(pass, p[f])
    ensures Equivalent(env, p, Swept(pass, p))
  {
    hide AllReady;
    hide Equivalent;
    hide SoundBody;
    hide PassResult;
    assert Swept(pass, p) == Partly(pass, p, p.Keys);
    PartlyUnobservable(env, pass, p, p.Keys);
  }

  // ----- a removal -----

  /** What is left after a removal is ready for the generator. */
  lemma RemovalReady(s: Stage, s': Stage)
    requires AllReady(Compiled(s)) && Removes(s, s') && NothingMissed(s.words, s.main)
    ensures AllReady(Compiled(s'))
  {
    hide KeepsExactly;
    hide KeepsStrings;
    hide Reachable;
    hide ProgramOf;
    hide FunctionNamed;
    hide NothingMissed;
    hide AllReached;
    hide Guarded;
    var p, p' := Compiled(s), Compiled(s');
    forall f | f in p'
      ensures Ready(p'.Keys, p'[f])
    {
      var body := p'[f];
      LiveBody(s, s', f);
      assert Ready(p.Keys, body);
      forall k | 0 <= k < |body|
        ensures KindReady(p'.Keys, body[k].kind)
      {
        assert KindReady(p.Keys, body[k].kind);
        if body[k].kind.Plain? && body[k].kind.plain.CallSymbol? {
          var id := body[k].kind.plain.id;
          assert Refers(body, id) by {
            assert WordRef(body[k]) == Some(id);
          }
          CalledStays(s, s', body, id);
        }
      }
    }
  }

  lemma LiveBody(s: Stage, s': Stage, f: FunctionRef)
    requires Removes(s, s') && NothingMissed(s.words, s.main) && f in Compiled(s')
    ensures f in Compiled(s) && Compiled(s)[f] == Compiled(s')[f]
    ensures AllReached(s.words, s.main, Compiled(s)[f])
  {
    hide Reachable;
    hide KeepsExactly;
    hide KeepsStrings;
    hide FunctionNamed;
    hide NothingMissed;
    hide AllReached;
    if f == Main {
      MainReached(s.words, s.main);
    } else {
      ProgramBody(s.main, s.words, f.id);
      ProgramBody(s.main, s'.words, f.id);
      SameFunction(s.words, s.main, s'.words, f.id);
      var k := FunctionFrom(s, f);
      ReachedBody(s.words, s.main, k);
    }
  }

  lemma CalledStays(s: Stage, s': Stage, body: seq<Operation>, id: nat)
    requires Removes(s, s') && AllReached(s.words, s.main, body) && Refers(body, id) && Function(id) in Compiled(s)
    ensures Function(id) in Compiled(s')
  {
    hide Reachable;
    hide KeepsExactly;
    hide KeepsStrings;
    hide FunctionNamed;
    ProgramBody(s.main, s.words, id);
    ProgramBody(s.main, s'.words, id);
    SameFunction(s.words, s.main, s'.words, id);
  }

  lemma RemovalShrinks(s: Stage, s': Stage)
    requires Removes(s, s')
    ensures Compiled(s').Keys <= Compiled(s).Keys
  {
    hide Reachable;
    hide KeepsExactly;
    hide KeepsStrings;
    hide FunctionNamed;
    forall f | f in Compiled(s')
      ensures f in Compiled(s)
    {
      if f.Function? {
        ProgramBody(s.main, s.words, f.id);
        ProgramBody(s.main, s'.words, f.id);
        SameFunction(s.words, s.main, s'.words, f.id);
      }
    }
  }

  // ----- one step -----

  /** Indirect calls are out of reach of a removal: their addresses are those of what is left, or there are none. */
  ghost predicate CallsStay(env: Env, s: Stage, s': Stage) {
    ResolvesWithin(env, Compiled(s')) || CallFree(s.words, s.main)
  }

  lemma WhichSweep(s: Stage, s': Stage) returns (pass: Pass)
    requires SoundlySwept(KnownConditions, s, s') || SoundlySwept(ConstantFolding, s, s')
    ensures Compiled(s') == Swept(pass, Compiled(s)) && forall f :: f in Compiled(s) ==> SoundBody(pass, Compiled(s)[f])
  {
    hide SoundBody;
    hide SoundSweep;
    hide ProgramOf;
    hide PassResult;
    hide AfterAll;
    pass := if SoundlySwept(KnownConditions, s, s') then KnownConditions else ConstantFolding;
    SweptProgram(pass, s);
    forall f | f in Compiled(s)
      ensures SoundBody(pass, Compiled(s)[f])
    {
      SweepSound(pass, s, f);
    }
  }

  lemma StepReady(s: Stage, s': Stage)
    requires SoundStep(s, s') && AllReady(Compiled(s))
    ensures AllReady(Compiled(s')) && Compiled(s').Keys <= Compiled(s).Keys
  {
    hide AllReady;
    hide NothingMissed;
    hide Sweeps;
    hide SoundSweep;
    hide SoundBody;
    hide ProgramOf;
    hide PassResult;
    if Removes(s, s') && NothingMissed(s.words, s.main) {
      RemovalReady(s, s');
      RemovalShrinks(s, s');
    } else if !(s'.main == s.main && s'.words == s.words) {
      var pass := WhichSweep(s, s');
      SweptReady(pass, Compiled(s));
    }
  }

  lemma StepUnobservable(env: Env, s: Stage, s': Stage)
    requires SoundStep(s, s') && AllReady(Compiled(s)) && CallsStay(env, s, s')
    ensures Equivalent(env, Compiled(s), Compiled(s'))
  {
    hide AllReady;
    hide NothingMissed;
    hide Equivalent;
    hide ResolvesWithin;
    hide CallFree;
    hide Sweeps;
    hide SoundSweep;
    hide SoundBody;
    hide ProgramOf;
    hide PassResult;
    hide KeepsExactly;
    hide KeepsStrings;
    if s'.main == s.main && s'.words == s.words {
      EquivalentRefl(env, Compiled(s));
    } else if Removes(s, s') && NothingMissed(s.words, s.main) {
      if ResolvesWithin(env, Compiled(s')) {
        ResolvedRemoval(env, s.words, s.main, s'.words);
      } else {
        CallFreeRemoval(env, s.words, s.main, s'.words);
      }
    } else {
      var pass := WhichSweep(s, s');
      SweptUnobservable(env, pass, Compiled(s));
    }
  }

  // ----- no new kinds -----

  /** A predicate on kinds that every literal has, and every function of the program. */
  ghost predicate AllKinds(good: Kind -> bool, s: Stage) {
    && BodyKinds(good, s.main)
    && forall k :: 0 <= k < |s.words| && IsFunction(s.words, k) ==> BodyKinds(good, s.words[k].def.body)
  }

  ghost predicate BodyKinds(good: Kind -> bool, body: seq<Operation>) {
    forall k :: 0 <= k < |body| ==> good(body[k].kind)
  }

  ghost predicate LiteralsPass(good: Kind -> bool) {
    forall v, ty :: good(Plain(PushInt(v, ty)))
  }

  lemma AfterKeepsKinds(good: Kind -> bool, pass: Pass, body: seq<Operation>)
    requires LiteralsPass(good) && BodyKinds(good, body)
    ensures BodyKinds(good, After(pass, body))
  {
    hide After;
    AfterKinds(pass, body);
    var r := After(pass, body);
    forall k | 0 <= k < |r|
      ensures good(r[k].kind)
    {
      if IsPushInt(r[k]) {
        assert r[k].kind == Plain(PushInt(r[k].kind.plain.value, r[k].kind.plain.ty));
      } else {
        var j :| 0 <= j < |body| && body[j].kind == r[k].kind;
      }
    }
  }

  /** Every function after a removal was there before. */
  lemma RemovedFrom(s: Stage, s': Stage, k: nat) returns (j: nat)
    requires Removes(s, s') && k < |s'.words|
    ensures j < |s.words| && s.words[j] == s'.words[k]
  {
    hide Reachable;
    hide KeepsStrings;
    var used :| UsedExactly(s.words, s.main, used) && s'.words == KeepWords(s.words, used);
    KeptFrom(s.words, used, k);
    j :| 0 <= j < |s.words| && s.words[j] == s'.words[k] && Stays(s.words[j], used);
  }

  /** No step of the driver brings in a kind of operation, but for literals. */
  lemma StepKeepsKinds(good: Kind -> bool, s: Stage, s': Stage)
    requires LiteralsPass(good) && AllKinds(good, s) && StageStep(s, s')
    ensures AllKinds(good, s')
  {
    hide BodyKinds;
    hide LiteralsPass;
    hide PassResult;
    hide Removes;
    if Removes(s, s') {
      assert s'.main == s.main by {
        RemovesMain(s, s');
      }
      forall k | 0 <= k < |s'.words| && IsFunction(s'.words, k)
        ensures BodyKinds(good, s'.words[k].def.body)
      {
        var j := RemovedFrom(s, s', k);
        assert IsFunction(s.words, j);
      }
    } else {
      var pass := if Sweeps(KnownConditions, s, s') then KnownConditions else ConstantFolding;
      AfterKeepsKinds(good, pass, s.main);
      forall k | 0 <= k < |s'.words| && IsFunction(s'.words, k)
        ensures BodyKinds(good, s'.words[k].def.body)
      {
        assert IsFunction(s.words, k);
        AfterKeepsKinds(good, pass, s.words[k].def.body);
      }
    }
  }

  lemma RemovesMain(s: Stage, s': Stage)
    requires Removes(s, s')
    ensures s'.main == s.main
  {
  }

  // ----- whole runs -----

  /** What is left at the end is ready for the generator, with no function that was not there. */
  lemma {:induction false} RunReady(trace: seq<Stage>)
    requires SoundTrace(trace) && AllReady(Compiled(trace[0]))
    ensures var last := trace[|trace| - 1]; AllReady(Compiled(last)) && Compiled(last).Keys <= Compiled(trace[0]).Keys
    decreases |trace|
  {
    hide SoundStep;
    hide AllReady;
    hide Compiled;
    if |trace| > 1 {
      SoundRest(trace);
      StepReady(trace[0], trace[1]);
      RunReady(trace[1..]);
    }
  }

  predicate NoCall(k: Kind) {
    k != Plain(Intrinsic(Call))
  }

  lemma CallFreeKinds(s: Stage)
    ensures CallFree(s.words, s.main) <==> AllKinds(NoCall, s)
  {
    if AllKinds(NoCall, s) {
      assert BodyKinds(NoCall, s.main);
      forall k | 0 <= k < |s.words| && IsFunction(s.words, k)
        ensures CallFreeBody(s.words[k].def.body)
      {
        assert BodyKinds(NoCall, s.words[k].def.body);
      }
    }
    if CallFree(s.words, s.main) {
      forall k | 0 <= k < |s.words| && IsFunction(s.words, k)
        ensures BodyKinds(NoCall, s.words[k].def.body)
      {
        assert CallFreeBody(s.words[k].def.body);
      }
    }
  }

  lemma CallFreeStays(s: Stage, s': Stage)
    requires SoundStep(s, s') && CallFree(s.words, s.main)
    ensures CallFree(s'.words, s'.main)
  {
    hide CallFree;
    hide AllKinds;
    hide NothingMissed;
    hide SoundSweep;
    hide Sweeps;
    hide Removes;
    CallFreeKinds(s);
    CallFreeKinds(s');
    if !(s'.main == s.main && s'.words == s.words) {
      StepKeepsKinds(NoCall, s, s');
    }
  }

  /**
   Whatever sound removals and sweeps the optimizer runs, the program it ends with cannot be told from the one it
   started with, in every environment whose addresses are those of what is left. Without `call`, in every environment.
   */
  lemma {:induction false} RunUnobservable(env: Env, trace: seq<Stage>)
    requires SoundTrace(trace) && AllReady(Compiled(trace[0]))
    requires ResolvesWithin(env, Compiled(trace[|trace| - 1])) || CallFree(trace[0].words, trace[0].main)
    ensures Equivalent(env, Compiled(trace[0]), Compiled(trace[|trace| - 1]))
    decreases |trace|
  {
    hide SoundStep;
    hide AllReady;
    hide Compiled;
    hide Equivalent;
    hide CallFree;
    var n := |trace| - 1;
    if n == 0 {
      EquivalentRefl(env, Compiled(trace[0]));
    } else {
      var rest := trace[1..];
      assert rest[|rest| - 1] == trace[n];
      SoundRest(trace);
      StepReady(trace[0], trace[1]);
      RunReady(rest);
      if CallFree(trace[0].words, trace[0].main) {
        CallFreeStays(trace[0], trace[1]);
      }
      StepUnobservable(env, trace[0], trace[1]);
      RunUnobservable(env, rest);
      EquivalentTrans(env, Compiled(trace[0]), Compiled(trace[1]), Compiled(trace[n]));
    }
  }

  // ----- where the driver stops -----

  /** At the fixpoint no branch stands behind a literal, no run is more than literals, and none breaks. */
  ghost predicate Spent(body: seq<Operation>) {
    && (forall k :: 1 <= k < |body| ==> !(IsPushInt(body[k - 1]) && (body[k].kind == If || body[k].kind == Do)))
    && OnlyLiterals(body) && forall k :: 0 <= k < |body| ==> !Breaks(body, k)
  }

  lemma SettledBody(body: seq<Operation>)
    ensures PassResult(KnownConditions, body) == Same && PassResult(ConstantFolding, body) == Same <==> Spent(body)
  {
    hide OnlyLiterals;
    hide Breaks;
    hide FoldBody;
    hide ConditionsBody;
    ConditionsFound(body);
    FoldsExactly(body);
  }

  /** The driver's fixpoint, body by body: exactly the programs in which every body is spent. */
  lemma SettledProgram(main: seq<Operation>, words: Dictionary)
    ensures Settled(KnownConditions, main, words) && Settled(ConstantFolding, main, words) <==>
      Spent(main) && forall k :: 0 <= k < |words| && IsFunction(words, k) ==> Spent(words[k].def.body)
  {
    hide Spent;
    hide PassResult;
    SettledBody(main);
    forall k | 0 <= k < |words| && IsFunction(words, k)
      ensures Spent(words[k].def.body) <==>
        PassResult(KnownConditions, words[k].def.body) == Same && PassResult(ConstantFolding, words[k].def.body) == Same
    {
      SettledBody(words[k].def.body);
    }
    SettledWords(KnownConditions, main, words);
    SettledWords(ConstantFolding, main, words);
  }

  lemma SettledWords(pass: Pass, main: seq<Operation>, words: Dictionary)
    ensures Settled(pass, main, words) <==>
      && PassResult(pass, main) == Same
      && forall k :: 0 <= k < |words| && IsFunction(words, k) ==> PassResult(pass, words[k].def.body) == Same
  {
    hide PassResult;
    if Settled(pass, main, words) {
      forall k | 0 <= k < |words| && IsFunction(words, k)
        ensures PassResult(pass, words[k].def.body) == Same
      {
        assert !RewritesWord(pass, words[k].def) && !AbortsWord(pass, words[k].def);
      }
    }
  }

  // ----- nothing dangles at the end -----

  /** A removal on the way misses neither words nor strings. */
  ghost predicate ClearStep(s: Stage, s': Stage) {
    Removes(s, s') ==> NothingMissed(s.words, s.main) && NoStringMissed(s.words, s.main)
  }

  ghost predicate ClearTrace(trace: seq<Stage>) {
    forall k :: 0 <= k < |trace| - 1 ==> ClearStep(trace[k], trace[k + 1])
  }

  ghost predicate DefinedStage(s: Stage) {
    Defined(s.words, s.strings, s.main)
  }

  predicate KindServed(words: Dictionary, strings: Strings, k: Kind) {
    Serves(words, strings, Operation(k, NoJump))
  }

  lemma ServesByKind(words: Dictionary, strings: Strings, op: Operation)
    ensures Serves(words, strings, op) <==> KindServed(words, strings, op.kind)
  {
  }

  lemma DefinedKinds(words: Dictionary, strings: Strings, s: Stage)
    ensures AllKinds(k => KindServed(words, strings, k), s) <==>
      && ServesAll(words, strings, s.main)
      && forall k :: 0 <= k < |s.words| && IsFunction(s.words, k) ==> ServesAll(words, strings, s.words[k].def.body)
  {
    hide Serves;
    var good := k => KindServed(words, strings, k);
    forall op: Operation
      ensures Serves(words, strings, op) <==> good(op.kind)
    {
      ServesByKind(words, strings, op);
    }
    ServesKinds(words, strings, good, s.main);
    forall k | 0 <= k < |s.words| && IsFunction(s.words, k)
      ensures ServesAll(words, strings, s.words[k].def.body) <==> BodyKinds(good, s.words[k].def.body)
    {
      ServesKinds(words, strings, good, s.words[k].def.body);
    }
  }

  lemma ServesKinds(words: Dictionary, strings: Strings, good: Kind -> bool, body: seq<Operation>)
    requires forall op: Operation :: Serves(words, strings, op) <==> good(op.kind)
    ensures ServesAll(words, strings, body) <==> BodyKinds(good, body)
  {
    hide Serves;
    if ServesAll(words, strings, body) {
      forall k | 0 <= k < |body|
        ensures good(body[k].kind)
      {
        assert Serves(words, strings, body[k]);
      }
    }
    if BodyKinds(good, body) {
      forall k | 0 <= k < |body|
        ensures Serves(words, strings, body[k])
      {
        assert good(body[k].kind);
      }
    }
  }

  /** A sweep keeps the ids of functions and arrays. */
  lemma SweptServes(pass: Pass, words: Dictionary, strings: Strings, body: seq<Operation>)
    requires ServesAll(words, strings, body)
    ensures ServesAll(AfterAll(pass, words), strings, body)
  {
    hide PassResult;
    var words' := AfterAll(pass, words);
    assert forall k :: 0 <= k < |words| ==>
      && words'[k].id == words[k].id && (words'[k].def.FunctionWord? <==> words[k].def.FunctionWord?)
      && (words'[k].def.ArrayWord? <==> words[k].def.ArrayWord?);
    forall i | 0 <= i < |body|
      ensures Serves(words', strings, body[i])
    {
      assert Serves(words, strings, body[i]);
    }
  }

  lemma SweepDefined(pass: Pass, s: Stage, s': Stage)
    requires DefinedStage(s) && Sweeps(pass, s, s')
    ensures DefinedStage(s')
  {
    hide ServesAll;
    hide AllKinds;
    hide PassResult;
    hide AfterAll;
    var good := k => KindServed(s.words, s.strings, k);
    DefinedKinds(s.words, s.strings, s);
    StepKeepsKinds(good, s, s');
    DefinedKinds(s.words, s.strings, s');
    SweptServes(pass, s.words, s.strings, s'.main);
    forall k | 0 <= k < |s'.words| && IsFunction(s'.words, k)
      ensures ServesAll(s'.words, s'.strings, s'.words[k].def.body)
    {
      SweptServes(pass, s.words, s.strings, s'.words[k].def.body);
    }
  }

  lemma StepDefined(s: Stage, s': Stage)
    requires StageStep(s, s') && ClearStep(s, s') && DefinedStage(s)
    ensures DefinedStage(s')
  {
    hide Defined;
    hide NothingMissed;
    hide NoStringMissed;
    hide Sweeps;
    hide Removed;
    if Removes(s, s') {
      NothingDangles(s.words, s.strings, s.main, s'.words, s'.strings);
    } else if Sweeps(KnownConditions, s, s') {
      SweepDefined(KnownConditions, s, s');
    } else {
      SweepDefined(ConstantFolding, s, s');
    }
  }

  lemma TraceRest(trace: seq<Stage>)
    requires IsTrace(trace) && |trace| > 1
    ensures StageStep(trace[0], trace[1]) && IsTrace(trace[1..])
  {
    hide StageStep;
    var rest := trace[1..];
    assert StageStep(trace[0], trace[0 + 1]);
    forall k | 0 <= k < |rest| - 1
      ensures StageStep(rest[k], rest[k + 1])
    {
      assert StageStep(trace[k + 1], trace[k + 1 + 1]);
    }
  }

  /** At the end of a run no word and no string that something refers to is missing, if none was at the start. */
  lemma {:induction false} RunDefined(trace: seq<Stage>)
    requires IsTrace(trace) && ClearTrace(trace) && DefinedStage(trace[0])
    ensures DefinedStage(trace[|trace| - 1])
    decreases |trace|
  {
    hide StageStep;
    hide ClearStep;
    hide DefinedStage;
    if |trace| > 1 {
      TraceRest(trace);
      assert ClearStep(trace[0], trace[0 + 1]);
      StepDefined(trace[0], trace[1]);
      var rest := trace[1..];
      forall k | 0 <= k < |rest| - 1
        ensures ClearStep(rest[k], rest[k + 1])
      {
        assert ClearStep(trace[k + 1], trace[k + 1 + 1]);
      }
      RunDefined(rest);
    }
  }
}
