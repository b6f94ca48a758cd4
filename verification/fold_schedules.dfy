/**
 Folding rounds on the functions of a program, in any order and number, and the condition under which they go
 unobserved.
 */
module FoldSchedules {
  import opened Wrappers
  import opened Words
  import opened Operations
  import opened Machine
  import opened Simulation
  import opened Compilation
  import opened Folding
  import opened FoldCorrectness
  import opened Codegen
  import opened Listing
  import opened CodegenCorrectness

  // ----- equivalence composes -----

  lemma SeenSelf(env: Env, p: Program, s: State, n: nat)
    ensures Seen(env, p, s, Observe(Run(env, p, s, n)))
  {
    hide Run;
  }

  lemma EquivalentRefl(env: Env, p: Program)
    ensures Equivalent(env, p, p)
  {
    hide Seen;
    hide Run;
    forall stack, world
      ensures SameObservations(env, p, Start(stack, world), p, Start(stack, world))
    {
      forall n: nat
        ensures Seen(env, p, Start(stack, world), Observe(Run(env, p, Start(stack, world), n)))
      {
        SeenSelf(env, p, Start(stack, world), n);
      }
    }
  }

  lemma IncludesTrans(env: Env, p: Program, q: Program, r: Program, s: State)
    requires Includes(env, p, s, q, s) && Includes(env, q, s, r, s)
    ensures Includes(env, p, s, r, s)
  {
    hide Run;
    forall n: nat
      ensures Seen(env, r, s, Observe(Run(env, p, s, n)))
    {
      assert Seen(env, q, s, Observe(Run(env, p, s, n)));
    }
  }

  lemma EquivalentTrans(env: Env, p: Program, q: Program, r: Program)
    requires Equivalent(env, p, q) && Equivalent(env, q, r)
    ensures Equivalent(env, p, r)
  {
    hide Includes;
    forall stack, world
      ensures SameObservations(env, p, Start(stack, world), r, Start(stack, world))
    {
      var s := Start(stack, world);
      assert SameObservations(env, p, s, q, s) && SameObservations(env, q, s, r, s);
      IncludesTrans(env, p, q, r, s);
      IncludesTrans(env, r, q, p, s);
    }
  }

  lemma IncludesHalts(env: Env, p: Program, q: Program, s: State, why: Stop, st: seq<Word>, world: World)
    requires Includes(env, p, s, q, s) && Halts(env, p, s, why, st, world)
    ensures Halts(env, q, s, why, st, world)
  {
    hide Run;
    var n: nat :| Run(env, p, s, n) == Stopped(why, st, world);
    assert Seen(env, q, s, Observe(Run(env, p, s, n)));
    var m: nat :| Observe(Run(env, q, s, m)) == Observe(Stopped(why, st, world));
    assert Run(env, q, s, m) == Stopped(why, st, world);
  }

  /** Equivalent programs halt alike. */
  lemma EquivalentHalts(env: Env, p: Program, q: Program, stack: seq<Word>, world: World, why: Stop,
      st: seq<Word>, end: World)
    requires Equivalent(env, p, q)
    ensures Halts(env, p, Start(stack, world), why, st, end) <==> Halts(env, q, Start(stack, world), why, st, end)
  {
    hide Includes;
    hide Halts;
    var s := Start(stack, world);
    assert SameObservations(env, p, s, q, s);
    if Halts(env, p, s, why, st, end) {
      IncludesHalts(env, p, q, s, why, st, end);
    }
    if Halts(env, q, s, why, st, end) {
      IncludesHalts(env, q, p, s, why, st, end);
    }
  }

  // ----- bodies ready for the generator -----

  predicate KindReady(functions: set<FunctionRef>, k: Kind) {
    match k
    case Plain(Intrinsic(i)) => Emittable(i)
    case Plain(CallSymbol(id)) => Function(id) in functions
    case _ => true
  }

  /** Jumps set and landing outside runs, system calls the processor has, calls to known functions. */
  ghost predicate Ready(functions: set<FunctionRef>, body: seq<Operation>) {
    && Guarded(body)
    && (forall k :: 0 <= k < |body| && Jumps(body[k].kind) ==> body[k].jump.To?)
    && (forall k :: 0 <= k < |body| ==> KindReady(functions, body[k].kind))
  }

  ghost predicate AllReady(p: Program) {
    Main in p && forall f :: f in p ==> Ready(p.Keys, p[f])
  }

  lemma ReadyGenerable(p: Program)
    requires AllReady(p)
    ensures Generable(p)
  {
    hide Emittable;
    forall f | f in p
      ensures Linkable(p[f]) && CallsDefined(p, p[f])
    {
      assert Ready(p.Keys, p[f]);
      forall k | 0 <= k < |p[f]|
        ensures Jumps(p[f][k].kind) ==> p[f][k].jump.To? && p[f][k].jump.target <= |p[f]|
        ensures p[f][k].kind.Plain? && p[f][k].kind.plain.Intrinsic? ==> Emittable(p[f][k].kind.plain.intrinsic)
        ensures p[f][k].kind.Plain? && p[f][k].kind.plain.CallSymbol? ==> Function(p[f][k].kind.plain.id) in p
      {
        assert KindReady(p.Keys, p[f][k].kind);
      }
    }
  }

  lemma SpliceReady(functions: set<FunctionRef>, body: seq<Operation>, a: nat, b: nat, st: seq<SignedWord>)
    requires Ready(functions, body) && IsRun(body, a, b, st)
    ensures Ready(functions, Splice(body, a, b, st))
  {
    hide Splice;
    hide FoldRun;
    hide Guarded;
    hide KindReady;
    SpliceGuarded(body, a, b, st);
    NewPushes(body, a, b, st);
    var r, delta := Splice(body, a, b, st), |st| - (b - a);
    forall j | 0 <= j < |r|
      ensures Jumps(r[j].kind) ==> r[j].jump.To?
      ensures KindReady(functions, r[j].kind)
    {
      if a <= j < a + |st| {
        SplicePush(body, a, b, st, j - a);
        PushReady(functions, st[j - a]);
      } else {
        var k := if j < a then j else j - delta;
        SpliceAt(body, a, b, st, k);
        assert KindReady(functions, body[k].kind);
        if Jumps(body[k].kind) {
          SpliceTargets(body, a, b, st, k);
        }
      }
    }
  }

  lemma PushReady(functions: set<FunctionRef>, v: SignedWord)
    ensures KindReady(functions, Plain(PushInt(ToWord(v), Int)))
  {
  }

  // ----- folding schedules -----

  /** One folding round on one function, as the optimizer's sweep applies it. */
  function FoldOnce(p: Program, f: FunctionRef): (r: Program)
    ensures r.Keys == p.Keys
  {
    if f in p && FoldBody(p[f]).Changed? then p[f := FoldBody(p[f]).body] else p
  }

  /** Rounds on functions in any order, any number of times. */
  function FoldSchedule(p: Program, order: seq<FunctionRef>): (r: Program)
    ensures r.Keys == p.Keys
  {
    if order == [] then p else FoldSchedule(FoldOnce(p, order[0]), order[1..])
  }

  /** The run the next round on this body evaluates is one on which folder and processor agree. */
  ghost predicate FaithfulBody(body: seq<Operation>) {
    FoldBody(body).Changed? ==>
      var r := ScanFrom(body, 0, None, []);
      r.start <= r.end <= |body| && FoldRun(body[r.start..r.end]).Folded? && Faithful(body[r.start..r.end])
  }

  ghost predicate FaithfulSchedule(p: Program, order: seq<FunctionRef>) {
    order == [] || ((order[0] in p ==> FaithfulBody(p[order[0]]))
        && FaithfulSchedule(FoldOnce(p, order[0]), order[1..]))
  }

  lemma FoldOnceReady(p: Program, f: FunctionRef)
    requires AllReady(p)
    ensures AllReady(FoldOnce(p, f))
  {
    hide Ready;
    hide Splice;
    if f in p && FoldBody(p[f]).Changed? {
      ScanFindsRun(p[f], 0, None, []);
      var r := ScanFrom(p[f], 0, None, []);
      SpliceReady(p.Keys, p[f], r.start, r.end, r.stack);
    }
  }

  lemma ReadyGuarded(p: Program, f: FunctionRef)
    requires AllReady(p) && f in p
    ensures Guarded(p[f])
  {
    assert Ready(p.Keys, p[f]);
  }

  /** Any schedule of folding rounds goes unobserved, and leaves bodies the generator accepts. */
  lemma {:induction false} ScheduleUnobservable(env: Env, p: Program, order: seq<FunctionRef>)
    requires AllReady(p) && FaithfulSchedule(p, order)
    ensures Equivalent(env, p, FoldSchedule(p, order))
    ensures AllReady(FoldSchedule(p, order))
    decreases |order|
  {
    hide Equivalent;
    hide AllReady;
    hide FoldBody;
    if order == [] {
      EquivalentRefl(env, p);
    } else {
      var f := order[0];
      var q := FoldOnce(p, f);
      FoldOnceReady(p, f);
      ScheduleUnobservable(env, q, order[1..]);
      if f in p && FoldBody(p[f]).Changed? {
        ReadyGuarded(p, f);
        FoldingEquivalent(env, p, f);
        EquivalentTrans(env, p, q, FoldSchedule(q, order[1..]));
      }
    }
  }

  // ----- words on which the sign does not matter -----

  predicate SignBlind(k: Kind) {
    match k
    case Plain(Intrinsic(Binary(o))) => o !in {Div, Mod, Less, LessEq, Greater, GreaterEq, Min, Max}
    case _ => true
  }

  ghost predicate SignBlindBody(body: seq<Operation>) {
    forall k :: 0 <= k < |body| ==> SignBlind(body[k].kind)
  }

  ghost predicate SignBlindProgram(p: Program) {
    forall f :: f in p ==> SignBlindBody(p[f])
  }

  lemma {:induction false} SignBlindFaithful(ops: seq<Operation>)
    requires SignBlindBody(ops) && FoldRun(ops).Folded?
    ensures Faithful(ops)
    decreases |ops|
  {
    hide FoldOperation;
    if ops != [] {
      SignBlindFaithful(ops[..|ops|-1]);
      assert SignBlind(ops[|ops|-1].kind);
    }
  }

  lemma SignBlindRound(body: seq<Operation>)
    requires SignBlindBody(body)
    ensures FaithfulBody(body)
    ensures FoldBody(body).Changed? ==> SignBlindBody(FoldBody(body).body)
  {
    hide Splice;
    hide FoldRun;
    if FoldBody(body).Changed? {
      ScanFindsRun(body, 0, None, []);
      var r := ScanFrom(body, 0, None, []);
      SignBlindFaithful(body[r.start..r.end]);
      FoldingKeepsKinds(body);
      var new_ := FoldBody(body).body;
      forall k | 0 <= k < |new_|
        ensures SignBlind(new_[k].kind)
      {
        if !IsPushInt(new_[k]) {
          var j :| 0 <= j < |body| && body[j].kind == new_[k].kind;
        }
      }
    }
  }

  /** A program without division, ordered comparison, min and max folds faithfully on every schedule. */
  lemma {:induction false} SignBlindSchedule(p: Program, order: seq<FunctionRef>)
    requires SignBlindProgram(p)
    ensures FaithfulSchedule(p, order)
    decreases |order|
  {
    hide FaithfulBody;
    hide FoldBody;
    hide SignBlindBody;
    if order != [] {
      var f := order[0];
      if f in p {
        SignBlindRound(p[f]);
      }
      SignBlindSchedule(FoldOnce(p, f), order[1..]);
    }
  }
}
