/**
 Rewriting the body of one function. A rewrite keeps an index map from old to new positions, runs in
 lock step on mapped positions, and replaces segments of the old body by segments of the new one.
 Whatever satisfies `Valid` cannot be observed.
 */
module Simulation {
  import opened Wrappers
  import opened Words
  import opened Operations
  import opened Machine

  /** A segment up to `to`: the old code takes `steps` steps and pushes `pushes`, the new code does so in `steps'`. */
  datatype Glide = Glide(to: nat, steps: nat, steps': nat, pushes: seq<Word>)

  /** In function `f`, old index `i` becomes `at[i]`, and segments start at the keys of `glides`. */
  datatype Rewrite = Rewrite(f: FunctionRef, at: map<nat, nat>, glides: map<nat, Glide>)

  predicate FallsThrough(k: Kind) {
    k.If? || k.Do? || k.While? || (k.Plain? && !k.plain.Return?)
  }

  predicate Jumps(k: Kind) {
    k.If? || k.Do? || k.Else? || k.End?
  }

  predicate JumpMaps(at: map<nat, nat>, j: Jump, j': Jump) {
    match j
    case NoJump => j' == NoJump
    case To(t) => t in at && j' == To(at[t])
  }

  predicate LockStep(old_: seq<Operation>, new_: seq<Operation>, at: map<nat, nat>, i: nat)
    requires i in at && i < |old_|
  {
    && at[i] < |new_|
    && old_[i].kind == new_[at[i]].kind
    && (FallsThrough(old_[i].kind) ==> i + 1 in at && at[i + 1] == at[i] + 1)
    && (Jumps(old_[i].kind) ==> JumpMaps(at, old_[i].jump, new_[at[i]].jump))
  }

  /** `n` steps from `a` to `b` that only push and leave the world alone. */
  ghost predicate Glides(env: Env, p: Program, f: FunctionRef, a: nat, b: nat, n: nat, pushes: seq<Word>,
                         callers: seq<Frame>, st: seq<Word>, world: World)
  {
    && Run(env, p, Here(f, a, callers, st, world), n) == Here(f, b, callers, st + pushes, world)
    && forall k: nat :: k <= n ==> Observe(Run(env, p, Here(f, a, callers, st, world), k)) == Observation(None, world)
  }

  ghost predicate AlwaysGlides(env: Env, p: Program, f: FunctionRef, a: nat, b: nat, n: nat, pushes: seq<Word>) {
    forall callers, st, world :: Glides(env, p, f, a, b, n, pushes, callers, st, world)
  }

  ghost predicate Valid(env: Env, p: Program, p': Program, w: Rewrite) {
    && w.f in p && p'.Keys == p.Keys
    && (forall g :: g in p && g != w.f ==> p'[g] == p[g])
    && 0 in w.at && w.at[0] == 0
    && |p[w.f]| in w.at && w.at[|p[w.f]|] == |p'[w.f]|
    && (forall i :: i in w.at ==> i <= |p[w.f]|)
    && (forall i :: i in w.at && i !in w.glides && i < |p[w.f]| ==> LockStep(p[w.f], p'[w.f], w.at, i))
    && (forall i :: i in w.glides ==> i in w.at && GlideOk(env, p, p', w, i))
  }

  ghost predicate GlideOk(env: Env, p: Program, p': Program, w: Rewrite, i: nat)
    requires i in w.glides && i in w.at
  {
    var g := w.glides[i];
    && g.to in w.at && i < g.to && g.steps >= 1
    && AlwaysGlides(env, p, w.f, i, g.to, g.steps, g.pushes)
    && AlwaysGlides(env, p', w.f, w.at[i], w.at[g.to], g.steps', g.pushes)
  }

  predicate InGlide(w: Rewrite, fr: Frame) {
    fr.f == w.f && fr.ip in w.glides
  }

  ghost predicate FrameMaps(w: Rewrite, x: Frame, y: Frame) {
    && y.f == x.f
    && if x.f == w.f then x.ip in w.at && y.ip == w.at[x.ip] else y.ip == x.ip
  }

  ghost predicate Related(w: Rewrite, c: Config, c': Config) {
    && FrameMaps(w, c.cur, c'.cur)
    && |c'.callers| == |c.callers|
    && (forall i :: 0 <= i < |c.callers| ==> FrameMaps(w, c.callers[i], c'.callers[i]))
    && c'.stack == c.stack
    && c'.world == c.world
  }

  ghost predicate RelatedStates(w: Rewrite, s: State, s': State) {
    match s
    case Running(c) => s'.Running? && Related(w, c, s'.config)
    case Stopped(_, _, _) => s' == s
  }

  // ----- one step -----

  lemma EnterRelated(p: Program, p': Program, w: Rewrite, c: Config, c': Config, id: nat)
    requires p'.Keys == p.Keys && 0 in w.at && w.at[0] == 0
    requires Related(w, c, c') && FrameMaps(w, Frame(c.cur.f, c.cur.ip + 1), Frame(c'.cur.f, c'.cur.ip + 1))
    ensures RelatedStates(w, Enter(p, c, id), Enter(p', c', id))
  {
  }

  lemma LeaveRelated(w: Rewrite, c: Config, c': Config)
    requires Related(w, c, c')
    ensures RelatedStates(w, Leave(c), Leave(c'))
  {
  }

  lemma PlainRelated(env: Env, p: Program, p': Program, w: Rewrite, c: Config, c': Config, op: Plain)
    requires p'.Keys == p.Keys && 0 in w.at && w.at[0] == 0
    requires Related(w, c, c')
    requires op.Return? ==> FrameMaps(w, Frame(c.cur.f, |Body(p, c.cur.f)|), Frame(c.cur.f, |Body(p', c.cur.f)|))
    requires !op.Return? ==> FrameMaps(w, Frame(c.cur.f, c.cur.ip + 1), Frame(c'.cur.f, c'.cur.ip + 1))
    ensures RelatedStates(w, StepPlain(env, p, op, c), StepPlain(env, p', op, c'))
  {
    hide ApplyPlain;
    match op
    case CallSymbol(id) => EnterRelated(p, p', w, c, c', id);
    case Intrinsic(i) =>
      if i.Call? && |c.stack| >= 1 {
        var target := env.resolve(c.stack[|c.stack|-1]);
        if target.Some? {
          var st := c.stack[..|c.stack|-1];
          EnterRelated(p, p', w, c.(stack := st), c'.(stack := st), target.value);
        }
      }
    case _ =>
  }

  lemma OperationRelated(env: Env, p: Program, p': Program, w: Rewrite, c: Config, c': Config, op: Operation,
      op': Operation)
    requires p'.Keys == p.Keys && 0 in w.at && w.at[0] == 0
    requires Related(w, c, c') && op.kind == op'.kind
    requires FrameMaps(w, Frame(c.cur.f, |Body(p, c.cur.f)|), Frame(c.cur.f, |Body(p', c.cur.f)|))
    requires FallsThrough(op.kind) ==> FrameMaps(w, Frame(c.cur.f, c.cur.ip + 1), Frame(c'.cur.f, c'.cur.ip + 1))
    requires Jumps(op.kind) ==> if c.cur.f == w.f then JumpMaps(w.at, op.jump, op'.jump) else op'.jump == op.jump
    ensures RelatedStates(w, StepOperation(env, p, op, c), StepOperation(env, p', op', c'))
  {
    hide StepPlain;
    if op.kind.Plain? {
      PlainRelated(env, p, p', w, c, c', op.kind.plain);
    }
  }

  lemma StepRelated(env: Env, p: Program, p': Program, w: Rewrite, c: Config, c': Config)
    requires Valid(env, p, p', w) && Related(w, c, c') && !InGlide(w, c.cur)
    ensures RelatedStates(w, Step(env, p, c), Step(env, p', c'))
  {
    hide GlideOk;
    hide StepOperation;
    hide Leave;
    var f := c.cur.f;
    assert f != w.f ==> Body(p', f) == Body(p, f);
    if c.cur.ip < |Body(p, f)| {
      if f == w.f {
        assert LockStep(p[f], p'[f], w.at, c.cur.ip);
        OperationRelated(env, p, p', w, c, c', p[f][c.cur.ip], p'[f][c'.cur.ip]);
      } else {
        OperationRelated(env, p, p', w, c, c', Body(p, f)[c.cur.ip], Body(p', f)[c.cur.ip]);
      }
    } else {
      LeaveRelated(w, c, c');
    }
  }

  // ----- whole runs -----

  lemma SegmentRelated(env: Env, p: Program, p': Program, w: Rewrite, c: Config, c': Config)
    requires Valid(env, p, p', w) && Related(w, c, c') && InGlide(w, c.cur)
    ensures var g := w.glides[c.cur.ip];
      var s, s' := Run(env, p, Running(c), g.steps), Run(env, p', Running(c'), g.steps');
      && s.Running? && s'.Running? && Related(w, s.config, s'.config)
      && g.steps >= 1 && c.cur.ip < g.to <= |p[w.f]| && s.config.cur == Frame(w.f, g.to)
    ensures forall k: nat :: k <= w.glides[c.cur.ip].steps ==>
        Observe(Run(env, p, Running(c), k)) == Observation(None, c.world)
    ensures forall k: nat :: k <= w.glides[c.cur.ip].steps' ==>
        Observe(Run(env, p', Running(c'), k)) == Observation(None, c.world)
  {
    hide Run;
    hide LockStep;
    var i, g := c.cur.ip, w.glides[c.cur.ip];
    assert GlideOk(env, p, p', w, i);
    assert Glides(env, p, w.f, i, g.to, g.steps, g.pushes, c.callers, c.stack, c.world);
    assert Glides(env, p', w.f, w.at[i], w.at[g.to], g.steps', g.pushes, c'.callers, c'.stack, c'.world);
    assert Running(c) == Here(w.f, i, c.callers, c.stack, c.world);
    assert Running(c') == Here(w.f, w.at[i], c'.callers, c'.stack, c'.world);
  }

  /** How far a segment, or a chain of them, can still go. */
  function Ahead(p: Program, w: Rewrite, fr: Frame): nat {
    if InGlide(w, fr) && fr.ip <= |Body(p, w.f)| then 1 + |Body(p, w.f)| - fr.ip else 0
  }

  lemma {:induction false} Forward(env: Env, p: Program, p': Program, w: Rewrite, c: Config, c': Config, n: nat)
      returns (m: nat)
    requires Valid(env, p, p', w) && Related(w, c, c')
    ensures Observe(Run(env, p, Running(c), n)) == Observe(Run(env, p', Running(c'), m))
    decreases n
  {
    hide Step;
    hide GlideOk;
    m := 0;
    if n > 0 {
      if InGlide(w, c.cur) {
        SegmentRelated(env, p, p', w, c, c');
        var g := w.glides[c.cur.ip];
        if n >= g.steps {
          var s, s' := Run(env, p, Running(c), g.steps), Run(env, p', Running(c'), g.steps');
          m := Forward(env, p, p', w, s.config, s'.config, n - g.steps);
          RunAdd(env, p, Running(c), g.steps, n - g.steps);
          RunAdd(env, p', Running(c'), g.steps', m);
          m := g.steps' + m;
        }
      } else {
        StepRelated(env, p, p', w, c, c');
        OneStep(env, p, c);
        OneStep(env, p', c');
        var s, s' := Step(env, p, c), Step(env, p', c');
        if s.Running? {
          m := Forward(env, p, p', w, s.config, s'.config, n - 1);
        }
        RunAdd(env, p, Running(c), 1, n - 1);
        RunAdd(env, p', Running(c'), 1, m);
        m := 1 + m;
      }
    }
  }

  lemma {:induction false} Backward(env: Env, p: Program, p': Program, w: Rewrite, c: Config, c': Config, m: nat)
      returns (n: nat)
    requires Valid(env, p, p', w) && Related(w, c, c')
    ensures Observe(Run(env, p, Running(c), n)) == Observe(Run(env, p', Running(c'), m))
    decreases m, Ahead(p, w, c.cur)
  {
    hide Step;
    hide GlideOk;
    n := 0;
    if InGlide(w, c.cur) {
      SegmentRelated(env, p, p', w, c, c');
      var g := w.glides[c.cur.ip];
      if m >= g.steps' {
        var s, s' := Run(env, p, Running(c), g.steps), Run(env, p', Running(c'), g.steps');
        n := Backward(env, p, p', w, s.config, s'.config, m - g.steps');
        RunAdd(env, p, Running(c), g.steps, n);
        RunAdd(env, p', Running(c'), g.steps', m - g.steps');
        n := g.steps + n;
      }
    } else if m > 0 {
      StepRelated(env, p, p', w, c, c');
      OneStep(env, p, c);
      OneStep(env, p', c');
      var s, s' := Step(env, p, c), Step(env, p', c');
      if s.Running? {
        n := Backward(env, p, p', w, s.config, s'.config, m - 1);
      }
      RunAdd(env, p, Running(c), 1, n);
      RunAdd(env, p', Running(c'), 1, m - 1);
      n := 1 + n;
    }
  }

  /** A valid rewrite cannot be observed from any starting stack and world. */
  lemma RewriteUnobservable(env: Env, p: Program, p': Program, w: Rewrite)
    requires Valid(env, p, p', w)
    ensures Equivalent(env, p, p')
  {
    hide Step;
    hide GlideOk;
    forall st, world
      ensures SameObservations(env, p, Start(st, world), p', Start(st, world))
    {
      var c := Config(Frame(Main, 0), [], st, world);
      forall n: nat
        ensures Seen(env, p', Start(st, world), Observe(Run(env, p, Start(st, world), n)))
      {
        var m := Forward(env, p, p', w, c, c, n);
      }
      forall m: nat
        ensures Seen(env, p, Start(st, world), Observe(Run(env, p', Start(st, world), m)))
      {
        var n := Backward(env, p, p', w, c, c, m);
      }
    }
  }
}
