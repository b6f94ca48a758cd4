/**
 The constant-`if` rewrites: what they leave, when every jump that stays designates the operation it
 designated, and that they cannot be observed then. The shapes are those of an `if` right behind a literal
 anywhere in linked code.
 */
module BranchRewriting {
  import opened Wrappers
  import opened Words
  import opened Operations
  import opened Machine
  import opened Simulation
  import opened Conditions
  import opened Cuts

  // ----- shapes -----

  predicate IsLiteral(op: Operation, value: Word) {
    op.kind.Plain? && op.kind.plain.PushInt? && op.kind.plain.value == value
  }

  /** Control operations of `[lo, hi)` jump into `[from, to]`. */
  ghost predicate Within(body: seq<Operation>, lo: nat, hi: nat, from: nat, to: nat)
    requires lo <= hi <= |body|
  {
    forall i :: lo <= i < hi && Jumps(body[i].kind) ==> body[i].jump.To? && from <= body[i].jump.target <= to
  }

  /** Control operations outside `[w, hi)` do not jump into it, except to its start. */
  ghost predicate Around(body: seq<Operation>, w: nat, hi: nat)
    requires w <= hi <= |body|
  {
    forall i :: 0 <= i < |body| && (i < w || hi <= i) && Jumps(body[i].kind) ==>
      body[i].jump.To? && (body[i].jump.target <= w || hi <= body[i].jump.target <= |body|)
  }

  ghost predicate NoControl(body: seq<Operation>, lo: nat, hi: nat)
    requires lo <= hi <= |body|
  {
    forall i :: lo <= i < hi ==> !Jumps(body[i].kind)
  }

  /** No operation outside `[w, hi)` jumps behind it. */
  ghost predicate NoneBehind(body: seq<Operation>, w: nat, hi: nat)
    requires w <= hi <= |body|
  {
    forall i :: 0 <= i < |body| && (i < w || hi <= i) && Jumps(body[i].kind) && body[i].jump.To? ==>
        body[i].jump.target <= w
  }

  /** `<value> if … else … end` from `w` on, the `else` at `m`, the `end` at `e`. */
  ghost predicate IfElseShape(body: seq<Operation>, w: nat, m: nat, e: nat, value: Word) {
    && w + 2 <= m < e < |body|
    && IsLiteral(body[w], value) && body[w + 1] == Operation(If, To(m + 1))
    && body[m] == Operation(Else, To(e)) && body[e] == Operation(End, To(e + 1))
    && Within(body, w + 2, m, w + 2, m) && Within(body, m + 1, e, m + 1, e) && Around(body, w, e + 1)
  }

  /** `<value> if … end` from `w` on, the `end` at `m`. */
  ghost predicate IfThenShape(body: seq<Operation>, w: nat, m: nat, value: Word) {
    && w + 2 <= m < |body|
    && IsLiteral(body[w], value) && body[w + 1] == Operation(If, To(m)) && body[m] == Operation(End, To(m + 1))
    && (m > w + 2 ==> body[m - 1].kind != Else)
    && Within(body, w + 2, m, w + 2, m) && Around(body, w, m + 1)
  }

  // ----- erasing and relabelling commute -----

  lemma EraseShifted(s: Shift, body: seq<Operation>, lo: nat, hi: nat)
    requires lo <= hi <= |body|
    ensures Erase(ShiftOps(s, body), lo, hi) == Some(ShiftOps(s, body[..lo] + body[hi..]))
  {
    assert ShiftOps(s, body)[..lo] + ShiftOps(s, body)[hi..] == ShiftOps(s, body[..lo] + body[hi..]);
  }

  lemma NoShiftStays(body: seq<Operation>)
    ensures ShiftOps(NO_SHIFT, body) == body
  {
  }

  /** Erasing from the back, then from the front. */
  lemma EraseTwice(body: seq<Operation>, cut: Cut)
    requires Fits(cut, |body|) && cut.tail == |body|
    ensures Erase(body, cut.x2, cut.y2) == Some(body[..cut.x2] + body[cut.y2..])
    ensures var one := body[..cut.x2] + body[cut.y2..];
      one[..cut.x1] + one[cut.y1..] == Kept(body, cut) && cut.y1 <= |one|
  {
    var one := body[..cut.x2] + body[cut.y2..];
    assert one[..cut.x1] == body[..cut.x1];
    assert one[cut.y1..] == body[cut.y1..cut.x2] + body[cut.y2..cut.tail];
  }

  // ----- what the rewrites leave -----

  lemma TrueTail(one: seq<Operation>, s: Shift, s': Shift, w: nat)
    requires w + 2 <= |one|
    ensures Erase(ShiftOps(s', ShiftOps(s, one)), w, w + 2) == Some(ShiftOps(s', ShiftOps(s, one[..w] + one[w + 2..])))
  {
    hide ShiftOps;
    EraseShifted(s', ShiftOps(s, one), w, w + 2);
    EraseShifted(s, one, w, w + 2);
  }

  /** The steps of the rewrite, once `else` (or what it takes for it) and `end` are known. */
  lemma TrueSteps(body: seq<Operation>, w: nat, els: nat, end: nat)
    requires 1 <= w + 1 < |body| && els <= end && els < |body| && body[w + 1].jump == To(els + 1)
    requires if body[els].kind == Else then body[els].jump == To(end + 1) else end == els
    requires var hi := if end != els then end + 2 else els + 1; w + 2 <= |body| - (hi - els) && hi <= |body|
    ensures var hi := if end != els then end + 2 else els + 1;
      var one := body[..els] + body[hi..];
      RewriteTrueIf(body, w + 1) == Some(
        ShiftOps(Shift(w + 1, Some(els), 2),
            ShiftOps(Shift(end, None, if end != els then end - els + 1 else 1), one[..w] + one[w + 2..])))
  {
    hide Remap;
    var hi := if end != els then end + 2 else els + 1;
    var one := body[..els] + body[hi..];
    assert Erase(body, els, hi) == Some(one);
    TrueTail(one, Shift(end, None, if end != els then end - els + 1 else 1), Shift(w + 1, Some(els), 2), w);
  }

  lemma TrueIfElseResult(body: seq<Operation>, w: nat, m: nat, e: nat, value: Word)
    requires IfElseShape(body, w, m, e, value)
    ensures RewriteTrueIf(body, w + 1) == Some(
      if e > m + 1 then Excised(body, Cut(w, w + 2, m, e + 1, |body|), Shift(e - 1, None, e - m),
          Shift(w + 1, Some(m), 2))
      else Excised(body, Cut(w, w + 2, m, m + 1, |body|), Shift(m, None, 1), Shift(w + 1, Some(m), 2)))
  {
    hide Within;
    hide Around;
    hide ShiftOps;
    hide RewriteTrueIf;
    TrueSteps(body, w, m, e - 1);
    EraseTwice(body, if e > m + 1 then Cut(w, w + 2, m, e + 1, |body|) else Cut(w, w + 2, m, m + 1, |body|));
  }

  lemma FalseIfElseResult(body: seq<Operation>, w: nat, m: nat, e: nat, value: Word)
    requires IfElseShape(body, w, m, e, value)
    ensures RewriteFalseIf(body, w + 1) == Some(
      if e > m + 1 then Excised(body, Cut(w, m + 1, e, e + 1, |body|), Shift(m, None, 4), NO_SHIFT)
      else Excised(body, Cut(w, m + 1, m + 1, m + 1, |body|), Shift(m, None, 3), NO_SHIFT))
  {
    hide Within;
    hide Around;
    hide Remap;
    var cut := if e > m + 1 then Cut(w, m + 1, e, e + 1, |body|) else Cut(w, m + 1, m + 1, m + 1, |body|);
    EraseTwice(body, cut);
    var one := body[..cut.x2] + body[cut.y2..];
    if e == m + 1 {
      assert one == body;
    }
    NoShiftStays(ShiftOps(if e > m + 1 then Shift(m, None, 4) else Shift(m, None, 3), Kept(body, cut)));
  }

  lemma TrueIfThenResult(body: seq<Operation>, w: nat, m: nat, value: Word)
    requires IfThenShape(body, w, m, value)
    ensures RewriteTrueIf(body, w + 1) == Some(
      if m > w + 2 then Excised(body, Cut(w, w + 2, m - 1, m, |body|), Shift(m - 1, None, 1),
          Shift(w + 1, Some(m - 1), 2))
      else Excised(body, Cut(w, w + 3, w + 3, w + 3, |body|), Shift(w + 1, None, 1), Shift(w + 1, Some(w + 1), 2)))
  {
    hide Within;
    hide Around;
    hide ShiftOps;
    hide RewriteTrueIf;
    TrueSteps(body, w, m - 1, m - 1);
    if m > w + 2 {
      EraseTwice(body, Cut(w, w + 2, m - 1, m, |body|));
    } else {
      var one := body[..m - 1] + body[m..];
      assert one[..w] == body[..w] && one[w + 2..] == body[w + 3..];
      assert body[..w] + body[w + 3..w + 3] + body[w + 3..|body|] == body[..w] + body[w + 3..];
    }
  }

  lemma FalseIfThenResult(body: seq<Operation>, w: nat, m: nat, value: Word)
    requires IfThenShape(body, w, m, value)
    ensures RewriteFalseIf(body, w + 1) == Some(Excised(body, Cut(w, m, m, m, |body|), Shift(m - 1, None, 3), NO_SHIFT))
  {
    hide Within;
    hide Around;
    hide Remap;
    assert body[..w] + body[m..m] + body[m..|body|] == body[..w] + body[m..];
    NoShiftStays(ShiftOps(Shift(m - 1, None, 3), body[..w] + body[m..]));
  }

  // ----- when jumps are kept -----

  /** Always true, with an `else`: exactly when the `else` has something in it and nothing jumps behind the `end`. */
  lemma TrueIfElseKept(body: seq<Operation>, w: nat, m: nat, e: nat, value: Word)
    requires IfElseShape(body, w, m, e, value) && e > m + 1
    ensures JumpsKept(body, Cut(w, w + 2, m, e + 1, |body|), Shift(e - 1, None, e - m), Shift(w + 1, Some(m), 2))
       <==> NoneBehind(body, w, e + 1)
  {
    var cut, s, s' := Cut(w, w + 2, m, e + 1, |body|), Shift(e - 1, None, e - m), Shift(w + 1, Some(m), 2);
    forall i | 0 <= i < |body| && Stays(cut, i) && Jumps(body[i].kind)
      ensures JumpKept(body, cut, s, s', i) <==> (i < w || e < i) ==> body[i].jump.target <= w
    {
    }
  }

  /** With an empty `else` the `end` that stays jumps two operations too far. */
  lemma TrueEmptyElseBreaks(body: seq<Operation>, w: nat, m: nat, value: Word)
    requires IfElseShape(body, w, m, m + 1, value)
    ensures !JumpsKept(body, Cut(w, w + 2, m, m + 1, |body|), Shift(m, None, 1), Shift(w + 1, Some(m), 2))
  {
    assert !JumpKept(body, Cut(w, w + 2, m, m + 1, |body|), Shift(m, None, 1), Shift(w + 1, Some(m), 2), m + 1);
  }

  /**
   Always false, with an `else`: the jumps of the `else` fit one operation erased before it, those behind fit none.
   */
  lemma FalseIfElseKept(body: seq<Operation>, w: nat, m: nat, e: nat, value: Word)
    requires IfElseShape(body, w, m, e, value) && e > m + 1
    ensures JumpsKept(body, Cut(w, m + 1, e, e + 1, |body|), Shift(m, None, 4), NO_SHIFT)
       <==> (m == w + 3 || NoControl(body, m + 1, e)) && (m == w + 2 || NoneBehind(body, w, e + 1))
  {
    var cut, s := Cut(w, m + 1, e, e + 1, |body|), Shift(m, None, 4);
    forall i | 0 <= i < |body| && Stays(cut, i) && Jumps(body[i].kind)
      ensures JumpKept(body, cut, s, NO_SHIFT, i) <==>
        if m < i < e then m == w + 3 else (m == w + 2 || body[i].jump.target <= w)
    {
    }
  }

  lemma FalseEmptyElseKept(body: seq<Operation>, w: nat, m: nat, value: Word)
    requires IfElseShape(body, w, m, m + 1, value)
    ensures JumpsKept(body, Cut(w, m + 1, m + 1, m + 1, |body|), Shift(m, None, 3), NO_SHIFT) <==> m == w + 2
  {
    var cut, s := Cut(w, m + 1, m + 1, m + 1, |body|), Shift(m, None, 3);
    assert JumpKept(body, cut, s, NO_SHIFT, m + 1) <==> m == w + 2;
  }

  /** Always true, without `else`: a branch loses its last operation, and the `end` jumps too far. */
  lemma TrueIfThenBreaks(body: seq<Operation>, w: nat, m: nat, value: Word)
    requires IfThenShape(body, w, m, value) && m > w + 2
    ensures !JumpsKept(body, Cut(w, w + 2, m - 1, m, |body|), Shift(m - 1, None, 1), Shift(w + 1, Some(m - 1), 2))
  {
    assert !JumpKept(body, Cut(w, w + 2, m - 1, m, |body|), Shift(m - 1, None, 1), Shift(w + 1, Some(m - 1), 2), m);
  }

  lemma TrueEmptyThenKept(body: seq<Operation>, w: nat, value: Word)
    requires IfThenShape(body, w, w + 2, value)
    ensures JumpsKept(body, Cut(w, w + 3, w + 3, w + 3, |body|), Shift(w + 1, None, 1), Shift(w + 1, Some(w + 1), 2))
       <==> NoneBehind(body, w, w + 3)
  {
    var cut, s, s' := Cut(w, w + 3, w + 3, w + 3, |body|), Shift(w + 1, None, 1), Shift(w + 1, Some(w + 1), 2);
    forall i | 0 <= i < |body| && Stays(cut, i) && Jumps(body[i].kind)
      ensures JumpKept(body, cut, s, s', i) <==> body[i].jump.target <= w
    {
    }
  }

  /** Always false, without `else`: exactly when the branch is a single operation. */
  lemma FalseIfThenKept(body: seq<Operation>, w: nat, m: nat, value: Word)
    requires IfThenShape(body, w, m, value)
    ensures JumpsKept(body, Cut(w, m, m, m, |body|), Shift(m - 1, None, 3), NO_SHIFT) <==> m == w + 3
  {
    var cut, s := Cut(w, m, m, m, |body|), Shift(m - 1, None, 3);
    assert JumpKept(body, cut, s, NO_SHIFT, m) <==> m == w + 3;
  }

  // ----- meaning -----

  lemma GlidesCompose(env: Env, p: Program, f: FunctionRef, a: nat, b: nat, c: nat, m: nat, n: nat)
    requires AlwaysGlides(env, p, f, a, b, m, []) && AlwaysGlides(env, p, f, b, c, n, [])
    ensures AlwaysGlides(env, p, f, a, c, m + n, [])
  {
    hide Step;
    var all, none := m + n, [];
    forall callers, st, world
      ensures Glides(env, p, f, a, c, all, none, callers, st, world)
    {
      var s := Here(f, a, callers, st, world);
      assert st + [] == st;
      assert Glides(env, p, f, a, b, m, [], callers, st, world);
      assert Glides(env, p, f, b, c, n, [], callers, st, world);
      RunAdd(env, p, s, m, n);
      forall k: nat | k <= m + n
        ensures Observe(Run(env, p, s, k)) == Observation(None, world)
      {
        if k > m {
          RunAdd(env, p, s, m, k - m);
        }
      }
    }
  }

  /** One step that touches nothing. */
  lemma StepGlides(env: Env, p: Program, f: FunctionRef, a: nat, b: nat)
    requires forall callers, st, world ::
        Step(env, p, Config(Frame(f, a), callers, st, world)) == Here(f, b, callers, st, world)
    ensures AlwaysGlides(env, p, f, a, b, 1, [])
  {
    hide Step;
    forall callers, st, world
      ensures Glides(env, p, f, a, b, 1, [], callers, st, world)
    {
      var c := Config(Frame(f, a), callers, st, world);
      OneStep(env, p, c);
      RunZero(env, p, Running(c));
      assert st + [] == st;
    }
  }

  lemma JumpGlides(env: Env, p: Program, f: FunctionRef, a: nat, t: nat)
    requires f in p && a < |p[f]| && (p[f][a] == Operation(Else, To(t)) || p[f][a] == Operation(End, To(t)))
    ensures AlwaysGlides(env, p, f, a, t, 1, [])
  {
    StepGlides(env, p, f, a, t);
  }

  lemma WhileGlides(env: Env, p: Program, f: FunctionRef, a: nat)
    requires f in p && a < |p[f]| && p[f][a].kind == While
    ensures AlwaysGlides(env, p, f, a, a + 1, 1, [])
  {
    StepGlides(env, p, f, a, a + 1);
  }

  /** A literal and the branch on it. */
  lemma LiteralGlides(env: Env, p: Program, f: FunctionRef, a: nat, value: Word, t: nat)
    requires f in p && a + 1 < |p[f]| && IsLiteral(p[f][a], value)
    requires p[f][a + 1].kind in {If, Do} && p[f][a + 1].jump == To(t)
    ensures AlwaysGlides(env, p, f, a, if value == 0 then t else a + 2, 2, [])
  {
    var b := if value == 0 then t else a + 2;
    forall callers, st, world
      ensures Glides(env, p, f, a, b, 2, [], callers, st, world)
    {
      LiteralGlidesHere(env, p, f, a, value, t, callers, st, world);
    }
  }

  lemma LiteralGlidesHere(env: Env, p: Program, f: FunctionRef, a: nat, value: Word, t: nat, callers: seq<Frame>,
      st: seq<Word>, world: World)
    requires f in p && a + 1 < |p[f]| && IsLiteral(p[f][a], value)
    requires p[f][a + 1].kind in {If, Do} && p[f][a + 1].jump == To(t)
    ensures Glides(env, p, f, a, if value == 0 then t else a + 2, 2, [], callers, st, world)
  {
    var b := if value == 0 then t else a + 2;
    var s0, s1 := Here(f, a, callers, st, world), Here(f, a + 1, callers, st + [value], world);
    assert (st + [value])[..|st|] == st && st + [] == st;
    assert Step(env, p, s0.config) == s1;
    assert Step(env, p, s1.config) == Here(f, b, callers, st, world);
    hide Step;
    OneStep(env, p, s0.config);
    OneStep(env, p, s1.config);
    RunAdd(env, p, s0, 1, 1);
    RunZero(env, p, s0);
    forall k: nat | k <= 2
      ensures Observe(Run(env, p, s0, k)) == Observation(None, world)
    {
      assert k == 0 || k == 1 || k == 2;
    }
  }

  /** `<nonzero> if … else … end`, with an `else` that has something in it and nothing jumping behind the `end`. */
  lemma TrueIfElseEquivalent(env: Env, p: Program, f: FunctionRef, w: nat, m: nat, e: nat, value: Word)
    requires f in p && IfElseShape(p[f], w, m, e, value) && value != 0 && e > m + 1 && NoneBehind(p[f], w, e + 1)
    ensures var r := RewriteTrueIf(p[f], w + 1); r.Some? && Equivalent(env, p, p[f := r.value])
  {
    hide AlwaysGlides;
    hide Excised;
    hide JumpsKept;
    hide Equivalent;
    hide RewriteTrueIf;
    TrueIfElseResult(p[f], w, m, e, value);
    TrueIfElseKept(p[f], w, m, e, value);
    LiteralGlides(env, p, f, w, value, m + 1);
    JumpGlides(env, p, f, m, e);
    JumpGlides(env, p, f, e, e + 1);
    GlidesCompose(env, p, f, m, e, e + 1, 1, 1);
    CutUnobservable(env, p, f, Cut(w, w + 2, m, e + 1, |p[f]|), Shift(e - 1, None, e - m),
        Shift(w + 1, Some(m), 2), 2, 2);
  }

  /** `<nonzero> if end`, nothing jumping behind it. */
  lemma TrueEmptyThenEquivalent(env: Env, p: Program, f: FunctionRef, w: nat, value: Word)
    requires f in p && IfThenShape(p[f], w, w + 2, value) && value != 0 && NoneBehind(p[f], w, w + 3)
    ensures var r := RewriteTrueIf(p[f], w + 1); r.Some? && Equivalent(env, p, p[f := r.value])
  {
    hide AlwaysGlides;
    hide Excised;
    hide JumpsKept;
    hide Equivalent;
    hide RewriteTrueIf;
    TrueIfThenResult(p[f], w, w + 2, value);
    TrueEmptyThenKept(p[f], w, value);
    LiteralGlides(env, p, f, w, value, w + 2);
    JumpGlides(env, p, f, w + 2, w + 3);
    GlidesCompose(env, p, f, w, w + 2, w + 3, 2, 1);
    CutUnobservable(env, p, f, Cut(w, w + 3, w + 3, w + 3, |p[f]|), Shift(w + 1, None, 1),
        Shift(w + 1, Some(w + 1), 2), 3, 0);
  }

  /** `0 if … else … end`, where the fixed amounts happen to fit. */
  lemma FalseIfElseEquivalent(env: Env, p: Program, f: FunctionRef, w: nat, m: nat, e: nat)
    requires f in p && IfElseShape(p[f], w, m, e, 0)
    requires if e == m + 1 then m == w + 2
             else (m == w + 3 || NoControl(p[f], m + 1, e)) && (m == w + 2 || NoneBehind(p[f], w, e + 1))
    ensures var r := RewriteFalseIf(p[f], w + 1); r.Some? && Equivalent(env, p, p[f := r.value])
  {
    hide AlwaysGlides;
    hide Excised;
    hide JumpsKept;
    hide Equivalent;
    hide RewriteFalseIf;
    FalseIfElseResult(p[f], w, m, e, 0);
    LiteralGlides(env, p, f, w, 0, m + 1);
    if e > m + 1 {
      FalseIfElseKept(p[f], w, m, e, 0);
      JumpGlides(env, p, f, e, e + 1);
      CutUnobservable(env, p, f, Cut(w, m + 1, e, e + 1, |p[f]|), Shift(m, None, 4), NO_SHIFT, 2, 1);
    } else {
      FalseEmptyElseKept(p[f], w, m, 0);
      CutUnobservable(env, p, f, Cut(w, m + 1, m + 1, m + 1, |p[f]|), Shift(m, None, 3), NO_SHIFT, 2, 0);
    }
  }

  /** `0 if <one operation> end`. */
  lemma FalseIfThenEquivalent(env: Env, p: Program, f: FunctionRef, w: nat)
    requires f in p && IfThenShape(p[f], w, w + 3, 0)
    ensures var r := RewriteFalseIf(p[f], w + 1); r.Some? && Equivalent(env, p, p[f := r.value])
  {
    hide AlwaysGlides;
    hide Excised;
    hide JumpsKept;
    hide Equivalent;
    hide RewriteFalseIf;
    FalseIfThenResult(p[f], w, w + 3, 0);
    FalseIfThenKept(p[f], w, w + 3, 0);
    LiteralGlides(env, p, f, w, 0, w + 3);
    CutUnobservable(env, p, f, Cut(w, w + 3, w + 3, w + 3, |p[f]|), Shift(w + 2, None, 3), NO_SHIFT, 2, 0);
  }
}
