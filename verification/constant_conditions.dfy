/**
 The condition pass on source: for each kind of constant condition, anywhere in linked code, what is left,
 exactly when every jump that stays designates what it designated, and that nothing is observed then.
 */
module ConstantConditions {
  import opened Wrappers
  import opened Words
  import opened Operations
  import opened Machine
  import opened Structured
  import opened Folding
  import opened FoldCorrectness
  import opened Conditions
  import opened Cuts
  import opened BranchRewriting
  import opened LoopRewriting
  import opened Contexts

  /**
   A rewrite of `p[f]` that leaves `cut`, relabelled: its jumps are kept exactly when `right`, and then it cannot
   be observed.
   */
  ghost predicate RightExactlyWhen(env: Env, p: Program, f: FunctionRef, r: Option<seq<Operation>>, cut: Cut, s: Shift,
      s': Shift, right: bool) {
    && f in p && Fits(cut, |p[f]|) && r == Some(Excised(p[f], cut, s, s'))
    && (JumpsKept(p[f], cut, s, s') <==> right)
    && (right ==> Equivalent(env, p, p[f := Excised(p[f], cut, s, s')]))
  }

  // ----- endless loops in source -----

  lemma BodyStart(body: seq<Operation>, at: nat, b: Block, i: nat)
    requires IsPart(body, at, b) && at <= i < at + Size(b) && body[i].jump == To(at)
    ensures !body[at].kind.Plain?
  {
    hide Link;
    LinkAnchored(b, at);
    var code := Link(b, at);
    PartAt(body, at, b, i);
    PartAt(body, at, b, at);
    assert AnchoredAt(code, at, at);
  }

  lemma LinkedAnchored(all: Block, body: seq<Operation>, d: nat, b: Block)
    requires body == Link(all, 0) && IsPart(body, d + 2, b) && d + 3 + Size(b) <= |body|
    ensures WellAnchored(body, d, d + 3 + Size(b))
  {
    hide Link;
    LinkAnchored(all, 0);
    LinkSetsJumps(all, 0);
    forall i | d + 2 <= i < d + 2 + Size(b) && body[i].jump == To(d + 2)
      ensures !body[d + 2].kind.Plain?
    {
      BodyStart(body, d + 2, b, i);
    }
  }

  /**
   `while cond <nonzero> do b end` anywhere in linked code: the rewrite is right exactly when the rest of the
   condition has no control word and every block around the loop is itself a loop's condition.
   */
  lemma {:induction false} InfiniteLoopExact(env: Env, p: Program, f: FunctionRef, path: Path, cond: Block, value: Word,
      ty: Type, b: Block)
    requires f in p && value != 0 && |p[f]| + 3 < EMPTY_JUMP
    requires p[f] == Link(Plug(path, LoopUnit(cond, value, ty, b)), 0)
    ensures var w := Offset(path);
      var d := w + 1 + Size(cond);
      var hi := d + 3 + Size(b);
      && LoopShape(p[f], w, d, hi, value)
      && var j := LastWhile(p[f], w, d - 1);
         RightExactlyWhen(env, p, f, RewriteInfiniteLoop(p[f], d + 1), Cut(j, j + 1, d, d + 2, hi),
             Shift(d + 2, Some(hi - 1), 3), NO_SHIFT,
                          NoControl(p[f], w + 1, d) && OnlyConditions(path))
  {
    hide Link;
    hide Size;
    hide Plug;
    hide Offset;
    hide OnlyConditions;
    hide JumpsKept;
    hide Excised;
    hide Equivalent;
    hide Guarded;
    hide Foldable;
    hide RewriteInfiniteLoop;
    hide Around;
    hide Within;
    hide NoneAcross;
    hide NoControl;
    hide ClosedLoop;
    hide IsPart;
    hide LoopUnit;
    hide WellAnchored;
    var body, w, unit := p[f], Offset(path), LoopUnit(cond, value, ty, b);
    var d := w + 1 + Size(cond);
    var hi := d + 3 + Size(b);
    LinkedLoop(path, cond, value, ty, b, body);
    PlacedAround(path, unit);
    LoopParts(body, w, cond, value, ty, b);
    AcrossExactly(path, unit, body);
    InfiniteLoopResult(body, w, d, hi, value);
    InfiniteLoopKept(body, w, d, hi, value);
    if NoControl(body, w + 1, d) && OnlyConditions(path) {
      InfiniteLoopEquivalent(env, p, f, w, d, hi, value);
    }
  }

  /**
   After a right rewrite folding may go on exactly when no literals before the `while` take in the operation that
   follows them then.
   */
  lemma {:induction false} UnloopedFoldable(path: Path, cond: Block, value: Word, ty: Type, b: Block,
      body: seq<Operation>)
    requires |body| + 3 < EMPTY_JUMP && body == Link(Plug(path, LoopUnit(cond, value, ty, b)), 0)
    requires var w := Offset(path);
      var d := w + 1 + Size(cond);
      d <= |body| && NoControl(body, w + 1, d) && OnlyConditions(path)
    ensures var w := Offset(path);
      var d := w + 1 + Size(cond);
      var hi := d + 3 + Size(b);
      && hi <= |body| && RewriteInfiniteLoop(body, d + 1) == Some(Unlooped(body, w, d, hi))
      && (Guarded(Unlooped(body, w, d, hi)) <==> !Joins(body, w, if d > w + 1 then w + 1 else d + 2))
  {
    hide Link;
    hide Size;
    hide Plug;
    hide Offset;
    hide OnlyConditions;
    hide Excised;
    hide Guarded;
    hide Joins;
    hide RewriteInfiniteLoop;
    hide Around;
    hide Within;
    hide NoneAcross;
    hide NoControl;
    hide ClosedLoop;
    hide IsPart;
    hide LoopUnit;
    hide WellAnchored;
    var w, unit := Offset(path), LoopUnit(cond, value, ty, b);
    var d := w + 1 + Size(cond);
    var hi := d + 3 + Size(b);
    LinkedLoop(path, cond, value, ty, b, body);
    PlacedAround(path, unit);
    LoopParts(body, w, cond, value, ty, b);
    AcrossExactly(path, unit, body);
    InfiniteLoopResult(body, w, d, hi, value);
    OwnWhile(body, w, d, hi, value);
    LinkedAnchored(Plug(path, unit), body, d, b);
    UnloopedGuarded(body, w, d, hi, value);
  }

  /** `while cond 0 do b end` likewise. */
  lemma {:induction false} DeadLoopExact(env: Env, p: Program, f: FunctionRef, path: Path, cond: Block,
      ty: Type, b: Block)
    requires f in p && |p[f]| + 3 < EMPTY_JUMP && p[f] == Link(Plug(path, LoopUnit(cond, 0, ty, b)), 0)
    ensures var w := Offset(path);
      var d := w + 1 + Size(cond);
      var hi := d + 3 + Size(b);
      && LoopShape(p[f], w, d, hi, 0)
      && var j := LastWhile(p[f], w, d - 1);
         RightExactlyWhen(env, p, f, RewriteDeadLoop(p[f], d + 1), Cut(j, j + 1, d, hi, |p[f]|),
             Shift(hi - 1, None, hi - d + 1), Shift(j, Some(d + 1), 1),
                          NoWhile(p[f], w + 1, d) && NoneNear(p[f], w, hi))
  {
    hide Link;
    hide Size;
    hide Plug;
    hide Offset;
    hide JumpsKept;
    hide Excised;
    hide Equivalent;
    hide RewriteDeadLoop;
    hide Around;
    hide Within;
    hide NoWhile;
    hide NoneNear;
    hide ClosedLoop;
    hide LoopUnit;
    var body, w := p[f], Offset(path);
    var d := w + 1 + Size(cond);
    var hi := d + 3 + Size(b);
    LinkedLoop(path, cond, 0, ty, b, body);
    DeadLoopResult(body, w, d, hi, 0);
    DeadLoopKept(body, w, d, hi, 0);
    if NoWhile(body, w + 1, d) && NoneNear(body, w, hi) {
      DeadLoopEquivalent(env, p, f, w, d, hi);
    }
  }

  // ----- constant conditions in source -----

  /** `<nonzero> if t else e end` anywhere in linked code. */
  lemma {:induction false} TrueIfElseExact(env: Env, p: Program, f: FunctionRef, path: Path, value: Word, ty: Type,
      t: Block, e: Block)
    requires f in p && value != 0 && p[f] == Link(Plug(path, IfElseUnit(value, ty, t, e)), 0)
    ensures var w := Offset(path);
      var m := w + 2 + Size(t);
      var end := m + 1 + Size(e);
      var cut := if Size(e) > 0 then Cut(w, w + 2, m, end + 1, |p[f]|) else Cut(w, w + 2, m, m + 1, |p[f]|);
      var s := if Size(e) > 0 then Shift(end - 1, None, end - m) else Shift(m, None, 1);
      var s' := Shift(w + 1, Some(m), 2);
      && IfElseShape(p[f], w, m, end, value)
      && RightExactlyWhen(env, p, f, RewriteTrueIf(p[f], w + 1), cut, s, s', Size(e) > 0
      && NoneBehind(p[f], w, end + 1))
  {
    hide Link;
    hide Size;
    hide Plug;
    hide Offset;
    hide JumpsKept;
    hide Excised;
    hide Equivalent;
    hide RewriteTrueIf;
    hide Around;
    hide Within;
    hide NoneBehind;
    hide IfElseUnit;
    var body, w := p[f], Offset(path);
    var m := w + 2 + Size(t);
    var end := m + 1 + Size(e);
    LinkedIfElse(path, value, ty, t, e, body);
    TrueIfElseResult(body, w, m, end, value);
    if Size(e) > 0 {
      TrueIfElseKept(body, w, m, end, value);
      if NoneBehind(body, w, end + 1) {
        TrueIfElseEquivalent(env, p, f, w, m, end, value);
      }
    } else {
      TrueEmptyElseBreaks(body, w, m, value);
    }
  }

  /** `0 if t else e end` anywhere in linked code. */
  lemma {:induction false} FalseIfElseExact(env: Env, p: Program, f: FunctionRef, path: Path, ty: Type,
      t: Block, e: Block)
    requires f in p && p[f] == Link(Plug(path, IfElseUnit(0, ty, t, e)), 0)
    ensures var w := Offset(path);
      var m := w + 2 + Size(t);
      var end := m + 1 + Size(e);
      var cut := if Size(e) > 0 then Cut(w, m + 1, end, end + 1, |p[f]|) else Cut(w, m + 1, m + 1, m + 1, |p[f]|);
      var s := if Size(e) > 0 then Shift(m, None, 4) else Shift(m, None, 3);
      && IfElseShape(p[f], w, m, end, 0)
      && RightExactlyWhen(env, p, f, RewriteFalseIf(p[f], w + 1), cut, s, NO_SHIFT,
                          if Size(e) == 0 then Size(t) == 0
                          else
                            && (Size(t) == 1 || NoControl(p[f], m + 1, end))
                            && (Size(t) == 0 || NoneBehind(p[f], w, end + 1)))
  {
    hide Link;
    hide Size;
    hide Plug;
    hide Offset;
    hide JumpsKept;
    hide Excised;
    hide Equivalent;
    hide RewriteFalseIf;
    hide Around;
    hide Within;
    hide NoneBehind;
    hide NoControl;
    hide IfElseUnit;
    var body, w := p[f], Offset(path);
    var m := w + 2 + Size(t);
    var end := m + 1 + Size(e);
    LinkedIfElse(path, 0, ty, t, e, body);
    FalseIfElseResult(body, w, m, end, 0);
    if Size(e) > 0 {
      FalseIfElseKept(body, w, m, end, 0);
    } else {
      FalseEmptyElseKept(body, w, m, 0);
    }
    if if end == m + 1 then m == w + 2
       else (m == w + 3 || NoControl(body, m + 1, end)) && (m == w + 2 || NoneBehind(body, w, end + 1)) {
      FalseIfElseEquivalent(env, p, f, w, m, end);
    }
  }

  /** `<nonzero> if t end` anywhere in linked code. */
  lemma {:induction false} TrueIfThenExact(env: Env, p: Program, f: FunctionRef, path: Path, value: Word,
      ty: Type, t: Block)
    requires f in p && value != 0 && p[f] == Link(Plug(path, IfThenUnit(value, ty, t)), 0)
    ensures var w := Offset(path);
      var m := w + 2 + Size(t);
      var cut := if Size(t) > 0 then Cut(w, w + 2, m - 1, m, |p[f]|) else Cut(w, w + 3, w + 3, w + 3, |p[f]|);
      var s, s' := Shift(m - 1, None, 1), Shift(w + 1, Some(m - 1), 2);
      && IfThenShape(p[f], w, m, value)
      && RightExactlyWhen(env, p, f, RewriteTrueIf(p[f], w + 1), cut, s, s', Size(t) == 0 && NoneBehind(p[f], w, m + 1))
  {
    hide Link;
    hide Size;
    hide Plug;
    hide Offset;
    hide JumpsKept;
    hide Excised;
    hide Equivalent;
    hide RewriteTrueIf;
    hide Around;
    hide Within;
    hide NoneBehind;
    hide IfThenUnit;
    var body, w := p[f], Offset(path);
    var m := w + 2 + Size(t);
    LinkedIfThen(path, value, ty, t, body);
    TrueIfThenResult(body, w, m, value);
    if Size(t) > 0 {
      TrueIfThenBreaks(body, w, m, value);
    } else {
      TrueEmptyThenKept(body, w, value);
      if NoneBehind(body, w, w + 3) {
        TrueEmptyThenEquivalent(env, p, f, w, value);
      }
    }
  }

  /** `0 if t end` anywhere in linked code. */
  lemma {:induction false} FalseIfThenExact(env: Env, p: Program, f: FunctionRef, path: Path, ty: Type, t: Block)
    requires f in p && p[f] == Link(Plug(path, IfThenUnit(0, ty, t)), 0)
    ensures var w := Offset(path);
      var m := w + 2 + Size(t);
      var cut, s := Cut(w, m, m, m, |p[f]|), Shift(m - 1, None, 3);
      && IfThenShape(p[f], w, m, 0)
      && RightExactlyWhen(env, p, f, RewriteFalseIf(p[f], w + 1), cut, s, NO_SHIFT, Size(t) == 1)
  {
    hide Link;
    hide Size;
    hide Plug;
    hide Offset;
    hide JumpsKept;
    hide Excised;
    hide Equivalent;
    hide RewriteFalseIf;
    hide Around;
    hide Within;
    hide IfThenUnit;
    var body, w := p[f], Offset(path);
    var m := w + 2 + Size(t);
    LinkedIfThen(path, 0, ty, t, body);
    FalseIfThenResult(body, w, m, 0);
    FalseIfThenKept(body, w, m, 0);
    if m == w + 3 {
      FalseIfThenEquivalent(env, p, f, w);
    }
  }
}
