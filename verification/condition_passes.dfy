/**
 Whole runs of the condition pass over a body. Each rewrite meets what the rewrites before it have left; when each
 is right on what it meets, the pass cannot be observed, however many there are.
 */
module ConditionPasses {
  import opened Wrappers
  import opened Words
  import opened Operations
  import opened Machine
  import opened Structured
  import opened Simulation
  import opened FoldCorrectness
  import opened Conditions
  import opened Cuts
  import opened BranchRewriting
  import opened LoopRewriting
  import opened Contexts
  import ConstantConditions
  import opened FoldSchedules
  import opened UndecidedConditions

  // ----- single rewrites -----

  /** Conditions on the loop around the literal at `d`: those under which its jumps are kept. */
  ghost predicate RightLoop(body: seq<Operation>, w: nat, d: nat, hi: nat, value: Word) {
    && LoopShape(body, w, d, hi, value)
    && if value != 0 then NoControl(body, w + 1, d) && NoneAcross(body, w)
        else NoWhile(body, w + 1, d) && NoneNear(body, w, hi)
  }

  ghost predicate RightIfElse(body: seq<Operation>, w: nat, m: nat, e: nat, value: Word) {
    && IfElseShape(body, w, m, e, value)
    && if value != 0 then e > m + 1 && NoneBehind(body, w, e + 1)
       else if e == m + 1 then m == w + 2
       else (m == w + 3 || NoControl(body, m + 1, e)) && (m == w + 2 || NoneBehind(body, w, e + 1))
  }

  ghost predicate RightIfThen(body: seq<Operation>, w: nat, m: nat, value: Word) {
    IfThenShape(body, w, m, value) && if value != 0 then m == w + 2 && NoneBehind(body, w, w + 3) else m == w + 3
  }

  /** The rewrite at `branch` keeps its jumps, and what is left may be folded. */
  ghost predicate RightAt(body: seq<Operation>, branch: nat)
    requires 1 <= branch < |body| && IsCondition(body, branch)
  {
    var w, value := branch - 1, body[branch - 1].kind.plain.value;
    && (if body[branch].kind == Do then exists at, hi :: RightLoop(body, at, w, hi, value)
        else (exists m, e :: RightIfElse(body, w, m, e, value)) || (exists m :: RightIfThen(body, w, m, value)))
    && var r := RewriteCondition(body, branch); r.Some? && Guarded(r.value)
  }

  /** The rewrite at `branch` as a cut. */
  ghost predicate IsCut(body: seq<Operation>, branch: nat, cut: Cut, s: Shift, s': Shift)
    requires 1 <= branch < |body| && IsCondition(body, branch)
  {
    Fits(cut, |body|) && JumpsKept(body, cut, s, s')
        && RewriteCondition(body, branch) == Some(Excised(body, cut, s, s'))
  }

  lemma LoopIsCut(body: seq<Operation>, w: nat, d: nat, hi: nat, value: Word) returns (cut: Cut, s: Shift, s': Shift)
    requires RightLoop(body, w, d, hi, value)
    ensures IsCondition(body, d + 1) && body[d].kind.plain.value == value && IsCut(body, d + 1, cut, s, s')
  {
    hide JumpsKept;
    hide Excised;
    hide Around;
    hide Within;
    hide ClosedLoop;
    hide RewriteInfiniteLoop;
    hide RewriteDeadLoop;
    var j := LastWhile(body, w, d - 1);
    if value != 0 {
      cut, s, s' := Cut(j, j + 1, d, d + 2, hi), Shift(d + 2, Some(hi - 1), 3), NO_SHIFT;
      InfiniteLoopResult(body, w, d, hi, value);
      InfiniteLoopKept(body, w, d, hi, value);
    } else {
      cut, s, s' := Cut(j, j + 1, d, hi, |body|), Shift(hi - 1, None, hi - d + 1), Shift(j, Some(d + 1), 1);
      DeadLoopResult(body, w, d, hi, value);
      DeadLoopKept(body, w, d, hi, value);
    }
  }

  lemma IfElseIsCut(body: seq<Operation>, w: nat, m: nat, e: nat, value: Word) returns (cut: Cut, s: Shift, s': Shift)
    requires RightIfElse(body, w, m, e, value)
    ensures IsCondition(body, w + 1) && body[w].kind.plain.value == value && IsCut(body, w + 1, cut, s, s')
  {
    hide JumpsKept;
    hide Excised;
    hide Around;
    hide Within;
    hide RewriteTrueIf;
    hide RewriteFalseIf;
    if value != 0 {
      cut, s, s' := Cut(w, w + 2, m, e + 1, |body|), Shift(e - 1, None, e - m), Shift(w + 1, Some(m), 2);
      TrueIfElseResult(body, w, m, e, value);
      TrueIfElseKept(body, w, m, e, value);
    } else {
      FalseIfElseResult(body, w, m, e, value);
      if e > m + 1 {
        cut, s, s' := Cut(w, m + 1, e, e + 1, |body|), Shift(m, None, 4), NO_SHIFT;
        FalseIfElseKept(body, w, m, e, value);
      } else {
        cut, s, s' := Cut(w, m + 1, m + 1, m + 1, |body|), Shift(m, None, 3), NO_SHIFT;
        FalseEmptyElseKept(body, w, m, value);
      }
    }
  }

  lemma IfThenIsCut(body: seq<Operation>, w: nat, m: nat, value: Word) returns (cut: Cut, s: Shift, s': Shift)
    requires RightIfThen(body, w, m, value)
    ensures IsCondition(body, w + 1) && body[w].kind.plain.value == value && IsCut(body, w + 1, cut, s, s')
  {
    hide JumpsKept;
    hide Excised;
    hide Around;
    hide Within;
    hide RewriteTrueIf;
    hide RewriteFalseIf;
    if value != 0 {
      cut, s, s' := Cut(w, w + 3, w + 3, w + 3, |body|), Shift(w + 1, None, 1), Shift(w + 1, Some(w + 1), 2);
      TrueIfThenResult(body, w, m, value);
      TrueEmptyThenKept(body, w, value);
    } else {
      cut, s, s' := Cut(w, m, m, m, |body|), Shift(m - 1, None, 3), NO_SHIFT;
      FalseIfThenResult(body, w, m, value);
      FalseIfThenKept(body, w, m, value);
    }
  }

  lemma RightIsCut(body: seq<Operation>, branch: nat) returns (cut: Cut, s: Shift, s': Shift)
    requires 1 <= branch < |body| && IsCondition(body, branch) && RightAt(body, branch)
    ensures IsCut(body, branch, cut, s, s')
  {
    hide RightLoop;
    hide RightIfElse;
    hide RightIfThen;
    hide IsCut;
    hide Guarded;
    hide RewriteCondition;
    var w, value := branch - 1, body[branch - 1].kind.plain.value;
    if body[branch].kind == Do {
      var at, hi :| RightLoop(body, at, w, hi, value);
      cut, s, s' := LoopIsCut(body, at, w, hi, value);
    } else if m, e :| RightIfElse(body, w, m, e, value) {
      cut, s, s' := IfElseIsCut(body, w, m, e, value);
    } else {
      var m :| RightIfThen(body, w, m, value);
      cut, s, s' := IfThenIsCut(body, w, m, value);
    }
  }

  /** A cut that keeps its jumps leaves a body ready for the generator. */
  lemma CutReady(functions: set<FunctionRef>, body: seq<Operation>, cut: Cut, s: Shift, s': Shift)
    requires Ready(functions, body) && Fits(cut, |body|) && JumpsKept(body, cut, s, s')
    requires Guarded(Excised(body, cut, s, s'))
    ensures Ready(functions, Excised(body, cut, s, s'))
  {
    hide Excised;
    hide Guarded;
    hide KindReady;
    hide Kept;
    hide Place;
    hide Stays;
    hide Lands;
    hide Source;
    var new_ := Excised(body, cut, s, s');
    ExcisedKinds(body, cut, s, s');
    forall k | 0 <= k < |new_|
      ensures Jumps(new_[k].kind) ==> new_[k].jump.To?
      ensures KindReady(functions, new_[k].kind)
    {
      KeptAt(body, cut, k);
      var i := Source(cut, k);
      ExcisedAt(body, cut, s, s', i);
      assert KindReady(functions, body[i].kind);
      if Jumps(new_[k].kind) {
        assert JumpKept(body, cut, s, s', i);
      }
    }
  }

  lemma RightEquivalent(env: Env, p: Program, f: FunctionRef, branch: nat)
    requires f in p && 1 <= branch < |p[f]| && IsCondition(p[f], branch) && RightAt(p[f], branch)
    ensures Equivalent(env, p, p[f := RewriteCondition(p[f], branch).value])
  {
    hide Equivalent;
    hide Guarded;
    hide Around;
    hide Within;
    hide ClosedLoop;
    hide RewriteInfiniteLoop;
    hide RewriteDeadLoop;
    hide RewriteTrueIf;
    hide RewriteFalseIf;
    var body, w, value := p[f], branch - 1, p[f][branch - 1].kind.plain.value;
    if body[branch].kind == Do {
      var at, hi :| RightLoop(body, at, w, hi, value);
      if value != 0 {
        InfiniteLoopEquivalent(env, p, f, at, w, hi, value);
      } else {
        DeadLoopEquivalent(env, p, f, at, w, hi);
      }
    } else if m, e :| RightIfElse(body, w, m, e, value) {
      if value != 0 {
        TrueIfElseEquivalent(env, p, f, w, m, e, value);
      } else {
        FalseIfElseEquivalent(env, p, f, w, m, e);
      }
    } else {
      var m :| RightIfThen(body, w, m, value);
      if value != 0 {
        TrueEmptyThenEquivalent(env, p, f, w, value);
      } else {
        FalseIfThenEquivalent(env, p, f, w);
      }
    }
  }

  /** A right rewrite leaves a body ready for the generator. */
  lemma RightReady(functions: set<FunctionRef>, body: seq<Operation>, branch: nat)
    requires Ready(functions, body) && 1 <= branch < |body| && IsCondition(body, branch) && RightAt(body, branch)
    ensures RewriteCondition(body, branch).Some? && Ready(functions, RewriteCondition(body, branch).value)
  {
    hide Guarded;
    hide Ready;
    hide JumpsKept;
    hide Excised;
    hide RewriteCondition;
    var cut, s, s' := RightIsCut(body, branch);
    CutReady(functions, body, cut, s, s');
  }

  // ----- the whole pass -----

  /** Every rewrite the pass makes from `branch` on is right on the body it meets. */
  ghost predicate RightFrom(body: seq<Operation>, branch: nat)
    requires branch >= 1
    decreases |body|, |body| - branch
  {
    if branch >= |body| then true
    else if !IsCondition(body, branch) then RightFrom(body, branch + 1)
    else
      RightAt(body, branch) &&
      match RewriteCondition(body, branch)
      case None => false
      case Some(r) =>
        RewriteShrinks(body, branch);
        RightFrom(r, branch)
  }

  ghost predicate RightPass(body: seq<Operation>) {
    RightFrom(body, 1)
  }

  /** What the pass leaves of a body. */
  function Passed(body: seq<Operation>, branch: nat, changed: bool): seq<Operation>
    requires branch >= 1
  {
    match ConditionsFrom(body, branch, changed)
    case Changed(r) => r
    case _ => body
  }

  /** A pass of right rewrites leaves a body ready for the generator. */
  lemma {:induction false} PassReady(functions: set<FunctionRef>, body: seq<Operation>, branch: nat, changed: bool)
    requires Ready(functions, body) && branch >= 1 && RightFrom(body, branch)
    ensures !ConditionsFrom(body, branch, changed).Undefined? && Ready(functions, Passed(body, branch, changed))
    decreases |body|, |body| - branch
  {
    hide Ready;
    hide RewriteCondition;
    hide RightAt;
    if branch < |body| {
      if !IsCondition(body, branch) {
        PassReady(functions, body, branch + 1, changed);
      } else {
        RightReady(functions, body, branch);
        RewriteShrinks(body, branch);
        var r := RewriteCondition(body, branch).value;
        PassReady(functions, r, branch, true);
        ConditionsShrink(r, branch, true);
      }
    }
  }

  /** And cannot be observed. */
  lemma {:induction false} PassUnobservable(env: Env, p: Program, f: FunctionRef, branch: nat, changed: bool)
    requires f in p && branch >= 1 && RightFrom(p[f], branch)
    ensures Equivalent(env, p, p[f := Passed(p[f], branch, changed)])
    decreases |p[f]|, |p[f]| - branch
  {
    hide Equivalent;
    hide RewriteCondition;
    hide RightAt;
    if branch >= |p[f]| {
      assert p[f := p[f]] == p;
      EquivalentRefl(env, p);
    } else if !IsCondition(p[f], branch) {
      PassUnobservable(env, p, f, branch + 1, changed);
    } else {
      RightEquivalent(env, p, f, branch);
      RewriteShrinks(p[f], branch);
      var q := p[f := RewriteCondition(p[f], branch).value];
      PassUnobservable(env, q, f, branch, true);
      ConditionsShrink(q[f], branch, true);
      PassedDefined(p[f], branch, changed);
      var r := q[f := Passed(q[f], branch, true)];
      assert r == p[f := Passed(p[f], branch, changed)];
      EquivalentTrans(env, p, q, r);
    }
  }

  lemma {:induction false} PassedDefined(body: seq<Operation>, branch: nat, changed: bool)
    requires branch >= 1 && RightFrom(body, branch)
    ensures !ConditionsFrom(body, branch, changed).Undefined?
    decreases |body|, |body| - branch
  {
    hide RewriteCondition;
    hide RightAt;
    if branch < |body| {
      if !IsCondition(body, branch) {
        PassedDefined(body, branch + 1, changed);
      } else {
        RewriteShrinks(body, branch);
        PassedDefined(RewriteCondition(body, branch).value, branch, true);
      }
    }
  }

  /** With nothing decided the pass has nothing to get wrong. */
  lemma {:induction false} UndecidedIsRight(body: seq<Operation>, branch: nat)
    requires branch >= 1 && Undecided(body)
    ensures RightFrom(body, branch)
    decreases |body| - branch
  {
    hide Decided;
    if branch < |body| {
      assert !IsCondition(body, branch) by {
        if IsCondition(body, branch) {
          ConditionIsDecided(body, branch);
        }
      }
      UndecidedIsRight(body, branch + 1);
    }
  }

  // ----- in source -----

  /**
   `while cond <nonzero> do b end` anywhere in linked code is rewritten rightly when the rest of the condition has no
   control word, every block around it is a loop's condition, and no literals before it take in its first operation.
   */
  lemma {:induction false} SourceLoopRight(path: Path, cond: Block, value: Word, ty: Type, b: Block,
      body: seq<Operation>)
    requires value != 0 && |body| + 3 < EMPTY_JUMP && body == Link(Plug(path, LoopUnit(cond, value, ty, b)), 0)
    requires var w := Offset(path);
      var d := w + 1 + Size(cond);
      d + 2 < |body| && NoControl(body, w + 1, d) && OnlyConditions(path)
          && !Joins(body, w, if d > w + 1 then w + 1 else d + 2)
    ensures var w := Offset(path);
      var d := w + 1 + Size(cond);
      var hi := d + 3 + Size(b);
      && IsCondition(body, d + 1) && RightAt(body, d + 1)
      && hi <= |body| && RewriteCondition(body, d + 1) == Some(Unlooped(body, w, d, hi))
  {
    hide Link;
    hide Size;
    hide Plug;
    hide Offset;
    hide OnlyConditions;
    hide Guarded;
    hide Joins;
    hide RewriteInfiniteLoop;
    hide Around;
    hide Within;
    hide NoneAcross;
    hide NoControl;
    hide ClosedLoop;
    hide LoopUnit;
    hide Unlooped;
    var w := Offset(path);
    var d := w + 1 + Size(cond);
    LinkedLoop(path, cond, value, ty, b, body);
    PlacedAround(path, LoopUnit(cond, value, ty, b));
    LoopParts(body, w, cond, value, ty, b);
    AcrossExactly(path, LoopUnit(cond, value, ty, b), body);
    ConstantConditions.UnloopedFoldable(path, cond, value, ty, b, body);
    assert RightLoop(body, w, d, d + 3 + Size(b), value);
  }
}
