/**
 The constant-`while` rewrites: a loop on a nonzero literal is cut down to its body, a loop on zero to its
 condition. As for `if`: what they leave, exactly when the jumps that stay designate what they designated, and
 that nothing can be observed then. Where the cut-down endless loop may be folded is decided as well.
 */
module LoopRewriting {
  import opened Wrappers
  import opened Words
  import opened Operations
  import opened Machine
  import opened Simulation
  import opened Folding
  import opened FoldCorrectness
  import opened Conditions
  import opened Cuts
  import opened BranchRewriting

  // ----- shapes -----

  /** A `while` at `i` has its `do` and its `end` before `d`. */
  ghost predicate ClosedLoop(body: seq<Operation>, i: nat, d: nat)
    requires d <= |body|
  {
    && (exists k :: i < k < d && body[k].kind == Do && body[k].jump.To? && i < body[k].jump.target <= d)
    && (exists k :: i < k < d && body[k] == Operation(End, To(i)))
  }

  /**
   What an operation that does not jump may carry: nothing, or what earlier rewrites have made of it, far behind the
   body.
   */
  predicate Idle(j: Jump, n: nat) {
    j.To? ==> j.target > n + 3
  }

  /** `while … <value> do … end` from `w` on, the literal at `d`, the first operation behind it at `hi`. */
  ghost predicate LoopShape(body: seq<Operation>, w: nat, d: nat, hi: nat, value: Word) {
    && w < d && d + 3 <= hi <= |body| && |body| + 3 < EMPTY_JUMP
    && body[w].kind == While && IsLiteral(body[d], value)
    && body[d + 1] == Operation(Do, To(hi)) && body[hi - 1] == Operation(End, To(w))
    && Within(body, w + 1, d, w + 1, d) && Within(body, d + 2, hi - 1, d + 2, hi - 1) && Around(body, w, hi)
    && (forall i :: w <= i < d && !Jumps(body[i].kind) ==> Idle(body[i].jump, |body|))
    && (forall i :: w < i < d && body[i].kind == While ==> ClosedLoop(body, i, d))
  }

  // ----- which `while` is erased -----

  /** The last `while` up to `i`. */
  function LastWhile(body: seq<Operation>, w: nat, i: nat): (j: nat)
    requires w <= i < |body| && body[w].kind == While
    ensures w <= j <= i && body[j].kind == While
    ensures forall k :: j < k <= i ==> body[k].kind != While
  {
    if i == w || body[i].kind == While then i else LastWhile(body, w, i - 1)
  }

  lemma {:induction false} FindsLastWhile(body: seq<Operation>, body': seq<Operation>, w: nat, i: nat, branch: nat)
    requires w <= i < |body| && i < |body'| && body[w].kind == While
    requires forall k :: w <= k <= i ==> body'[k].kind == body[k].kind && body'[k].jump != To(branch)
    ensures FindWhile(body', i, branch) == Some(LastWhile(body, w, i))
    decreases i
  {
    if i != w && body[i].kind != While {
      FindsLastWhile(body, body', w, i - 1, branch);
    }
  }

  /** With nothing to jump in the condition, the loop's own `while`. */
  lemma OwnWhile(body: seq<Operation>, w: nat, d: nat, hi: nat, value: Word)
    requires LoopShape(body, w, d, hi, value)
    ensures NoControl(body, w + 1, d) ==> LastWhile(body, w, d - 1) == w
  {
    var j := LastWhile(body, w, d - 1);
    if j != w {
      assert ClosedLoop(body, j, d);
    }
  }

  // ----- the endless loop -----

  lemma InfiniteSteps(body: seq<Operation>, w: nat, d: nat, hi: nat, value: Word)
    requires LoopShape(body, w, d, hi, value)
    ensures var two := body[..d] + body[d + 2..hi];
      Erase(body, hi, |body|) == Some(body[..hi]) && Erase(body[..hi], d, d + 2) == Some(two)
  {
    assert body[..hi] + body[|body|..] == body[..hi];
    assert body[..hi][..d] == body[..d] && body[..hi][d + 2..] == body[d + 2..hi];
  }

  lemma InfiniteFinds(body: seq<Operation>, w: nat, d: nat, hi: nat, value: Word)
    requires LoopShape(body, w, d, hi, value)
    ensures FindWhile(ShiftOps(Shift(d + 2, Some(hi - 1), 3), body[..d] + body[d + 2..hi]), d - 1, d + 1)
         == Some(LastWhile(body, w, d - 1))
  {
    hide Around;
    hide ClosedLoop;
    FindsLastWhile(body, ShiftOps(Shift(d + 2, Some(hi - 1), 3), body[..d] + body[d + 2..hi]), w, d - 1, d + 1);
  }

  /** What is left of an endless loop: the `while`, the literal, the `do` and everything behind the loop are gone. */
  lemma InfiniteLoopResult(body: seq<Operation>, w: nat, d: nat, hi: nat, value: Word)
    requires LoopShape(body, w, d, hi, value)
    ensures var j := LastWhile(body, w, d - 1);
      RewriteInfiniteLoop(body, d + 1) == Some(Excised(body, Cut(j, j + 1, d, d + 2, hi),
          Shift(d + 2, Some(hi - 1), 3), NO_SHIFT))
  {
    hide Remap;
    hide Erase;
    hide Within;
    hide Around;
    hide ClosedLoop;
    hide FindWhile;
    var j, s := LastWhile(body, w, d - 1), Shift(d + 2, Some(hi - 1), 3);
    var two := body[..d] + body[d + 2..hi];
    InfiniteSteps(body, w, d, hi, value);
    InfiniteFinds(body, w, d, hi, value);
    FrontErased(body, two, s, d, j, d + 2, hi);
    NoShiftStays(ShiftOps(s, Kept(body, Cut(j, j + 1, d, d + 2, hi))));
  }

  /** Erasing the `while` after relabelling is erasing it before. */
  lemma FrontErased(body: seq<Operation>, two: seq<Operation>, s: Shift, d: nat, j: nat, y: nat, tail: nat)
    requires j < d <= y <= tail <= |body| && two == body[..d] + body[y..tail]
    ensures ShiftOps(s, two)[..j] + ShiftOps(s, two)[j + 1..] == ShiftOps(s, body[..j] + body[j + 1..d] + body[y..tail])
  {
    var r := ShiftOps(s, two);
    var k := body[..j] + body[j + 1..d] + body[y..tail];
    assert two[..j] + two[j + 1..] == k;
    assert r[..j] + r[j + 1..] == ShiftOps(s, two[..j] + two[j + 1..]);
  }

  /** Nothing before the loop jumps behind it. */
  ghost predicate NoneAcross(body: seq<Operation>, w: nat)
    requires w <= |body|
  {
    forall i :: 0 <= i < w && Jumps(body[i].kind) && body[i].jump.To? ==> body[i].jump.target <= w
  }

  lemma InfiniteJump(body: seq<Operation>, w: nat, d: nat, hi: nat, value: Word, j: nat, i: nat)
    requires LoopShape(body, w, d, hi, value) && w <= j < d
    requires i < |body| && Stays(Cut(j, j + 1, d, d + 2, hi), i) && Jumps(body[i].kind)
    ensures body[i].jump.To?
    ensures JumpKept(body, Cut(j, j + 1, d, d + 2, hi), Shift(d + 2, Some(hi - 1), 3), NO_SHIFT, i)
       <==> (i < w ==> body[i].jump.target <= w) && (w < i < d ==> body[i].jump.target <= j)
  {
    hide ClosedLoop;
  }

  /**
   The jumps that stay designate what they designated exactly when the rest of the condition has no control
   word and nothing before the loop jumps across it.
   */
  lemma InfiniteLoopKept(body: seq<Operation>, w: nat, d: nat, hi: nat, value: Word)
    requires LoopShape(body, w, d, hi, value)
    ensures var j := LastWhile(body, w, d - 1);
      (JumpsKept(body, Cut(j, j + 1, d, d + 2, hi), Shift(d + 2, Some(hi - 1), 3), NO_SHIFT)
       <==> NoControl(body, w + 1, d) && NoneAcross(body, w))
  {
    hide JumpKept;
    var j, s := LastWhile(body, w, d - 1), Shift(d + 2, Some(hi - 1), 3);
    var cut := Cut(j, j + 1, d, d + 2, hi);
    forall i | 0 <= i < |body| && Stays(cut, i) && Jumps(body[i].kind)
      ensures body[i].jump.To?
      ensures JumpKept(body, cut, s, NO_SHIFT, i) <==>
        (i < w ==> body[i].jump.target <= w) && (w < i < d ==> body[i].jump.target <= j)
    {
      InfiniteJump(body, w, d, hi, value, j, i);
    }
    if !NoControl(body, w + 1, d) {
      var i := InnerJump(body, w, d, hi, value);
      assert !JumpKept(body, cut, s, NO_SHIFT, i);
    }
    if !NoneAcross(body, w) {
      var i :| 0 <= i < w && Jumps(body[i].kind) && body[i].jump.To? && body[i].jump.target > w;
      assert !JumpKept(body, cut, s, NO_SHIFT, i);
    }
  }

  /** A control word of the condition that jumps behind the `while` that is erased. */
  lemma InnerJump(body: seq<Operation>, w: nat, d: nat, hi: nat, value: Word) returns (i: nat)
    requires LoopShape(body, w, d, hi, value) && !NoControl(body, w + 1, d)
    ensures var j := LastWhile(body, w, d - 1);
      w < i < d && i != j && Jumps(body[i].kind) && body[i].jump.To? && body[i].jump.target > j
  {
    var j := LastWhile(body, w, d - 1);
    if j == w {
      i :| w < i < d && Jumps(body[i].kind);
    } else {
      assert ClosedLoop(body, j, d);
      i :| j < i < d && body[i].kind == Do && body[i].jump.To? && j < body[i].jump.target <= d;
    }
  }

  /**
   Then the rewrite cannot be observed: the same worlds in a diverging run, the same exits by `return` or
   fault in a stopping one.
   */
  lemma InfiniteLoopEquivalent(env: Env, p: Program, f: FunctionRef, w: nat, d: nat, hi: nat, value: Word)
    requires f in p && LoopShape(p[f], w, d, hi, value) && value != 0
    requires NoControl(p[f], w + 1, d) && NoneAcross(p[f], w)
    ensures var r := RewriteInfiniteLoop(p[f], d + 1); r.Some? && Equivalent(env, p, p[f := r.value])
  {
    hide AlwaysGlides;
    hide Excised;
    hide JumpsKept;
    hide Equivalent;
    hide RewriteInfiniteLoop;
    hide LastWhile;
    hide ClosedLoop;
    InfiniteLoopResult(p[f], w, d, hi, value);
    InfiniteLoopKept(p[f], w, d, hi, value);
    OwnWhile(p[f], w, d, hi, value);
    WhileGlides(env, p, f, w);
    LiteralGlides(env, p, f, d, value, hi);
    CutUnobservable(env, p, f, Cut(w, w + 1, d, d + 2, hi), Shift(d + 2, Some(hi - 1), 3), NO_SHIFT, 1, 2);
  }

  // ----- the loop that never runs -----

  lemma DeadFinds(body: seq<Operation>, w: nat, d: nat, hi: nat, value: Word)
    requires LoopShape(body, w, d, hi, value)
    ensures FindWhile(ShiftOps(Shift(hi - 1, None, hi - d + 1), body[..d] + body[hi..]), d - 1, d + 1)
         == Some(LastWhile(body, w, d - 1))
  {
    hide Around;
    hide ClosedLoop;
    FindsLastWhile(body, ShiftOps(Shift(hi - 1, None, hi - d + 1), body[..d] + body[hi..]), w, d - 1, d + 1);
  }

  lemma DeadLoopResult(body: seq<Operation>, w: nat, d: nat, hi: nat, value: Word)
    requires LoopShape(body, w, d, hi, value)
    ensures var j := LastWhile(body, w, d - 1);
      RewriteDeadLoop(body, d + 1)
        == Some(Excised(body, Cut(j, j + 1, d, hi, |body|), Shift(hi - 1, None, hi - d + 1), Shift(j, Some(d + 1), 1)))
  {
    hide Remap;
    hide Within;
    hide Around;
    hide ClosedLoop;
    hide FindWhile;
    var j, s := LastWhile(body, w, d - 1), Shift(hi - 1, None, hi - d + 1);
    var two := body[..d] + body[hi..];
    assert Erase(body, d, hi) == Some(two);
    DeadFinds(body, w, d, hi, value);
    assert body[hi..] == body[hi..|body|];
    FrontErased(body, two, s, d, j, hi, |body|);
  }

  /** Nothing outside jumps to the loop, or to one of the three operations behind it. */
  ghost predicate NoneNear(body: seq<Operation>, w: nat, hi: nat)
    requires w <= hi <= |body|
  {
    forall i :: 0 <= i < |body| && (i < w || hi <= i) && Jumps(body[i].kind) && body[i].jump.To? ==>
      body[i].jump.target < w || body[i].jump.target > hi + 2
  }

  ghost predicate NoWhile(body: seq<Operation>, lo: nat, hi: nat)
    requires lo <= hi <= |body|
  {
    forall i :: lo <= i < hi ==> body[i].kind != While
  }

  lemma DeadJump(body: seq<Operation>, w: nat, d: nat, hi: nat, value: Word, j: nat, i: nat)
    requires LoopShape(body, w, d, hi, value) && w <= j < d
    requires i < |body| && Stays(Cut(j, j + 1, d, hi, |body|), i) && Jumps(body[i].kind)
    ensures body[i].jump.To?
    ensures JumpKept(body, Cut(j, j + 1, d, hi, |body|), Shift(hi - 1, None, hi - d + 1), Shift(j, Some(d + 1), 1), i)
       <==> body[i].jump.target != j && !(hi <= body[i].jump.target <= hi + 2)
  {
    hide ClosedLoop;
  }

  /** The last relabelling hits every jump to the loop or just behind it, and takes an inner `while` for the loop's. */
  lemma DeadLoopKept(body: seq<Operation>, w: nat, d: nat, hi: nat, value: Word)
    requires LoopShape(body, w, d, hi, value)
    ensures var j := LastWhile(body, w, d - 1);
      (JumpsKept(body, Cut(j, j + 1, d, hi, |body|), Shift(hi - 1, None, hi - d + 1), Shift(j, Some(d + 1), 1))
       <==> NoWhile(body, w + 1, d) && NoneNear(body, w, hi))
  {
    hide JumpKept;
    var j, s := LastWhile(body, w, d - 1), Shift(hi - 1, None, hi - d + 1);
    var cut, s' := Cut(j, j + 1, d, hi, |body|), Shift(j, Some(d + 1), 1);
    forall i | 0 <= i < |body| && Stays(cut, i) && Jumps(body[i].kind)
      ensures body[i].jump.To?
      ensures JumpKept(body, cut, s, s', i) <==> body[i].jump.target != j && !(hi <= body[i].jump.target <= hi + 2)
    {
      DeadJump(body, w, d, hi, value, j, i);
    }
    if !NoWhile(body, w + 1, d) {
      assert ClosedLoop(body, j, d);
      var k :| j < k < d && body[k] == Operation(End, To(j));
      assert !JumpKept(body, cut, s, s', k);
    } else if !NoneNear(body, w, hi) {
      var i :| 0 <= i < |body| && (i < w || hi <= i) && Jumps(body[i].kind) && body[i].jump.To?
               && w <= body[i].jump.target <= hi + 2;
      assert !JumpKept(body, cut, s, s', i);
    } else {
      assert JumpsKept(body, cut, s, s');
    }
  }

  lemma DeadLoopEquivalent(env: Env, p: Program, f: FunctionRef, w: nat, d: nat, hi: nat)
    requires f in p && LoopShape(p[f], w, d, hi, 0)
    requires NoWhile(p[f], w + 1, d) && NoneNear(p[f], w, hi)
    ensures var r := RewriteDeadLoop(p[f], d + 1); r.Some? && Equivalent(env, p, p[f := r.value])
  {
    hide AlwaysGlides;
    hide Excised;
    hide JumpsKept;
    hide Equivalent;
    hide RewriteDeadLoop;
    hide ClosedLoop;
    DeadLoopResult(p[f], w, d, hi, 0);
    DeadLoopKept(p[f], w, d, hi, 0);
    assert LastWhile(p[f], w, d - 1) == w;
    WhileGlides(env, p, f, w);
    LiteralGlides(env, p, f, d, 0, hi);
    CutUnobservable(env, p, f, Cut(w, w + 1, d, hi, |p[f]|), Shift(hi - 1, None, hi - d + 1),
        Shift(w, Some(d + 1), 1), 1, 2);
  }

  // ----- folding what is left -----

  /** What an endless loop leaves when its rewrite is right. */
  function Unlooped(body: seq<Operation>, w: nat, d: nat, hi: nat): seq<Operation>
    requires w < d && d + 3 <= hi <= |body|
  {
    Excised(body, Cut(w, w + 1, d, d + 2, hi), Shift(d + 2, Some(hi - 1), 3), NO_SHIFT)
  }

  /** Control operations land on or behind one, and a jump to the start of the loop's body lands on one. */
  ghost predicate WellAnchored(body: seq<Operation>, d: nat, hi: nat)
    requires d + 3 <= hi <= |body|
  {
    && Anchored(body, 0)
    && (forall i :: d + 2 <= i < hi - 1 && body[i].jump == To(d + 2) ==> !body[d + 2].kind.Plain?)
  }

  function Origin(w: nat, d: nat, k: nat): nat {
    if k < w then k else if k < d - 1 then k + 1 else k + 3
  }

  lemma UnloopedAt(body: seq<Operation>, w: nat, d: nat, hi: nat, k: nat)
    requires w < d && d + 3 <= hi <= |body| && k < hi - 3
    ensures var new_, i := Unlooped(body, w, d, hi), Origin(w, d, k);
      && |new_| == hi - 3 && i < hi && Stays(Cut(w, w + 1, d, d + 2, hi), i)
      && new_[k] == body[i].(jump := Relabel(NO_SHIFT, Relabel(Shift(d + 2, Some(hi - 1), 3), body[i].jump)))
  {
    ExcisedAt(body, Cut(w, w + 1, d, d + 2, hi), Shift(d + 2, Some(hi - 1), 3), NO_SHIFT, Origin(w, d, k));
  }

  /** Where a jump of what is left came from: one that landed at the same operation. */
  lemma UnloopedTarget(body: seq<Operation>, w: nat, d: nat, hi: nat, value: Word, k: nat) returns (i: nat)
    requires LoopShape(body, w, d, hi, value) && NoControl(body, w + 1, d) && NoneAcross(body, w)
    requires k < hi - 3 && |Unlooped(body, w, d, hi)| == hi - 3
    requires Jumps(Unlooped(body, w, d, hi)[k].kind) && Unlooped(body, w, d, hi)[k].jump.To?
    ensures i < hi && body[i].jump.To? && Lands(Cut(w, w + 1, d, d + 2, hi), |body|, body[i].jump.target)
    ensures (i < w || d + 2 <= i) && (body[i].jump.target == d + 2 ==> d + 2 <= i < hi - 1)
    ensures Unlooped(body, w, d, hi)[k].jump.target == Place(Cut(w, w + 1, d, d + 2, hi), |body|, body[i].jump.target)
  {
    hide Unlooped;
    hide ClosedLoop;
    hide Around;
    UnloopedAt(body, w, d, hi, k);
    i := Origin(w, d, k);
    assert body[i].jump.To? by {
      NoJumpStays(Shift(d + 2, Some(hi - 1), 3), body[i].jump);
    }
    InfiniteJump(body, w, d, hi, value, w, i);
  }

  /** The anchor of a target stays next to it, except at the place of the `while`. */
  lemma UnloopedApart(body: seq<Operation>, w: nat, d: nat, hi: nat, t: nat)
    requires w < d && d + 3 <= hi <= |body| && body[d].kind.Plain? && AnchoredAt(body, 0, t)
    requires Lands(Cut(w, w + 1, d, d + 2, hi), |body|, t) && (t == d + 2 ==> !body[t].kind.Plain?)
    requires |Unlooped(body, w, d, hi)| == hi - 3
    ensures var new_, t' := Unlooped(body, w, d, hi), Place(Cut(w, w + 1, d, d + 2, hi), |body|, t);
      t' == w || (t' <= |new_| && (t' == 0 || t' == |new_| || !new_[t'].kind.Plain? || !new_[t' - 1].kind.Plain?))
  {
    hide Unlooped;
    if t < w {
      UnloopedAt(body, w, d, hi, t);
      UnloopedAt(body, w, d, hi, if t > 0 then t - 1 else 0);
    } else if w + 1 < t < d {
      UnloopedAt(body, w, d, hi, t - 1);
      UnloopedAt(body, w, d, hi, t - 2);
    } else if w + 1 < t == d {
      UnloopedAt(body, w, d, hi, t - 2);
    } else if t == d + 2 {
      UnloopedAt(body, w, d, hi, t - 3);
    } else if d + 2 < t < hi {
      UnloopedAt(body, w, d, hi, t - 3);
      UnloopedAt(body, w, d, hi, t - 4);
    }
  }

  /** A jump of what is left, away from its start, lands outside runs. */
  lemma UnloopedLanding(body: seq<Operation>, w: nat, d: nat, hi: nat, value: Word, k: nat)
    requires LoopShape(body, w, d, hi, value) && NoControl(body, w + 1, d) && NoneAcross(body, w)
    requires WellAnchored(body, d, hi)
    requires k < hi - 3 && |Unlooped(body, w, d, hi)| == hi - 3
    requires Jumps(Unlooped(body, w, d, hi)[k].kind) && Unlooped(body, w, d, hi)[k].jump.To?
    ensures var t := Unlooped(body, w, d, hi)[k].jump.target; t == w || Landing(Unlooped(body, w, d, hi), t)
  {
    hide Unlooped;
    hide ClosedLoop;
    hide Foldable;
    hide Landing;
    hide Within;
    hide Around;
    hide NoControl;
    hide NoneAcross;
    hide Place;
    hide Lands;
    hide AnchoredAt;
    var i := UnloopedTarget(body, w, d, hi, value, k);
    assert AnchoredAt(body, 0, body[i].jump.target);
    UnloopedApart(body, w, d, hi, body[i].jump.target);
    var t := Unlooped(body, w, d, hi)[k].jump.target;
    if t != w {
      SurelyPlain();
      LandsApart(Unlooped(body, w, d, hi), t);
    }
  }

  lemma SurelyPlain()
    ensures forall op: Operation :: Foldable(op) ==> op.kind.Plain?
  {
  }

  lemma NoJumpStays(s: Shift, j: Jump)
    requires s.hi.Some? && Relabel(NO_SHIFT, Relabel(s, j)).To?
    ensures j.To?
  {
  }

  /** Literals before the loop, the `while` gone, take in its first operation. */
  predicate Joins(body: seq<Operation>, w: nat, next: nat)
    requires w <= next < |body|
  {
    exists a :: 0 <= a < w && JoinsFrom(body, a, w, next)
  }

  predicate JoinsFrom(body: seq<Operation>, a: nat, w: nat, next: nat)
    requires a <= w <= next < |body|
  {
    FoldRun(body[a..w] + [body[next]]).Folded?
  }

  lemma JoinedTaken(body: seq<Operation>, w: nat, d: nat, hi: nat, a: nat)
    requires a < w < d && d + 3 <= hi <= |body|
    ensures TakesIn(Unlooped(body, w, d, hi), a, w) <==> JoinsFrom(body, a, w, if d > w + 1 then w + 1 else d + 2)
  {
    hide Unlooped;
    hide FoldRun;
    var new_, next := Unlooped(body, w, d, hi), if d > w + 1 then w + 1 else d + 2;
    UnloopedAt(body, w, d, hi, w);
    forall k | a <= k < w
      ensures new_[k].kind == body[k].kind
    {
      UnloopedAt(body, w, d, hi, k);
    }
    SameKindsFold(new_[a..w + 1], body[a..w] + [body[next]]);
  }

  /**
   Jumps of what is left keep out of foldable runs exactly when no run that ends before the `while` takes in the
   operation that follows it then, which can be seen before the rewrite.
   */
  lemma UnloopedGuarded(body: seq<Operation>, w: nat, d: nat, hi: nat, value: Word)
    requires LoopShape(body, w, d, hi, value) && NoControl(body, w + 1, d) && NoneAcross(body, w)
    requires WellAnchored(body, d, hi)
    ensures Guarded(Unlooped(body, w, d, hi)) <==> !Joins(body, w, if d > w + 1 then w + 1 else d + 2)
  {
    hide Unlooped;
    hide ClosedLoop;
    hide TakesIn;
    hide JoinsFrom;
    hide WellAnchored;
    hide NoControl;
    hide NoneAcross;
    hide Within;
    hide Around;
    var new_, next := Unlooped(body, w, d, hi), if d > w + 1 then w + 1 else d + 2;
    UnloopedAt(body, w, d, hi, hi - 4);
    assert new_[hi - 4].jump == To(w) && Jumps(new_[hi - 4].kind);
    forall a | 0 <= a < w
      ensures TakesIn(new_, a, w) <==> JoinsFrom(body, a, w, next)
    {
      JoinedTaken(body, w, d, hi, a);
    }
    assert Landing(new_, w) <==> !Joins(body, w, next);
    forall k | 0 <= k < |new_| && Jumps(new_[k].kind) && new_[k].jump.To?
      ensures new_[k].jump.target == w || Landing(new_, new_[k].jump.target)
    {
      UnloopedLanding(body, w, d, hi, value, k);
    }
  }
}
