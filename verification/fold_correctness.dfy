/** Constant folding keeps every observation, keeps its own landing invariant, and always makes progress. */
module FoldCorrectness {
  import opened Wrappers
  import opened Words
  import opened FoldArithmetic
  import opened Operations
  import opened Machine
  import opened Simulation
  import opened Structured
  import opened Folding

  // ----- runs -----

  /** Folding a whole sequence from the empty compile-time stack. */
  function FoldRun(ops: seq<Operation>): Fold {
    if ops == [] then Folded([])
    else
      var r := FoldRun(ops[..|ops|-1]);
      if r.Folded? then FoldOperation(r.stack, ops[|ops|-1]) else r
  }

  lemma FoldRunSnoc(ops: seq<Operation>, op: Operation)
    ensures FoldRun(ops + [op]) == if FoldRun(ops).Folded? then FoldOperation(FoldRun(ops).stack, op) else FoldRun(ops)
  {
    assert (ops + [op])[..|ops|] == ops;
  }

  ghost predicate IsRun(body: seq<Operation>, a: nat, b: nat, st: seq<SignedWord>) {
    && a < b <= |body|
    && IsPushInt(body[a])
    && FoldRun(body[a..b]) == Folded(st)
    && forall k :: a <= k < b ==> Foldable(body[k])
  }

  lemma ExtendRun(body: seq<Operation>, a: nat, i: nat, st: seq<SignedWord>)
    requires a <= i < |body| && FoldOperation(st, body[i]).Folded?
    requires if a == i then st == [] && IsPushInt(body[i]) else IsRun(body, a, i, st)
    ensures IsRun(body, a, i + 1, FoldOperation(st, body[i]).stack)
  {
    assert body[a..i+1] == body[a..i] + [body[i]];
    FoldRunSnoc(body[a..i], body[i]);
    FoldedIsFoldable(st, body[i]);
  }

  /** What the scan finds is a run that folding changes. */
  lemma {:induction false} ScanFindsRun(body: seq<Operation>, i: nat, start: Option<nat>, st: seq<SignedWord>)
    requires i <= |body|
    requires start.Some? ==> IsRun(body, start.value, i, st)
    requires start.None? ==> st == []
    ensures var r := ScanFrom(body, i, start, st);
      r.Found? ==> IsRun(body, r.start, r.end, r.stack) && !AlreadyFolded(body, r.start, r.end, r.stack)
    decreases |body| - i
  {
    hide FoldRun;
    hide FoldOperation;
    if i < |body| {
      if start.None? && !IsPushInt(body[i]) {
        ScanFindsRun(body, i + 1, None, []);
      } else {
        var a := if start.Some? then start.value else i;
        match FoldOperation(st, body[i])
        case Folded(st') =>
          ExtendRun(body, a, i, st);
          ScanFindsRun(body, i + 1, Some(a), st');
        case Undefined =>
        case Blocked =>
          if AlreadyFolded(body, a, i, st) {
            ScanFindsRun(body, i + 1, None, []);
          }
      }
    }
  }

  // ----- folding over a stack -----

  /** Folding a sequence from a compile-time stack that is not empty. */
  function FoldOver(st: seq<SignedWord>, ops: seq<Operation>): Fold {
    if ops == [] then Folded(st)
    else
      var r := FoldOver(st, ops[..|ops|-1]);
      if r.Folded? then FoldOperation(r.stack, ops[|ops|-1]) else r
  }

  lemma {:induction false} RunIsOver(ops: seq<Operation>)
    ensures FoldRun(ops) == FoldOver([], ops)
    decreases |ops|
  {
    if ops != [] {
      RunIsOver(ops[..|ops|-1]);
    }
  }

  lemma {:induction false} OverConcat(st: seq<SignedWord>, a: seq<Operation>, b: seq<Operation>)
    ensures FoldOver(st, a + b) == if FoldOver(st, a).Folded? then FoldOver(FoldOver(st, a).stack, b)
        else FoldOver(st, a)
    decreases |b|
  {
    hide FoldOperation;
    if b == [] {
      assert a + b == a;
    } else {
      var n := |b| - 1;
      assert (a + b)[..|a + b| - 1] == a + b[..n];
      OverConcat(st, a, b[..n]);
    }
  }

  /** What lies below the operands does not matter. */
  lemma OperationFramed(base: seq<SignedWord>, st: seq<SignedWord>, op: Operation)
    requires FoldOperation(st, op).Folded?
    ensures FoldOperation(base + st, op) == Folded(base + FoldOperation(st, op).stack)
  {
    hide FoldBinary;
    var all := base + st;
    match op.kind.plain
    case PushInt(v, _) => assert all + [ToSigned(v)] == base + (st + [ToSigned(v)]);
    case Intrinsic(Binary(o)) =>
      var v := FoldBinary(o, st[|st|-2], st[|st|-1]).value;
      assert all[..|all|-2] + [v] == base + (st[..|st|-2] + [v]);
    case Intrinsic(Shuffle(s)) =>
      FoldShuffleIsShuffle(s, st);
      FoldShuffleIsShuffle(s, all);
      ShuffleFramed(s, base, st);
  }

  lemma {:induction false} OverFramed(base: seq<SignedWord>, st: seq<SignedWord>, ops: seq<Operation>)
    requires FoldOver(st, ops).Folded?
    ensures FoldOver(base + st, ops) == Folded(base + FoldOver(st, ops).stack)
    decreases |ops|
  {
    hide FoldOperation;
    if ops != [] {
      var n := |ops| - 1;
      OverFramed(base, st, ops[..n]);
      OperationFramed(base, FoldOver(st, ops[..n]).stack, ops[n]);
    }
  }

  lemma {:induction false} SameKindsFold(a: seq<Operation>, b: seq<Operation>)
    requires |a| == |b| && forall k :: 0 <= k < |a| ==> a[k].kind == b[k].kind
    ensures FoldRun(a) == FoldRun(b)
    decreases |a|
  {
    if a != [] {
      SameKindsFold(a[..|a|-1], b[..|b|-1]);
    }
  }

  /** Inside a longer sequence a run may be replaced by the pushes of what it folds to. */
  lemma RunReplaced(x: seq<Operation>, run: seq<Operation>, st: seq<SignedWord>, y: seq<Operation>)
    requires FoldRun(run) == Folded(st)
    ensures FoldRun(x + run + y) == FoldRun(x + Pushes(st) + y)
  {
    hide FoldRun;
    hide FoldOver;
    RunIsOver(run);
    RunIsOver(x + run + y);
    RunIsOver(x + Pushes(st) + y);
    OverConcat([], x + run, y);
    OverConcat([], x, run);
    OverConcat([], x + Pushes(st), y);
    OverConcat([], x, Pushes(st));
    if FoldOver([], x).Folded? {
      var base := FoldOver([], x).stack;
      assert base + [] == base;
      OverFramed(base, [], run);
      PushesRun(st);
      OverFramed(base, [], Pushes(st));
    }
  }

  lemma PushesRun(st: seq<SignedWord>)
    ensures FoldRun(Pushes(st)) == Folded(st) && FoldOver([], Pushes(st)) == Folded(st)
  {
    PushesFold(st, |st|);
    assert Pushes(st)[..|st|] == Pushes(st) && st[..|st|] == st;
    RunIsOver(Pushes(st));
  }

  /** More literals in front never hurt. */
  lemma SuffixFolds(x: seq<Operation>, y: seq<Operation>)
    requires FoldRun(x).Folded? && FoldRun(y).Folded?
    ensures FoldRun(x + y) == Folded(FoldRun(x).stack + FoldRun(y).stack)
  {
    hide FoldRun;
    hide FoldOver;
    RunIsOver(x);
    RunIsOver(y);
    RunIsOver(x + y);
    OverConcat([], x, y);
    var base := FoldRun(x).stack;
    assert base + [] == base;
    OverFramed(base, [], y);
  }

  // ----- slices of a spliced body -----

  /** The spliced body, but for its jumps. */
  lemma SpliceKinds(body: seq<Operation>, a: nat, b: nat, st: seq<SignedWord>)
    requires a < b <= |body|
    ensures var r, plain := Splice(body, a, b, st), body[..a] + Pushes(st) + body[b..];
      |r| == |plain| && forall k :: 0 <= k < |r| ==> r[k].kind == plain[k].kind
  {
  }

  lemma SliceKinds(r: seq<Operation>, plain: seq<Operation>, lo: nat, hi: nat)
    requires |r| == |plain| && lo <= hi <= |r| && forall k :: 0 <= k < |r| ==> r[k].kind == plain[k].kind
    ensures FoldRun(r[lo..hi]) == FoldRun(plain[lo..hi])
  {
    SameKindsFold(r[lo..hi], plain[lo..hi]);
  }

  /** Before the run nothing changes. */
  lemma SliceBefore(body: seq<Operation>, a: nat, b: nat, st: seq<SignedWord>, lo: nat, hi: nat)
    requires IsRun(body, a, b, st) && lo <= hi <= a
    ensures hi <= |Splice(body, a, b, st)| && FoldRun(Splice(body, a, b, st)[lo..hi]) == FoldRun(body[lo..hi])
  {
    hide FoldRun;
    hide Splice;
    SpliceKinds(body, a, b, st);
    var plain := body[..a] + Pushes(st) + body[b..];
    SliceKinds(Splice(body, a, b, st), plain, lo, hi);
    assert plain[lo..hi] == body[lo..hi];
  }

  lemma SliceThree(body: seq<Operation>, a: nat, b: nat, mid: seq<Operation>, lo: nat, hi: nat)
    requires lo <= a < b <= hi <= |body|
    ensures (body[..a] + mid + body[b..])[lo..a + |mid| + hi - b] == body[lo..a] + mid + body[b..hi]
  {
    assert body[b..hi] == body[b..][..hi - b];
  }

  /** A slice over the whole run folds to the same. */
  lemma SliceAcross(body: seq<Operation>, a: nat, b: nat, st: seq<SignedWord>, lo: nat, hi: nat)
    requires IsRun(body, a, b, st) && lo <= a && b <= hi <= |body|
    ensures Moved(a, b, st, hi) <= |Splice(body, a, b, st)|
    ensures FoldRun(Splice(body, a, b, st)[lo..Moved(a, b, st, hi)]) == FoldRun(body[lo..hi])
  {
    hide FoldRun;
    hide Splice;
    SpliceKinds(body, a, b, st);
    var plain, hi' := body[..a] + Pushes(st) + body[b..], Moved(a, b, st, hi);
    SliceKinds(Splice(body, a, b, st), plain, lo, hi');
    SliceThree(body, a, b, Pushes(st), lo, hi);
    assert body[lo..hi] == body[lo..a] + body[a..b] + body[b..hi];
    RunReplaced(body[lo..a], body[a..b], st, body[b..hi]);
  }

  /** A slice that starts behind the run is the old one. */
  lemma SliceBehind(body: seq<Operation>, a: nat, b: nat, st: seq<SignedWord>, lo: nat, hi: nat)
    requires IsRun(body, a, b, st) && b <= lo <= hi <= |body|
    ensures Moved(a, b, st, lo) <= Moved(a, b, st, hi) <= |Splice(body, a, b, st)|
    ensures FoldRun(Splice(body, a, b, st)[Moved(a, b, st, lo)..Moved(a, b, st, hi)]) == FoldRun(body[lo..hi])
  {
    hide FoldRun;
    hide Splice;
    SpliceKinds(body, a, b, st);
    var plain, lo', hi' := body[..a] + Pushes(st) + body[b..], Moved(a, b, st, lo), Moved(a, b, st, hi);
    SliceKinds(Splice(body, a, b, st), plain, lo', hi');
    assert plain[lo'..hi'] == body[lo..hi];
  }

  /** One that starts among the new literals folds only if the one from the start of the run did, to no more. */
  lemma SliceAmong(body: seq<Operation>, a: nat, b: nat, st: seq<SignedWord>, j: nat, hi: nat)
    requires IsRun(body, a, b, st) && j <= |st| && b <= hi <= |body|
    requires a + j <= Moved(a, b, st, hi) <= |Splice(body, a, b, st)|
    ensures var new_, old_ := FoldRun(Splice(body, a, b, st)[a + j..Moved(a, b, st, hi)]), FoldRun(body[a..hi]);
      new_.Folded? ==> old_.Folded? && |old_.stack| >= |new_.stack|
  {
    hide FoldRun;
    hide Splice;
    SpliceKinds(body, a, b, st);
    var plain, hi' := body[..a] + Pushes(st) + body[b..], Moved(a, b, st, hi);
    SliceKinds(Splice(body, a, b, st), plain, a + j, hi');
    SliceAcross(body, a, b, st, a, hi);
    SliceKinds(Splice(body, a, b, st), plain, a, hi');
    assert plain[a..hi'] == Pushes(st[..j]) + plain[a + j..hi'];
    if FoldRun(plain[a + j..hi']).Folded? {
      PushesRun(st[..j]);
      SuffixFolds(Pushes(st[..j]), plain[a + j..hi']);
    }
  }

  // ----- where jumps land -----

  /** No run that starts before `t` takes in the operation at `t`. */
  predicate Landing(body: seq<Operation>, t: nat) {
    t <= |body| && forall a :: 0 <= a < t ==> !TakesIn(body, a, t)
  }

  /** The operations from `a` up to and with `t` fold. */
  predicate TakesIn(body: seq<Operation>, a: nat, t: nat) {
    a <= t < |body| && FoldRun(body[a..t + 1]).Folded?
  }

  /** No jump lands strictly inside a foldable run. */
  ghost predicate Guarded(body: seq<Operation>) {
    forall k :: 0 <= k < |body| && Jumps(body[k].kind) && body[k].jump.To? ==> Landing(body, body[k].jump.target)
  }

  lemma {:induction false} PrefixFolds(ops: seq<Operation>, n: nat)
    requires FoldRun(ops).Folded? && n <= |ops|
    ensures FoldRun(ops[..n]).Folded?
    decreases |ops|
  {
    if n == |ops| {
      assert ops[..n] == ops;
    } else {
      PrefixFolds(ops[..|ops|-1], n);
      assert ops[..|ops|-1][..n] == ops[..n];
    }
  }

  lemma LastFoldable(ops: seq<Operation>)
    requires ops != [] && FoldRun(ops).Folded?
    ensures Foldable(ops[|ops|-1])
  {
    FoldedIsFoldable(FoldRun(ops[..|ops|-1]).stack, ops[|ops|-1]);
  }

  /** Behind or on an operation that is never folded every jump may land. */
  lemma LandsApart(body: seq<Operation>, t: nat)
    requires t <= |body| && (t == 0 || t == |body| || !Foldable(body[t]) || !Foldable(body[t-1]))
    ensures Landing(body, t)
  {
    hide FoldRun;
    hide Foldable;
    forall a | 0 <= a < t
      ensures !TakesIn(body, a, t)
    {
      if TakesIn(body, a, t) {
        var ops := body[a..t + 1];
        LastFoldable(ops);
        PrefixFolds(ops, |ops| - 1);
        LastFoldable(ops[..|ops|-1]);
      }
    }
  }

  lemma RunTakesIn(body: seq<Operation>, a: nat, b: nat, st: seq<SignedWord>, t: nat)
    requires IsRun(body, a, b, st) && a < t < b
    ensures TakesIn(body, a, t)
  {
    PrefixFolds(body[a..b], t + 1 - a);
    assert body[a..b][..t + 1 - a] == body[a..t + 1];
  }

  lemma LandingOutside(body: seq<Operation>, a: nat, b: nat, st: seq<SignedWord>, t: nat)
    requires IsRun(body, a, b, st) && Landing(body, t)
    ensures t <= a || b <= t
  {
    hide FoldRun;
    if a < t < b {
      RunTakesIn(body, a, b, st, t);
    }
  }

  function Moved(a: nat, b: nat, st: seq<SignedWord>, t: nat): nat
    requires a < b && (t <= a || b <= t)
  {
    if t <= a then t else t + |st| - (b - a)
  }

  /** The spliced body, operation by operation. */
  lemma SpliceAt(body: seq<Operation>, a: nat, b: nat, st: seq<SignedWord>, k: nat)
    requires a < b <= |body| && k < |body| && (k < a || b <= k)
    ensures var r := Splice(body, a, b, st);
      && |r| == |body| + |st| - (b - a)
      && r[Moved(a, b, st, k)] == body[k].(jump := ShiftJump(body[k].jump, a, |st| - (b - a)))
  {
  }

  lemma SplicePush(body: seq<Operation>, a: nat, b: nat, st: seq<SignedWord>, k: nat)
    requires a < b <= |body| && k < |st|
    ensures |Splice(body, a, b, st)| == |body| + |st| - (b - a)
    ensures Splice(body, a, b, st)[a + k] == Operation(Plain(PushInt(ToWord(st[k]), Int)), NoJump)
  {
  }

  /** After the splice every jump designates the operation it designated before, or the start of the run. */
  lemma SpliceTargets(body: seq<Operation>, a: nat, b: nat, st: seq<SignedWord>, k: nat)
    requires Guarded(body) && IsRun(body, a, b, st) && k < |body| && (k < a || b <= k)
    requires Jumps(body[k].kind) && body[k].jump.To?
    ensures var r := Splice(body, a, b, st);
      var t := body[k].jump.target;
      && (t <= a || b <= t)
      && Moved(a, b, st, k) < |r| && r[Moved(a, b, st, k)] == Operation(body[k].kind, To(Moved(a, b, st, t)))
      && (t < |body| && t != a ==> Moved(a, b, st, t) < |r| && r[Moved(a, b, st, t)].kind == body[t].kind)
      && (t == |body| ==> Moved(a, b, st, t) == |r|)
  {
    var t := body[k].jump.target;
    LandingOutside(body, a, b, st, t);
    SpliceAt(body, a, b, st, k);
    if t < |body| && t != a {
      SpliceAt(body, a, b, st, t);
    }
  }

  lemma LandingMoves(body: seq<Operation>, a: nat, b: nat, st: seq<SignedWord>, t: nat)
    requires IsRun(body, a, b, st) && Landing(body, t)
    ensures (t <= a || b <= t) && Landing(Splice(body, a, b, st), Moved(a, b, st, t))
  {
    hide FoldRun;
    hide Splice;
    LandingOutside(body, a, b, st, t);
    NewPushes(body, a, b, st);
    var r, t' := Splice(body, a, b, st), Moved(a, b, st, t);
    forall x | 0 <= x < t'
      ensures !TakesIn(r, x, t')
    {
      if t' < |r| {
        LandingKept(body, a, b, st, t, x);
      }
    }
  }

  lemma LandingKept(body: seq<Operation>, a: nat, b: nat, st: seq<SignedWord>, t: nat, x: nat)
    requires IsRun(body, a, b, st) && Landing(body, t) && (t <= a || b <= t) && x < Moved(a, b, st, t)
    requires Moved(a, b, st, t) < |Splice(body, a, b, st)|
    ensures !TakesIn(Splice(body, a, b, st), x, Moved(a, b, st, t))
  {
    hide FoldRun;
    hide Splice;
    NewPushes(body, a, b, st);
    var delta := |st| - (b - a);
    if t < a {
      SliceBefore(body, a, b, st, x, t + 1);
      assert !TakesIn(body, x, t);
    } else if t == a {
      assert !TakesIn(body, x, a);
      PushTaken(body, x, a);
      SliceBefore(body, a, b, st, x, a);
      NotTaken(Splice(body, a, b, st), x, a);
    } else if x <= a {
      SliceAcross(body, a, b, st, x, t + 1);
      assert !TakesIn(body, x, t);
    } else if x < a + |st| {
      SliceAmong(body, a, b, st, x - a, t + 1);
      assert !TakesIn(body, a, t);
    } else {
      SliceBehind(body, a, b, st, x - delta, t + 1);
      assert !TakesIn(body, x - delta, t);
    }
  }

  lemma NotTaken(r: seq<Operation>, x: nat, t: nat)
    requires x <= t < |r| && !FoldRun(r[x..t]).Folded?
    ensures !TakesIn(r, x, t)
  {
    assert r[x..t + 1] == r[x..t] + [r[t]];
    FoldRunSnoc(r[x..t], r[t]);
  }

  /** A literal is always taken in. */
  lemma PushTaken(body: seq<Operation>, x: nat, a: nat)
    requires x <= a < |body| && IsPushInt(body[a]) && !TakesIn(body, x, a)
    ensures !FoldRun(body[x..a]).Folded?
  {
    assert body[x..a + 1] == body[x..a] + [body[a]];
    FoldRunSnoc(body[x..a], body[a]);
  }

  /** Folding keeps the landing invariant. */
  lemma SpliceGuarded(body: seq<Operation>, a: nat, b: nat, st: seq<SignedWord>)
    requires Guarded(body) && IsRun(body, a, b, st)
    ensures Guarded(Splice(body, a, b, st))
  {
    hide Splice;
    hide Landing;
    hide FoldRun;
    NewPushes(body, a, b, st);
    var r := Splice(body, a, b, st);
    var delta := |st| - (b - a);
    forall j | 0 <= j < |r| && Jumps(r[j].kind) && r[j].jump.To?
      ensures Landing(r, r[j].jump.target)
    {
      if a <= j < a + |st| {
        SplicePush(body, a, b, st, j - a);
      } else {
        var k := if j < a then j else j - delta;
        SpliceAt(body, a, b, st, k);
        var t := body[k].jump.target;
        LandingMoves(body, a, b, st, t);
      }
    }
  }

  lemma FoldGuarded(body: seq<Operation>)
    requires Guarded(body) && FoldBody(body).Changed?
    ensures Guarded(FoldBody(body).body)
  {
    ScanFindsRun(body, 0, None, []);
    var r := ScanFrom(body, 0, None, []);
    SpliceGuarded(body, r.start, r.end, r.stack);
  }

  /** Any number of folding rounds. */
  function FoldRounds(body: seq<Operation>, n: nat): seq<Operation>
    decreases n
  {
    if n == 0 || !FoldBody(body).Changed? then body else FoldRounds(FoldBody(body).body, n - 1)
  }

  lemma {:induction false} RoundsGuarded(body: seq<Operation>, n: nat)
    requires Guarded(body)
    ensures Guarded(FoldRounds(body, n))
    decreases n
  {
    if n > 0 && FoldBody(body).Changed? {
      FoldGuarded(body);
      RoundsGuarded(FoldBody(body).body, n - 1);
    }
  }

  // ----- linked code is guarded -----

  /** Every jump of code placed at `at` lands on, or right behind, one of its own control operations. */
  ghost predicate Anchored(code: seq<Operation>, at: nat) {
    forall k :: 0 <= k < |code| && code[k].jump.To? ==> AnchoredAt(code, at, code[k].jump.target)
  }

  predicate AnchoredAt(code: seq<Operation>, at: nat, t: nat) {
    || (at <= t < at + |code| && !code[t - at].kind.Plain?)
    || (at < t <= at + |code| && !code[t - at - 1].kind.Plain?)
  }

  /** An anchor inside a part is an anchor of the whole. */
  lemma AnchoredPart(whole: seq<Operation>, at: nat, part: seq<Operation>, off: nat)
    requires off + |part| <= |whole| && whole[off..off + |part|] == part && Anchored(part, at + off)
    ensures forall k :: off <= k < off + |part| && whole[k].jump.To? ==> AnchoredAt(whole, at, whole[k].jump.target)
  {
    forall k | off <= k < off + |part| && whole[k].jump.To?
      ensures AnchoredAt(whole, at, whole[k].jump.target)
    {
      assert whole[k] == part[k - off];
      var t := whole[k].jump.target;
      assert AnchoredAt(part, at + off, t);
      if at + off <= t < at + off + |part| && !part[t - at - off].kind.Plain? {
        assert whole[t - at] == part[t - at - off];
      } else {
        assert whole[t - at - 1] == part[t - at - off - 1];
      }
    }
  }

  lemma AnchoredConcat(a: seq<Operation>, b: seq<Operation>, at: nat)
    requires Anchored(a, at) && Anchored(b, at + |a|)
    ensures Anchored(a + b, at)
  {
    AnchoredPart(a + b, at, a, 0);
    AnchoredPart(a + b, at, b, |a|);
  }

  lemma OneBranchAnchored(x: Operation, a: seq<Operation>, z: Operation, at: nat)
    requires Anchored(a, at + 1) && !x.kind.Plain? && !z.kind.Plain?
    requires x.jump == To(at + 1 + |a|) && z.jump == To(at + 2 + |a|)
    ensures Anchored([x] + a + [z], at)
  {
    var c := [x] + a + [z];
    assert c[|a| + 1] == z && c[0] == x;
    AnchoredPart(c, at, a, 1);
  }

  lemma {:induction false} LinkAnchored(b: Block, at: nat)
    ensures Anchored(Link(b, at), at)
    decreases b
  {
    match b
    case Nil =>
    case Seq(s, rest) =>
      hide LinkStmt;
      LinkStmtAnchored(s, at);
      LinkAnchored(rest, at + StmtSize(s));
      AnchoredConcat(LinkStmt(s, at), Link(rest, at + StmtSize(s)), at);
  }

  lemma {:induction false} LinkStmtAnchored(s: Stmt, at: nat)
    ensures Anchored(LinkStmt(s, at), at)
    decreases s, 1
  {
    match s
    case Simple(_) =>
    case IfThen(_) => IfThenAnchored(s, at);
    case IfElse(_, _) => IfElseAnchored(s, at);
    case Loop(_, _) => LoopAnchored(s, at);
  }

  lemma {:induction false} IfThenAnchored(s: Stmt, at: nat)
    requires s.IfThen?
    ensures Anchored(LinkStmt(s, at), at)
    decreases s, 0
  {
    hide Link;
    hide Anchored;
    LinkAnchored(s.thn, at + 1);
    var end := at + 1 + Size(s.thn);
    OneBranchAnchored(Operation(If, To(end)), Link(s.thn, at + 1), Operation(End, To(end + 1)), at);
  }

  lemma {:induction false} IfElseAnchored(s: Stmt, at: nat)
    requires s.IfElse?
    ensures Anchored(LinkStmt(s, at), at)
    decreases s, 0
  {
    hide Link;
    hide Anchored;
    var els := at + 1 + Size(s.thn);
    var end := els + 1 + Size(s.els);
    LinkAnchored(s.thn, at + 1);
    LinkAnchored(s.els, els + 1);
    TwoBranchesAnchored(Operation(If, To(els + 1)), Link(s.thn, at + 1), Operation(Else, To(end)), Link(s.els, els + 1),
                        Operation(End, To(end + 1)), at);
  }

  lemma {:induction false} LoopAnchored(s: Stmt, at: nat)
    requires s.Loop?
    ensures Anchored(LinkStmt(s, at), at)
    decreases s, 0
  {
    hide Link;
    hide Anchored;
    var do := at + 1 + Size(s.cond);
    var end := do + 1 + Size(s.body);
    LinkAnchored(s.cond, at + 1);
    LinkAnchored(s.body, do + 1);
    TwoBranchesAnchored(Operation(While, NoJump), Link(s.cond, at + 1), Operation(Do, To(end + 1)),
        Link(s.body, do + 1),
                        Operation(End, To(at)), at);
  }

  lemma TwoBranchesAnchored(x: Operation, a: seq<Operation>, y: Operation, b: seq<Operation>, z: Operation, at: nat)
    requires Anchored(a, at + 1) && Anchored(b, at + 2 + |a|)
    requires !x.kind.Plain? && !y.kind.Plain? && !z.kind.Plain?
    requires var mid, end := at + 1 + |a|, at + 2 + |a| + |b|;
      && x.jump in {NoJump, To(mid + 1)} && y.jump in {To(end), To(end + 1)} && z.jump in {To(at), To(end + 1)}
    ensures Anchored([x] + a + [y] + b + [z], at)
  {
    var c := [x] + a + [y] + b + [z];
    assert c[0] == x && c[1 + |a|] == y && c[2 + |a| + |b|] == z;
    AnchoredPart(c, at, a, 1);
    AnchoredPart(c, at, b, 2 + |a|);
  }

  /** `crossreference` leaves every body guarded. */
  lemma LinkGuarded(b: Block)
    ensures Guarded(Link(b, 0))
  {
    LinkAnchored(b, 0);
    var body := Link(b, 0);
    forall k | 0 <= k < |body| && body[k].jump.To?
      ensures Landing(body, body[k].jump.target)
    {
      assert AnchoredAt(body, 0, body[k].jump.target);
      LandsApart(body, body[k].jump.target);
    }
  }

  // ----- meaning -----

  /** The folder's result for this operation is the machine's. */
  predicate StepFaithful(st: seq<SignedWord>, op: Operation) {
    match op.kind
    case Plain(Intrinsic(Binary(o))) => |st| >= 2 ==> FoldAgrees(o, ToWord(st[|st|-2]), ToWord(st[|st|-1]))
    case _ => true
  }

  /** Every operation of a run folds faithfully. */
  predicate Faithful(ops: seq<Operation>)
    requires FoldRun(ops).Folded?
  {
    ops == [] || (Faithful(ops[..|ops|-1]) && StepFaithful(FoldRun(ops[..|ops|-1]).stack, ops[|ops|-1]))
  }

  lemma FoldedBinary(env: Env, base: seq<Word>, st: seq<SignedWord>, o: BinaryOp, world: World)
    requires Folds(o) && |st| >= 2 && FoldBinary(o, st[|st|-2], st[|st|-1]).Some?
    requires FoldAgrees(o, ToWord(st[|st|-2]), ToWord(st[|st|-1]))
    ensures var v := FoldBinary(o, st[|st|-2], st[|st|-1]).value;
      ApplyIntrinsic(env, Binary(o), base + WordStack(st), world)
          == Continue(base + WordStack(st[..|st|-2] + [v]), world)
  {
    hide FoldBinary;
    hide MachineBinary;
    hide FoldAgrees;
    var b, a := st[|st|-2], st[|st|-1];
    var v := FoldBinary(o, b, a).value;
    assert ToSigned(ToWord(b)) == b && ToSigned(ToWord(a)) == a;
    FoldExact(o, ToWord(b), ToWord(a));
    var whole := base + WordStack(st);
    assert whole[|whole|-2] == ToWord(b) && whole[|whole|-1] == ToWord(a);
    assert whole[..|whole|-2] + [ToWord(v)] == base + WordStack(st[..|st|-2] + [v]);
  }

  lemma FoldedStep(env: Env, base: seq<Word>, st: seq<SignedWord>, op: Operation, world: World)
    requires FoldOperation(st, op).Folded? && StepFaithful(st, op)
    ensures op.kind.Plain? && IsLocal(op.kind.plain)
    ensures ApplyPlain(env, op.kind.plain, base + WordStack(st), world)
         == Continue(base + WordStack(FoldOperation(st, op).stack), world)
  {
    hide FoldBinary;
    match op.kind.plain
    case PushInt(v, _) =>
      ToWordToSigned(v);
      assert base + WordStack(st) + [v] == base + WordStack(st + [ToSigned(v)]);
    case Intrinsic(Binary(o)) =>
      FoldedBinary(env, base, st, o, world);
    case Intrinsic(Shuffle(s)) =>
      FoldShuffleIsShuffle(s, st);
      ShuffleNatural(ToWord, s, st);
      ShuffleFramed(s, base, WordStack(st));
  }

  ghost predicate Placed(p: Program, f: FunctionRef, a: nat, ops: seq<Operation>) {
    f in p && a + |ops| <= |p[f]| && p[f][a..a + |ops|] == ops
  }

  /** The machine, run over operations the folder can evaluate, pushes what the folder computed. */
  lemma {:induction false} RunGlides(env: Env, p: Program, f: FunctionRef, a: nat, ops: seq<Operation>,
                                     callers: seq<Frame>, st: seq<Word>, world: World)
    requires Placed(p, f, a, ops)
    requires FoldRun(ops).Folded? && Faithful(ops)
    ensures Glides(env, p, f, a, a + |ops|, |ops|, WordStack(FoldRun(ops).stack), callers, st, world)
    decreases |ops|
  {
    hide Glides;
    hide Run;
    hide FoldOperation;
    hide StepFaithful;
    if ops == [] {
      GlidesNowhere(env, p, f, a, callers, st, world);
    } else {
      var n := |ops| - 1;
      var init, last := ops[..n], ops[n];
      assert p[f][a..a + n] == p[f][a..a + |ops|][..n];
      RunGlides(env, p, f, a, init, callers, st, world);
      assert p[f][a + n] == p[f][a..a + |ops|][n];
      var mid := FoldRun(init).stack;
      GlideStep(env, p, f, a + n, callers, st, mid, world);
      GlideExtend(env, p, f, a, n, WordStack(mid), WordStack(FoldRun(ops).stack), callers, st, world);
    }
  }

  lemma GlidesNowhere(env: Env, p: Program, f: FunctionRef, a: nat, callers: seq<Frame>, st: seq<Word>, world: World)
    ensures Glides(env, p, f, a, a, 0, [], callers, st, world)
  {
    assert st + [] == st;
  }

  lemma AlwaysRunGlides(env: Env, p: Program, f: FunctionRef, a: nat, ops: seq<Operation>)
    requires Placed(p, f, a, ops)
    requires FoldRun(ops).Folded? && Faithful(ops)
    ensures AlwaysGlides(env, p, f, a, a + |ops|, |ops|, WordStack(FoldRun(ops).stack))
  {
    hide Glides;
    hide FoldRun;
    hide Faithful;
    hide Placed;
    hide WordStack;
    var b, n, pushes := a + |ops|, |ops|, WordStack(FoldRun(ops).stack);
    forall callers, st, world
      ensures Glides(env, p, f, a, b, n, pushes, callers, st, world)
    {
      RunGlides(env, p, f, a, ops, callers, st, world);
    }
  }

  lemma GlideExtend(env: Env, p: Program, f: FunctionRef, a: nat, n: nat, mid: seq<Word>, out: seq<Word>,
                    callers: seq<Frame>, st: seq<Word>, world: World)
    requires Glides(env, p, f, a, a + n, n, mid, callers, st, world)
    requires Run(env, p, Here(f, a + n, callers, st + mid, world), 1) == Here(f, a + n + 1, callers, st + out, world)
    ensures Glides(env, p, f, a, a + n + 1, n + 1, out, callers, st, world)
  {
    hide Step;
    var s := Here(f, a, callers, st, world);
    RunAdd(env, p, s, n, 1);
    forall k: nat | k <= n + 1
      ensures Observe(Run(env, p, s, k)) == Observation(None, world)
    {
    }
  }

  lemma GlideStep(env: Env, p: Program, f: FunctionRef, ip: nat, callers: seq<Frame>,
                  st: seq<Word>, mid: seq<SignedWord>, world: World)
    requires f in p && ip < |p[f]|
    requires FoldOperation(mid, p[f][ip]).Folded? && StepFaithful(mid, p[f][ip])
    ensures Run(env, p, Here(f, ip, callers, st + WordStack(mid), world), 1)
         == Here(f, ip + 1, callers, st + WordStack(FoldOperation(mid, p[f][ip]).stack), world)
  {
    hide ApplyPlain;
    hide FoldOperation;
    FoldedStep(env, st, mid, p[f][ip], world);
    OneStep(env, p, Here(f, ip, callers, st + WordStack(mid), world).config);
  }

  lemma PushFolds(ops: seq<Operation>, op: Operation, st: seq<SignedWord>, v: SignedWord)
    requires FoldRun(ops) == Folded(st) && Faithful(ops) && op == Operation(Plain(PushInt(ToWord(v), Int)), NoJump)
    ensures FoldRun(ops + [op]) == Folded(st + [v]) && Faithful(ops + [op])
  {
    FoldRunSnoc(ops, op);
    assert (ops + [op])[..|ops|] == ops;
  }

  lemma {:induction false} PushesFold(st: seq<SignedWord>, n: nat)
    requires n <= |st|
    ensures FoldRun(Pushes(st)[..n]) == Folded(st[..n])
    ensures Faithful(Pushes(st)[..n])
  {
    if n > 0 {
      hide FoldRun;
      PushesFold(st, n - 1);
      var before, op := Pushes(st)[..n-1], Operation(Plain(PushInt(ToWord(st[n-1]), Int)), NoJump);
      assert Pushes(st)[..n] == before + [op];
      assert st[..n] == st[..n-1] + [st[n-1]];
      PushFolds(before, op, st[..n-1], st[n-1]);
    } else {
      assert Pushes(st)[..0] == [] && st[..0] == [];
    }
  }

  function IndexMap(body: seq<Operation>, a: nat, b: nat, st: seq<SignedWord>): map<nat, nat>
    requires a < b <= |body|
  {
    map i: nat | 0 <= i <= |body| && (i <= a || b <= i) :: Moved(a, b, st, i)
  }

  lemma SpliceLockStep(body: seq<Operation>, a: nat, b: nat, st: seq<SignedWord>, i: nat)
    requires Guarded(body) && IsRun(body, a, b, st) && i < |body| && (i < a || b <= i)
    ensures LockStep(body, Splice(body, a, b, st), IndexMap(body, a, b, st), i)
  {
    SpliceAt(body, a, b, st, i);
    if Jumps(body[i].kind) && body[i].jump.To? {
      SpliceTargets(body, a, b, st, i);
    }
  }

  lemma SpliceEquivalent(env: Env, p: Program, f: FunctionRef, a: nat, b: nat, st: seq<SignedWord>)
    requires f in p && Guarded(p[f]) && IsRun(p[f], a, b, st) && Faithful(p[f][a..b])
    ensures Equivalent(env, p, p[f := Splice(p[f], a, b, st)])
  {
    hide AlwaysGlides;
    hide LockStep;
    hide Splice;
    hide Faithful;
    hide FoldRun;
    hide Guarded;
    hide Equivalent;
    var body := p[f];
    var new_ := Splice(body, a, b, st);
    var p' := p[f := new_];
    var at := IndexMap(body, a, b, st);
    var w := Rewrite(f, at, map[a := Glide(b, b - a, |st|, WordStack(st))]);
    AlwaysRunGlides(env, p, f, a, body[a..b]);
    PushesFold(st, |st|);
    assert Pushes(st)[..|st|] == Pushes(st) && st[..|st|] == st;
    NewPushes(body, a, b, st);
    AlwaysRunGlides(env, p', f, a, Pushes(st));
    forall i | i in at && i != a && i < |body|
      ensures LockStep(body, new_, at, i)
    {
      SpliceLockStep(body, a, b, st, i);
    }
    assert Valid(env, p, p', w);
    RewriteUnobservable(env, p, p', w);
  }

  lemma NewPushes(body: seq<Operation>, a: nat, b: nat, st: seq<SignedWord>)
    requires a < b <= |body|
    ensures var r := Splice(body, a, b, st);
      |r| == |body| + |st| - (b - a) && a + |st| <= |r| && r[a..a + |st|] == Pushes(st)
  {
    var r := Splice(body, a, b, st);
    forall k | 0 <= k < |st|
      ensures r[a + k] == Pushes(st)[k]
    {
      SplicePush(body, a, b, st, k);
    }
  }

  /**
   One folding round on a guarded body cannot be observed, provided every operation it evaluates is
   one on which signed and unsigned arithmetic agree.
   */
  lemma FoldingEquivalent(env: Env, p: Program, f: FunctionRef)
    requires f in p && Guarded(p[f]) && FoldBody(p[f]).Changed?
    requires var r := ScanFrom(p[f], 0, None, []);
      r.start <= r.end <= |p[f]| && FoldRun(p[f][r.start..r.end]).Folded? && Faithful(p[f][r.start..r.end])
    ensures Equivalent(env, p, p[f := FoldBody(p[f]).body])
  {
    ScanFindsRun(p[f], 0, None, []);
    var r := ScanFrom(p[f], 0, None, []);
    SpliceEquivalent(env, p, f, r.start, r.end, r.stack);
  }

  // ----- progress -----

  /** Operations other than literal pushes. */
  function Work(ops: seq<Operation>): nat {
    if ops == [] then 0 else Work(ops[..|ops|-1]) + if IsPushInt(ops[|ops|-1]) then 0 else 1
  }

  /** Every operation of `r` that is not a literal push comes from `body`. */
  ghost predicate KindsFrom(r: seq<Operation>, body: seq<Operation>) {
    forall k :: 0 <= k < |r| && !IsPushInt(r[k]) ==> HasKind(body, r[k].kind)
  }

  predicate HasKind(body: seq<Operation>, kind: Kind) {
    exists j :: 0 <= j < |body| && body[j].kind == kind
  }

  lemma KindsFromTrans(a: seq<Operation>, b: seq<Operation>, c: seq<Operation>)
    requires KindsFrom(a, b) && KindsFrom(b, c)
    ensures KindsFrom(a, c)
  {
    forall k | 0 <= k < |a| && !IsPushInt(a[k])
      ensures HasKind(c, a[k].kind)
    {
      var j :| 0 <= j < |b| && b[j].kind == a[k].kind;
      assert !IsPushInt(b[j]);
    }
  }

  lemma FoldingKeepsKinds(body: seq<Operation>)
    requires FoldBody(body).Changed?
    ensures KindsFrom(FoldBody(body).body, body)
  {
    ScanInRange(body, 0, None, []);
    var r := ScanFrom(body, 0, None, []);
    var a, b, st := r.start, r.end, r.stack;
    var plain := body[..a] + Pushes(st) + body[b..];
    var new_ := Splice(body, a, b, st);
    forall k | 0 <= k < |new_| && !IsPushInt(new_[k])
      ensures HasKind(body, new_[k].kind)
    {
      assert new_[k].kind == plain[k].kind;
      if k < a {
        assert plain[k] == body[k];
      } else {
        assert plain[k] == body[k - a - |st| + b];
      }
    }
  }

  lemma {:induction false} WorkConcat(a: seq<Operation>, b: seq<Operation>)
    ensures Work(a + b) == Work(a) + Work(b)
    decreases |b|
  {
    if b == [] {
      assert a + b == a;
    } else {
      assert (a + b)[..|a + b| - 1] == a + b[..|b|-1];
      WorkConcat(a, b[..|b|-1]);
    }
  }

  lemma {:induction false} WorkIgnoresJumps(a: seq<Operation>, b: seq<Operation>)
    requires |a| == |b| && forall k :: 0 <= k < |a| ==> a[k].kind == b[k].kind
    ensures Work(a) == Work(b)
    decreases |a|
  {
    if a != [] {
      WorkIgnoresJumps(a[..|a|-1], b[..|b|-1]);
    }
  }

  lemma {:induction false} WorkOfLiterals(ops: seq<Operation>)
    ensures Work(ops) == 0 <==> forall k :: 0 <= k < |ops| ==> IsPushInt(ops[k])
    decreases |ops|
  {
    if ops != [] {
      WorkOfLiterals(ops[..|ops|-1]);
    }
  }

  lemma {:induction false} LiteralsFoldToThemselves(ops: seq<Operation>)
    requires forall k :: 0 <= k < |ops| ==> IsPushInt(ops[k])
    ensures FoldRun(ops).Folded? && |FoldRun(ops).stack| == |ops|
    ensures forall k :: 0 <= k < |ops| ==>
        IsPushInt(ops[k]) && FoldRun(ops).stack[k] == ToSigned(ops[k].kind.plain.value)
    decreases |ops|
  {
    if ops != [] {
      LiteralsFoldToThemselves(ops[..|ops|-1]);
    }
  }

  /** A run worth replacing contains something other than literals. */
  lemma ChangedRunHasWork(body: seq<Operation>, a: nat, b: nat, st: seq<SignedWord>)
    requires IsRun(body, a, b, st) && !AlreadyFolded(body, a, b, st)
    ensures Work(body[a..b]) > 0
  {
    WorkOfLiterals(body[a..b]);
    if Work(body[a..b]) == 0 {
      LiteralsFoldToThemselves(body[a..b]);
    }
  }

  /** Folding may lengthen a body, yet it always leaves fewer operations that are not literals. */
  lemma FoldingProgresses(body: seq<Operation>)
    requires FoldBody(body).Changed?
    ensures Work(FoldBody(body).body) < Work(body)
  {
    ScanFindsRun(body, 0, None, []);
    var r := ScanFrom(body, 0, None, []);
    var a, b, st := r.start, r.end, r.stack;
    ChangedRunHasWork(body, a, b, st);
    assert body == body[..a] + body[a..b] + body[b..];
    WorkConcat(body[..a] + body[a..b], body[b..]);
    WorkConcat(body[..a], body[a..b]);
    WorkOfLiterals(Pushes(st));
    WorkConcat(body[..a] + Pushes(st), body[b..]);
    WorkConcat(body[..a], Pushes(st));
    WorkIgnoresJumps(Splice(body, a, b, st), body[..a] + Pushes(st) + body[b..]);
  }
}
