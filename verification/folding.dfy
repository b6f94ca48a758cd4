/**
 `optimizer::constant_folding`: finds the first run of literal computations that folds to something
 shorter to say, splices in the pushes of its result and shifts the jumps behind it.
 */
module Folding {
  import opened Wrappers
  import opened Words
  import opened FoldArithmetic
  import opened Operations
  import opened Machine

  /** `Blocked`: the folder does not handle this operation here. `Undefined`: evaluating it is undefined in C++. */
  datatype Fold = Folded(stack: seq<SignedWord>) | Blocked | Undefined

  // ----- one operation -----

  /** The folder's in-place versions of the stack words it handles. */
  function FoldShuffle(s: ShuffleOp, st: seq<SignedWord>): Fold {
    var n := |st|;
    match s
    case Drop => if n < 1 then Blocked else Folded(st[..n-1])
    case Dup => if n < 1 then Blocked else Folded(st + [st[n-1]])
    case TwoDup =>
      if n < 2 then Blocked
      else
        var st1 := st + [st[n-2]];
        Folded(st1 + [st1[|st1|-2]])
    case Over => if n < 2 then Blocked else Folded(st + [st[n-2]])
    case Rot => if n < 3 then Blocked else Folded(st[n-1 := st[n-3]][n-2 := st[n-1]][n-3 := st[n-2]])
    case Swap => if n < 2 then Blocked else Folded(st[n-1 := st[n-2]][n-2 := st[n-1]])
    case Tuck =>
      if n < 2 then Blocked
      else
        var st1 := st + [st[n-1]];
        var m := |st1|;
        Folded(st1[m-3 := st1[m-2]][m-2 := st1[m-3]])
    case TwoDrop => Blocked
    case TwoOver => Blocked
    case TwoSwap => Blocked
  }

  function FoldOperation(st: seq<SignedWord>, op: Operation): Fold {
    var n := |st|;
    if !op.kind.Plain? then Blocked
    else
      match op.kind.plain
      case PushInt(v, _) => Folded(st + [ToSigned(v)])
      case Intrinsic(Binary(o)) =>
        if !Folds(o) || n < 2 then Blocked
        else (match FoldBinary(o, st[n-2], st[n-1])
              case None => Undefined
              case Some(v) => Folded(st[..n-2] + [v]))
      case Intrinsic(Shuffle(s)) => FoldShuffle(s, st)
      case _ => Blocked
  }

  /** Kinds the folder ever folds. */
  predicate Foldable(op: Operation) {
    op.kind.Plain? &&
    match op.kind.plain
    case PushInt(_, _) => true
    case Intrinsic(Binary(o)) => Folds(o)
    case Intrinsic(Shuffle(s)) => s !in {TwoDrop, TwoOver, TwoSwap}
    case _ => false
  }

  lemma FoldedIsFoldable(st: seq<SignedWord>, op: Operation)
    requires FoldOperation(st, op).Folded?
    ensures Foldable(op)
  {
  }

  function WordStack(st: seq<SignedWord>): (r: seq<Word>)
    ensures |r| == |st|
  {
    MapStack(ToWord, st)
  }

  /** The folder's permutations are the machine's, wherever it handles the word. */
  lemma FoldShuffleIsShuffle(s: ShuffleOp, st: seq<SignedWord>)
    ensures FoldShuffle(s, st) ==
      if s in {TwoDrop, TwoOver, TwoSwap} || ShuffleStack(s, st).None? then Blocked
      else Folded(ShuffleStack(s, st).value)
  {
    var n := |st|;
    match s
    case TwoDup =>
      if n >= 2 {
        assert st + [st[n-2]] + [st[n-1]] == st + [st[n-2], st[n-1]];
      }
    case Rot =>
      if n >= 3 {
        assert st[n-1 := st[n-3]][n-2 := st[n-1]][n-3 := st[n-2]] == st[..n-3] + [st[n-2], st[n-1], st[n-3]];
      }
    case Swap =>
      if n >= 2 {
        assert st[n-1 := st[n-2]][n-2 := st[n-1]] == st[..n-2] + [st[n-1], st[n-2]];
      }
    case Tuck =>
      if n >= 2 {
        var st1 := st + [st[n-1]];
        assert st1[n-2 := st1[n-1]][n-1 := st1[n-2]] == st[..n-2] + [st[n-1], st[n-2], st[n-1]];
      }
    case _ =>
  }

  // ----- the pass -----

  /** The run a scan settles on: operations `[start, end)` fold to `stack`. */
  datatype Scan = Found(start: nat, end: nat, stack: seq<SignedWord>) | Nothing | Crash

  /** Nothing to gain: a single operation, or literals that already are the folded stack. */
  predicate AlreadyFolded(body: seq<Operation>, start: nat, end: nat, st: seq<SignedWord>)
    requires start <= end <= |body|
  {
    || start + 1 == end
    || (|st| == end - start
        && forall k :: 0 <= k < |st| ==>
             IsPushInt(body[start + k]) && ToSigned(body[start + k].kind.plain.value) == st[k])
  }

  /** The folder's loop from index `i` with `foldable_start` and its compile-time stack. */
  function ScanFrom(body: seq<Operation>, i: nat, start: Option<nat>, st: seq<SignedWord>): Scan
    requires i <= |body| && (start.Some? ==> start.value <= i)
    decreases |body| - i
  {
    if i == |body| then
      if start.None? || AlreadyFolded(body, start.value, i, st) then Nothing else Found(start.value, i, st)
    else if start.None? && !IsPushInt(body[i]) then ScanFrom(body, i + 1, None, [])
    else
      var a := if start.Some? then start.value else i;
      match FoldOperation(st, body[i])
      case Folded(st') => ScanFrom(body, i + 1, Some(a), st')
      case Undefined => Crash
      case Blocked => if AlreadyFolded(body, a, i, st) then ScanFrom(body, i + 1, None, []) else Found(a, i, st)
  }

  function Pushes(st: seq<SignedWord>): (r: seq<Operation>)
    ensures |r| == |st|
  {
    seq(|st|, i requires 0 <= i < |st| => Operation(Plain(PushInt(ToWord(st[i]), Int)), NoJump))
  }

  /** `jump += delta` on a 32-bit unsigned jump; -1 is `Empty_Jump`. */
  function ShiftJump(j: Jump, start: nat, delta: int): Jump {
    if j.To? && j.target > start then
      var t := j.target + delta;
      if t >= 0 then To(t) else if t == -1 then NoJump else To(t % 0x1_0000_0000)
    else j
  }

  function ShiftJumps(body: seq<Operation>, start: nat, delta: int): (r: seq<Operation>)
    ensures |r| == |body|
  {
    seq(|body|, i requires 0 <= i < |body| => body[i].(jump := ShiftJump(body[i].jump, start, delta)))
  }

  function Splice(body: seq<Operation>, start: nat, end: nat, st: seq<SignedWord>): seq<Operation>
    requires start <= end <= |body|
  {
    ShiftJumps(body[..start] + Pushes(st) + body[end..], start, |st| - (end - start))
  }

  datatype FoldOutcome = Unchanged | Changed(body: seq<Operation>) | Crashed

  lemma {:induction false} ScanInRange(body: seq<Operation>, i: nat, start: Option<nat>, st: seq<SignedWord>)
    requires i <= |body| && (start.Some? ==> start.value <= i)
    ensures var r := ScanFrom(body, i, start, st);
      r.Found? ==> r.start <= r.end <= |body|
    decreases |body| - i
  {
    if i < |body| {
      if start.None? && !IsPushInt(body[i]) {
        ScanInRange(body, i + 1, None, []);
      } else {
        var a := if start.Some? then start.value else i;
        match FoldOperation(st, body[i])
        case Folded(st') => ScanInRange(body, i + 1, Some(a), st');
        case Undefined =>
        case Blocked =>
          if AlreadyFolded(body, a, i, st) {
            ScanInRange(body, i + 1, None, []);
          }
      }
    }
  }

  function FoldBody(body: seq<Operation>): FoldOutcome {
    ScanInRange(body, 0, None, []);
    match ScanFrom(body, 0, None, [])
    case Nothing => Unchanged
    case Crash => Crashed
    case Found(a, b, st) => Changed(Splice(body, a, b, st))
  }

  /** `finish_constant_folding`: erase, insert the pushes, then remap every jump. */
  method FinishFolding(body: seq<Operation>, start: nat, end: nat, st: seq<SignedWord>) returns (r: seq<Operation>)
    requires start <= end <= |body|
    ensures r == Splice(body, start, end, st)
  {
    r := body[..start] + body[end..];
    for k := 0 to |st|
      invariant r == body[..start] + Pushes(st)[..k] + body[end..]
    {
      r := r[..start + k] + [Operation(Plain(PushInt(ToWord(st[k]), Int)), NoJump)] + r[start + k..];
    }
    assert Pushes(st)[..|st|] == Pushes(st);
    var delta := |st| - (end - start);
    ghost var spliced := r;
    for k := 0 to |r|
      invariant |r| == |spliced|
      invariant r[..k] == ShiftJumps(spliced, start, delta)[..k]
      invariant r[k..] == spliced[k..]
    {
      assert r[k] == spliced[k];
      r := r[k := r[k].(jump := ShiftJump(r[k].jump, start, delta))];
      assert r[..k+1] == r[..k] + [r[k]];
    }
  }

  /** `optimizer::constant_folding` on one body. */
  method ConstantFolding(body: seq<Operation>) returns (r: FoldOutcome)
    ensures r == FoldBody(body)
  {
    ScanInRange(body, 0, None, []);
    var start: Option<nat> := None;
    var st: seq<SignedWord> := [];
    var i := 0;
    while i < |body|
      invariant i <= |body| && (start.Some? ==> start.value <= i) && (start.None? ==> st == [])
      invariant ScanFrom(body, i, start, st) == ScanFrom(body, 0, None, [])
    {
      if start.None? && !IsPushInt(body[i]) {
        i := i + 1;
        continue;
      }
      if start.None? {
        start := Some(i);
      }
      var folded := FoldOperation(st, body[i]);
      match folded {
        case Folded(st') =>
          st := st';
        case Undefined =>
          return Crashed;
        case Blocked =>
          if AlreadyFolded(body, start.value, i, st) {
            start, st := None, [];
          } else {
            var spliced := FinishFolding(body, start.value, i, st);
            return Changed(spliced);
          }
      }
      i := i + 1;
    }
    if start.None? || AlreadyFolded(body, start.value, i, st) {
      return Unchanged;
    }
    var spliced := FinishFolding(body, start.value, i, st);
    return Changed(spliced);
  }
}
