/**
 `optimizer::optimize_comptime_known_conditions`: `if` and `do` right behind a literal. All of its
 erasures and remaps are modelled; where the source would erase outside the body the result is
 `Undefined`.
 */
module Conditions {
  import opened Wrappers
  import opened Operations
  import opened FoldCorrectness

  const EMPTY_JUMP: nat := 0xFFFF_FFFF

  // ----- erasing and remapping -----

  /** `op.jump -= amount` on 32 bits. */
  function LowerJump(j: Jump, amount: int): Jump {
    var v := (if j.To? then j.target else EMPTY_JUMP) - amount;
    if v >= 0 then To(v) else if v == -1 then NoJump else To(v % 0x1_0000_0000)
  }

  /** `remap(lo, hi, amount)`; without `hi` the source passes -1, which `Empty_Jump` satisfies too. */
  predicate InRemap(j: Jump, lo: int, hi: Option<int>) {
    match j
    case NoJump => lo <= EMPTY_JUMP && hi.None?
    case To(t) => lo <= t && (hi.Some? ==> t <= hi.value)
  }

  function RemapOperation(op: Operation, lo: int, hi: Option<int>, amount: int): Operation {
    if InRemap(op.jump, lo, hi) then op.(jump := LowerJump(op.jump, amount)) else op
  }

  function Remap(body: seq<Operation>, lo: int, hi: Option<int>, amount: int): (r: seq<Operation>)
    ensures |r| == |body|
    ensures forall k :: 0 <= k < |r| ==> r[k].kind == body[k].kind
  {
    seq(|body|, i requires 0 <= i < |body| => RemapOperation(body[i], lo, hi, amount))
  }

  function Erase(body: seq<Operation>, lo: int, hi: int): Option<seq<Operation>> {
    if 0 <= lo <= hi <= |body| then Some(body[..lo] + body[hi..]) else None
  }

  method RemapJumps(body: seq<Operation>, lo: int, hi: Option<int>, amount: int) returns (r: seq<Operation>)
    ensures r == Remap(body, lo, hi, amount)
  {
    r := body;
    for k := 0 to |r|
      invariant |r| == |body|
      invariant r[..k] == Remap(body, lo, hi, amount)[..k]
      invariant r[k..] == body[k..]
    {
      assert r[k] == body[k];
      r := r[k := RemapOperation(r[k], lo, hi, amount)];
      assert r[..k+1] == r[..k] + [r[k]];
    }
  }

  /** The backwards search for the `while` (or whatever jumps to `branch`) from index `i`. */
  function FindWhile(body: seq<Operation>, i: int, branch: nat): Option<nat> {
    if !(0 <= i < |body|) then None
    else if body[i].kind == While || body[i].jump == To(branch) then Some(i)
    else FindWhile(body, i - 1, branch)
  }

  method SearchWhile(body: seq<Operation>, i: int, branch: nat) returns (r: Option<nat>)
    ensures r == FindWhile(body, i, branch)
  {
    var k := i;
    while 0 <= k < |body| && body[k].kind != While && body[k].jump != To(branch)
      invariant FindWhile(body, k, branch) == FindWhile(body, i, branch)
      decreases k
    {
      k := k - 1;
    }
    r := if 0 <= k < |body| then Some(k) else None;
  }

  lemma {:induction false} FindWhileInRange(body: seq<Operation>, i: int, branch: nat)
    ensures var r := FindWhile(body, i, branch);
      r.Some? ==> r.value < |body|
    decreases i
  {
    if 0 <= i < |body| {
      FindWhileInRange(body, i - 1, branch);
    }
  }

  // ----- one rewrite -----

  function JumpValue(j: Jump): nat {
    if j.To? then j.target else EMPTY_JUMP
  }

  predicate IsCondition(body: seq<Operation>, branch: nat)
    requires 1 <= branch < |body|
  {
    IsPushInt(body[branch-1]) && (body[branch].kind == Do || body[branch].kind == If)
  }

  function EraseWhile(body: seq<Operation>, branch: nat): Option<(seq<Operation>, nat)> {
    FindWhileInRange(body, branch - 2, branch);
    var w :- FindWhile(body, branch - 2, branch);
    Some((body[..w] + body[w+1..], w))
  }

  /** `while … <nonzero> do … end`: cut everything behind the loop, then the condition, then the `while`. */
  function RewriteInfiniteLoop(body: seq<Operation>, branch: nat): Option<seq<Operation>>
    requires 1 <= branch < |body|
  {
    var t := JumpValue(body[branch].jump);
    if !(1 <= t <= |body|) || body[t-1].kind != End then None
    else
    var body1 :- Erase(body, t, |body|);
    var body2 :- Erase(body1, branch - 1, branch + 1);
    var body3 := Remap(body2, branch + 1, Some(t - 1), 3);
    var (body4, _) :- EraseWhile(body3, branch);
    Some(body4)
  }

  /** `while … 0 do … end`. */
  function RewriteDeadLoop(body: seq<Operation>, branch: nat): Option<seq<Operation>>
    requires 1 <= branch < |body|
  {
    var t := JumpValue(body[branch].jump);
    var body1 :- Erase(body, branch - 1, t);
    var body2 := Remap(body1, t - 1, None, t - 1 - branch + 3);
    var (body3, w) :- EraseWhile(body2, branch);
    Some(Remap(body3, w, Some(branch), 1))
  }

  /** `<nonzero> if … end`, with or without `else`. */
  function RewriteTrueIf(body: seq<Operation>, branch: nat): Option<seq<Operation>>
    requires 1 <= branch < |body|
  {
    var els := JumpValue(body[branch].jump) - 1;
    if !(0 <= els < |body|) then None
    else
      var end := if body[els].kind == Else then JumpValue(body[els].jump) - 1 else els;
      var body1 :- Erase(body, els, if end != els then end + 2 else els + 1);
      var body2 := Remap(body1, end, None, if end != els then end - els + 1 else 1);
      var body3 := Remap(body2, branch, Some(els), 2);
      Erase(body3, branch - 1, branch + 1)
  }

  /** `0 if … end`, with or without `else`; an `if` jumping back before its own condition is `Undefined` here. */
  function RewriteFalseIf(body: seq<Operation>, branch: nat): Option<seq<Operation>>
    requires 1 <= branch < |body|
  {
    var els := JumpValue(body[branch].jump) - 1;
    if !(branch - 1 <= els < |body|) then None
    else
      var end := if body[els].kind == Else then JumpValue(body[els].jump) - 1 else els;
      var body1 :- if end != els then Erase(body, end + 1, end + 2) else Some(body);
      var body2 :- Erase(body1, branch - 1, els + 1);
      Some(Remap(body2, els, None, 3 + if els != end then 1 else 0))
  }

  function RewriteCondition(body: seq<Operation>, branch: nat): Option<seq<Operation>>
    requires 1 <= branch < |body| && IsCondition(body, branch)
  {
    var nonzero := body[branch-1].kind.plain.value != 0;
    match (body[branch].kind, nonzero)
    case (Do, true) => RewriteInfiniteLoop(body, branch)
    case (Do, false) => RewriteDeadLoop(body, branch)
    case (_, true) => RewriteTrueIf(body, branch)
    case (_, false) => RewriteFalseIf(body, branch)
  }

  // ----- erasing makes progress -----

  /** Nothing new, and not more operations that are not literals. */
  ghost predicate Leaner(body: seq<Operation>, r: seq<Operation>) {
    |r| <= |body| && Work(r) <= Work(body) && KindsFrom(r, body)
  }

  ghost predicate Shrinks(body: seq<Operation>, r: seq<Operation>) {
    |r| < |body| && Leaner(body, r)
  }

  lemma LeanerTrans(a: seq<Operation>, b: seq<Operation>, c: seq<Operation>)
    requires Leaner(a, b) && Leaner(b, c)
    ensures Leaner(a, c)
  {
    KindsFromTrans(c, b, a);
  }

  lemma EraseShrinks(body: seq<Operation>, lo: int, hi: int)
    requires Erase(body, lo, hi).Some?
    ensures var r := Erase(body, lo, hi).value;
      0 <= lo <= hi && |r| == |body| - (hi - lo) && Leaner(body, r)
  {
    ErasedKinds(body, lo, hi);
    assert body == body[..lo] + body[lo..hi] + body[hi..];
    WorkConcat(body[..lo] + body[lo..hi], body[hi..]);
    WorkConcat(body[..lo], body[lo..hi]);
    WorkConcat(body[..lo], body[hi..]);
  }

  lemma ErasedKinds(body: seq<Operation>, lo: int, hi: int)
    requires Erase(body, lo, hi).Some?
    ensures KindsFrom(Erase(body, lo, hi).value, body)
  {
    var r := Erase(body, lo, hi).value;
    forall k | 0 <= k < |r| && !IsPushInt(r[k])
      ensures HasKind(body, r[k].kind)
    {
      assert r[k] == body[if k < lo then k else k + hi - lo];
    }
  }

  lemma RemapLeaner(body: seq<Operation>, lo: int, hi: Option<int>, amount: int)
    ensures Leaner(body, Remap(body, lo, hi, amount))
  {
    var r := Remap(body, lo, hi, amount);
    WorkIgnoresJumps(r, body);
    forall k | 0 <= k < |r| && !IsPushInt(r[k])
      ensures HasKind(body, r[k].kind)
    {
      assert body[k].kind == r[k].kind;
    }
  }

  lemma EraseWhileShrinks(body: seq<Operation>, branch: nat)
    requires EraseWhile(body, branch).Some?
    ensures Shrinks(body, EraseWhile(body, branch).value.0)
  {
    var (r, w) := EraseWhile(body, branch).value;
    FindWhileInRange(body, branch - 2, branch);
    EraseShrinks(body, w, w + 1);
  }

  lemma InfiniteLoopShrinks(body: seq<Operation>, branch: nat)
    requires 1 <= branch < |body| && RewriteInfiniteLoop(body, branch).Some?
    ensures Shrinks(body, RewriteInfiniteLoop(body, branch).value)
  {
    hide Leaner;
    hide Remap;
    hide Erase;
    hide EraseWhile;
    var t := JumpValue(body[branch].jump);
    EraseShrinks(body, t, |body|);
    var body1 := Erase(body, t, |body|).value;
    EraseShrinks(body1, branch - 1, branch + 1);
    var body2 := Erase(body1, branch - 1, branch + 1).value;
    var body3 := Remap(body2, branch + 1, Some(t - 1), 3);
    RemapLeaner(body2, branch + 1, Some(t - 1), 3);
    EraseWhileShrinks(body3, branch);
    LeanerTrans(body, body1, body2);
    LeanerTrans(body, body2, body3);
    LeanerTrans(body, body3, EraseWhile(body3, branch).value.0);
  }

  lemma DeadLoopShrinks(body: seq<Operation>, branch: nat)
    requires 1 <= branch < |body| && RewriteDeadLoop(body, branch).Some?
    ensures Shrinks(body, RewriteDeadLoop(body, branch).value)
  {
    hide Leaner;
    hide Remap;
    hide Erase;
    hide EraseWhile;
    var t := JumpValue(body[branch].jump);
    EraseShrinks(body, branch - 1, t);
    var body1 := Erase(body, branch - 1, t).value;
    var body2 := Remap(body1, t - 1, None, t - 1 - branch + 3);
    RemapLeaner(body1, t - 1, None, t - 1 - branch + 3);
    EraseWhileShrinks(body2, branch);
    var (body3, w) := EraseWhile(body2, branch).value;
    RemapLeaner(body3, w, Some(branch), 1);
    LeanerTrans(body, body1, body2);
    LeanerTrans(body, body2, body3);
    LeanerTrans(body, body3, Remap(body3, w, Some(branch), 1));
  }

  lemma TrueIfShrinks(body: seq<Operation>, branch: nat)
    requires 1 <= branch < |body| && RewriteTrueIf(body, branch).Some?
    ensures Shrinks(body, RewriteTrueIf(body, branch).value)
  {
    hide Leaner;
    hide Remap;
    hide Erase;
    var els := JumpValue(body[branch].jump) - 1;
    var end := if body[els].kind == Else then JumpValue(body[els].jump) - 1 else els;
    var hi := if end != els then end + 2 else els + 1;
    EraseShrinks(body, els, hi);
    var body1 := Erase(body, els, hi).value;
    var amount := if end != els then end - els + 1 else 1;
    var body2 := Remap(body1, end, None, amount);
    var body3 := Remap(body2, branch, Some(els), 2);
    RemapLeaner(body1, end, None, amount);
    RemapLeaner(body2, branch, Some(els), 2);
    EraseShrinks(body3, branch - 1, branch + 1);
    LeanerTrans(body, body1, body2);
    LeanerTrans(body, body2, body3);
    LeanerTrans(body, body3, Erase(body3, branch - 1, branch + 1).value);
  }

  lemma FalseIfShrinks(body: seq<Operation>, branch: nat)
    requires 1 <= branch < |body| && RewriteFalseIf(body, branch).Some?
    ensures Shrinks(body, RewriteFalseIf(body, branch).value)
  {
    hide Leaner;
    hide Remap;
    hide Erase;
    var els := JumpValue(body[branch].jump) - 1;
    var end := if body[els].kind == Else then JumpValue(body[els].jump) - 1 else els;
    var body1 := body;
    if end != els {
      EraseShrinks(body, end + 1, end + 2);
      body1 := Erase(body, end + 1, end + 2).value;
    }
    EraseShrinks(body1, branch - 1, els + 1);
    var body2 := Erase(body1, branch - 1, els + 1).value;
    var amount := 3 + if els != end then 1 else 0;
    RemapLeaner(body2, els, None, amount);
    if end != els {
      LeanerTrans(body, body1, body2);
    }
    LeanerTrans(body, body2, Remap(body2, els, None, amount));
  }

  lemma RewriteShrinks(body: seq<Operation>, branch: nat)
    requires 1 <= branch < |body| && IsCondition(body, branch) && RewriteCondition(body, branch).Some?
    ensures Shrinks(body, RewriteCondition(body, branch).value)
  {
    hide Shrinks;
    var nonzero := body[branch-1].kind.plain.value != 0;
    match (body[branch].kind, nonzero)
    case (Do, true) => InfiniteLoopShrinks(body, branch);
    case (Do, false) => DeadLoopShrinks(body, branch);
    case (_, true) => TrueIfShrinks(body, branch);
    case (_, false) => FalseIfShrinks(body, branch);
  }

  // ----- the pass -----

  datatype ConditionOutcome = Unchanged | Changed(body: seq<Operation>) | Undefined

  /** The pass from index `branch`, given whether it has rewritten anything yet. */
  function ConditionsFrom(body: seq<Operation>, branch: nat, changed: bool): ConditionOutcome
    requires branch >= 1
    decreases |body|, |body| - branch
  {
    if branch >= |body| then if changed then Changed(body) else Unchanged
    else if !IsCondition(body, branch) then ConditionsFrom(body, branch + 1, changed)
    else
      match RewriteCondition(body, branch)
      case None => Undefined
      case Some(r) =>
        RewriteShrinks(body, branch);
        ConditionsFrom(r, branch, true)
  }

  function ConditionsBody(body: seq<Operation>): ConditionOutcome {
    ConditionsFrom(body, 1, false)
  }

  lemma {:induction false} ConditionsShrink(body: seq<Operation>, branch: nat, changed: bool)
    requires branch >= 1
    ensures match ConditionsFrom(body, branch, changed)
      case Changed(r) => (r == body || Leaner(body, r)) && (!changed ==> |r| < |body|)
      case Unchanged => !changed
      case Undefined => true
    decreases |body|, |body| - branch
  {
    hide Leaner;
    hide RewriteCondition;
    if branch < |body| {
      if !IsCondition(body, branch) {
        ConditionsShrink(body, branch + 1, changed);
      } else if RewriteCondition(body, branch).Some? {
        RewriteShrinks(body, branch);
        var r := RewriteCondition(body, branch).value;
        ConditionsShrink(r, branch, true);
        var rest := ConditionsFrom(r, branch, true);
        if rest.Changed? {
          LeanerSize(body, r);
          if rest.body != r {
            LeanerSize(r, rest.body);
            LeanerTrans(body, r, rest.body);
          }
        }
      }
    }
  }

  lemma LeanerSize(body: seq<Operation>, r: seq<Operation>)
    requires Leaner(body, r)
    ensures |r| <= |body|
  {
  }

  /** A pass that reports a change has shortened the body and added no operation that is not a literal. */
  lemma ConditionsProgress(body: seq<Operation>)
    requires ConditionsBody(body).Changed?
    ensures Shrinks(body, ConditionsBody(body).body)
  {
    ConditionsShrink(body, 1, false);
  }

  method RewriteLoopAt(body: seq<Operation>, branch: nat) returns (r: Option<seq<Operation>>)
    requires 1 <= branch < |body| && IsCondition(body, branch) && body[branch].kind == Do
    ensures r == RewriteCondition(body, branch)
  {
    hide Remap;
    hide FindWhile;
    var infinite := body[branch-1].kind.plain.value != 0;
    var t := JumpValue(body[branch].jump);
    var ops := body;
    if infinite {
      if !(1 <= t <= |body|) || body[t-1].kind != End || branch + 1 > t {
        return None;
      }
      ops := ops[..t];
      ops := ops[..branch-1] + ops[branch+1..];
      assert body[..t] + body[|body|..] == body[..t];
      ops := RemapJumps(ops, branch + 1, Some(t - 1), 3);
    } else {
      if !(branch - 1 <= t <= |body|) {
        return None;
      }
      ops := ops[..branch-1] + ops[t..];
      ops := RemapJumps(ops, t - 1, None, t - 1 - branch + 3);
    }
    FindWhileInRange(ops, branch - 2, branch);
    var w := SearchWhile(ops, branch - 2, branch);
    if w.None? {
      return None;
    }
    ops := ops[..w.value] + ops[w.value+1..];
    if !infinite {
      ops := RemapJumps(ops, w.value, Some(branch), 1);
    }
    return Some(ops);
  }

  method RewriteTrueIfAt(body: seq<Operation>, branch: nat) returns (r: Option<seq<Operation>>)
    requires 1 <= branch < |body|
    ensures r == RewriteTrueIf(body, branch)
  {
    hide Remap;
    var els := JumpValue(body[branch].jump) - 1;
    if !(0 <= els < |body|) {
      return None;
    }
    var end := if body[els].kind == Else then JumpValue(body[els].jump) - 1 else els;
    var hi := if end != els then end + 2 else els + 1;
    if !(els <= hi <= |body|) {
      return None;
    }
    var ops := body[..els] + body[hi..];
    ops := RemapJumps(ops, end, None, if end != els then end - els + 1 else 1);
    ops := RemapJumps(ops, branch, Some(els), 2);
    if branch + 1 > |ops| {
      return None;
    }
    return Some(ops[..branch-1] + ops[branch+1..]);
  }

  method RewriteFalseIfAt(body: seq<Operation>, branch: nat) returns (r: Option<seq<Operation>>)
    requires 1 <= branch < |body|
    ensures r == RewriteFalseIf(body, branch)
  {
    hide Remap;
    var els := JumpValue(body[branch].jump) - 1;
    if !(branch - 1 <= els < |body|) {
      return None;
    }
    var end := if body[els].kind == Else then JumpValue(body[els].jump) - 1 else els;
    var ops := body;
    if end != els {
      if !(0 <= end + 1 && end + 2 <= |body|) {
        return None;
      }
      ops := ops[..end+1] + ops[end+2..];
    }
    if els + 1 > |ops| {
      return None;
    }
    ops := ops[..branch-1] + ops[els+1..];
    ops := RemapJumps(ops, els, None, 3 + if els != end then 1 else 0);
    return Some(ops);
  }

  /** `optimizer::optimize_comptime_known_conditions` on one body. */
  method OptimizeConditions(body: seq<Operation>) returns (r: ConditionOutcome)
    ensures r == ConditionsBody(body)
  {
    var ops, branch, changed := body, 1, false;
    while branch < |ops|
      invariant branch >= 1
      invariant ConditionsFrom(ops, branch, changed) == ConditionsBody(body)
      decreases |ops|, |ops| - branch
    {
      if !IsCondition(ops, branch) {
        branch := branch + 1;
        continue;
      }
      var next;
      if ops[branch].kind == Do {
        next := RewriteLoopAt(ops, branch);
      } else if ops[branch-1].kind.plain.value != 0 {
        next := RewriteTrueIfAt(ops, branch);
      } else {
        next := RewriteFalseIfAt(ops, branch);
      }
      if next.None? {
        return Undefined;
      }
      RewriteShrinks(ops, branch);
      ops, changed := next.value, true;
    }
    r := if changed then Changed(ops) else Unchanged;
  }
}
