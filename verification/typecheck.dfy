/**
 The type checker's worklist: abstract states, `if` duplicating them, every `do` expanded once. It
 terminates on every crossreferenced body, and what it accepts is safe for stack heights.
 */
module Typechecker {
  import opened Wrappers
  import opened Operations
  import opened Structured
  import opened Types
  import opened Compilation

  datatype CheckState = CheckState(stack: seq<Type>, ip: nat)

  /** The type stacks seen right behind each expanded `do`. */
  type Visited = map<nat, seq<Type>>

  datatype CheckStep = Reject | Proceed(states: seq<CheckState>, visited: Visited)

  // ----- one iteration -----

  /** `make_expected_output_verifier`: as many entries as declared, pairwise equal up to `Any`. */
  predicate OutputMatches(st: seq<Type>, output: seq<Type>) {
    |st| == |output| && forall k :: 0 <= k < |st| ==> TypeEqual(st[k], output[k])
  }

  function CheckBool(st: seq<Type>): Option<seq<Type>> {
    ApplyEffects(st, [E([Bool], [])])
  }

  /** What replaces the state on top of the worklist; the last of the new states is checked next. */
  function CheckOne(decls: Declarations, ops: seq<Operation>, output: seq<Type>, s: CheckState,
      visited: Visited): CheckStep {
    if s.ip >= |ops| || ops[s.ip].kind == Plain(Return) then
      if OutputMatches(s.stack, output) then Proceed([], visited) else Reject
    else
      var op := ops[s.ip];
      match op.kind
      case Plain(p) =>
        (match CheckPlain(decls, p, s.stack)
         case None => Reject
         case Some(st) => Proceed([CheckState(st, s.ip + 1)], visited))
      case While => Proceed([CheckState(s.stack, s.ip + 1)], visited)
      case Else => if op.jump.To? then Proceed([CheckState(s.stack, op.jump.target)], visited) else Reject
      case End => if op.jump.To? then Proceed([CheckState(s.stack, op.jump.target)], visited) else Reject
      case If =>
        (match CheckBool(s.stack)
         case None => Reject
         case Some(st) =>
           if op.jump.To? then Proceed([CheckState(st, s.ip + 1), CheckState(st, op.jump.target)], visited) else Reject)
      case Do =>
        (match CheckBool(s.stack)
         case None => Reject
         case Some(st) =>
           if s.ip in visited then
             if OutputMatches(st, visited[s.ip]) then Proceed([], visited) else Reject
           else if op.jump.To? then
             Proceed([CheckState(st, op.jump.target), CheckState(st, s.ip + 1)], visited[s.ip := st])
           else Reject)
  }

  // ----- termination -----

  function First(ranks: seq<nat>, next: nat): nat {
    if ranks == [] then next else ranks[0]
  }

  function Max(a: nat, b: nat): nat {
    if a < b then b else a
  }

  /**
   How long a state can still run before it meets some `do`, given that it may run `next` further
   behind the block. A loop body ranks above its own condition, whose `do` ends every walk.
   */
  function Ranks(b: Block, next: nat): (r: seq<nat>)
    ensures |r| == Size(b)
  {
    match b
    case Nil => []
    case Seq(s, rest) =>
      var behind := Ranks(rest, next);
      StmtRanks(s, First(behind, next)) + behind
  }

  function StmtRanks(s: Stmt, next: nat): (r: seq<nat>)
    ensures |r| == StmtSize(s)
  {
    match s
    case Simple(_) => [next + 1]
    case IfThen(t) =>
      var thn := Ranks(t, next + 1);
      [Max(First(thn, next + 1), next + 1) + 1] + thn + [next + 1]
    case IfElse(t, e) =>
      var els := Ranks(e, next + 1);
      var thn := Ranks(t, next + 2);
      [Max(First(thn, next + 2), First(els, next + 1)) + 1] + thn + [next + 2] + els + [next + 1]
    case Loop(c, b) =>
      var cond := Ranks(c, 0);
      var head := First(cond, 0) + 1;
      var body := Ranks(b, head + 1);
      [head] + cond + [0] + body + [head + 1]
  }

  /** Every way a state moves on without expanding a `do` goes down in rank. */
  predicate Descends(ops: seq<Operation>, rank: seq<nat>, i: nat)
    requires i < |ops| && |rank| == |ops| + 1
  {
    match ops[i].kind
    case Plain(p) => p.Return? || rank[i + 1] < rank[i]
    case While => rank[i + 1] < rank[i]
    case If => rank[i + 1] < rank[i] && ops[i].jump.To? && ops[i].jump.target <= |ops|
        && rank[ops[i].jump.target] < rank[i]
    case Else => ops[i].jump.To? && ops[i].jump.target <= |ops| && rank[ops[i].jump.target] < rank[i]
    case End => ops[i].jump.To? && ops[i].jump.target <= |ops| && rank[ops[i].jump.target] < rank[i]
    case Do => ops[i].jump.To? && ops[i].jump.target <= |ops|
  }

  ghost predicate Ranked(ops: seq<Operation>, rank: seq<nat>) {
    |rank| == |ops| + 1 && forall i :: 0 <= i < |ops| ==> Descends(ops, rank, i)
  }

  /** Code and ranks of a part of a body. */
  ghost predicate Laid(ops: seq<Operation>, rank: seq<nat>, lo: nat, code: seq<Operation>, ranks: seq<nat>, next: nat) {
    && |rank| == |ops| + 1
    && lo + |code| <= |ops| && |ranks| == |code|
    && ops[lo..lo + |code|] == code
    && rank[lo..lo + |code|] == ranks
    && rank[lo + |code|] == next
  }

  lemma LaidParts(ops: seq<Operation>, rank: seq<nat>, lo: nat, a: seq<Operation>, ra: seq<nat>, b: seq<Operation>,
      rb: seq<nat>, next: nat)
    requires Laid(ops, rank, lo, a + b, ra + rb, next) && |ra| == |a| && |rb| == |b|
    ensures Laid(ops, rank, lo, a, ra, First(rb, next))
    ensures Laid(ops, rank, lo + |a|, b, rb, next)
  {
    AtParts(ops, lo, a, b);
    var whole := rank[lo..lo + |a + b|];
    assert whole[..|a|] == ra && whole[|a|..] == rb;
    assert rank[lo..lo + |a|] == whole[..|a|];
    assert rank[lo + |a|..lo + |a| + |b|] == whole[|a|..];
    if b != [] {
      assert rank[lo + |a|] == whole[|a|];
    }
  }

  lemma LaidOne(ops: seq<Operation>, rank: seq<nat>, lo: nat, op: Operation, r: nat, next: nat)
    requires Laid(ops, rank, lo, [op], [r], next)
    ensures lo < |ops| && ops[lo] == op && rank[lo] == r && rank[lo + 1] == next
  {
    assert ops[lo..lo + 1][0] == ops[lo];
    assert rank[lo..lo + 1][0] == rank[lo];
  }

  lemma {:induction false} BlockDescends(ops: seq<Operation>, rank: seq<nat>, lo: nat, b: Block, next: nat)
    requires Laid(ops, rank, lo, Link(b, lo), Ranks(b, next), next)
    ensures forall i :: lo <= i < lo + Size(b) ==> Descends(ops, rank, i)
    decreases b
  {
    hide Descends;
    hide Laid;
    match b
    case Nil =>
    case Seq(s, rest) =>
      hide LinkStmt;
      hide StmtRanks;
      var behind := Ranks(rest, next);
      LaidParts(ops, rank, lo, LinkStmt(s, lo), StmtRanks(s, First(behind, next)), Link(rest, lo + StmtSize(s)),
          behind, next);
      StmtDescends(ops, rank, lo, s, First(behind, next));
      BlockDescends(ops, rank, lo + StmtSize(s), rest, next);
  }

  lemma {:induction false} StmtDescends(ops: seq<Operation>, rank: seq<nat>, lo: nat, s: Stmt, next: nat)
    requires Laid(ops, rank, lo, LinkStmt(s, lo), StmtRanks(s, next), next)
    ensures forall i :: lo <= i < lo + StmtSize(s) ==> Descends(ops, rank, i)
    decreases s, 1
  {
    match s
    case Simple(p) => LaidOne(ops, rank, lo, Operation(Plain(p), NoJump), next + 1, next);
    case IfThen(_) => IfThenDescends(ops, rank, lo, s, next);
    case IfElse(_, _) => IfElseDescends(ops, rank, lo, s, next);
    case Loop(_, _) => LoopDescends(ops, rank, lo, s, next);
  }

  lemma {:induction false} IfThenDescends(ops: seq<Operation>, rank: seq<nat>, lo: nat, s: Stmt, next: nat)
    requires s.IfThen? && Laid(ops, rank, lo, LinkStmt(s, lo), StmtRanks(s, next), next)
    ensures forall i :: lo <= i < lo + StmtSize(s) ==> Descends(ops, rank, i)
    decreases s, 0
  {
    hide Link;
    hide Ranks;
    hide Laid;
    var end := lo + 1 + Size(s.thn);
    var thn := Ranks(s.thn, next + 1);
    var x, c, y := [Operation(If, To(end))], Link(s.thn, lo + 1), [Operation(End, To(end + 1))];
    var rx, ry := [Max(First(thn, next + 1), next + 1) + 1], [next + 1];
    LaidParts(ops, rank, lo, x + c, rx + thn, y, ry, next);
    LaidParts(ops, rank, lo, x, rx, c, thn, next + 1);
    LaidOne(ops, rank, lo, x[0], rx[0], First(thn, next + 1));
    LaidOne(ops, rank, end, y[0], ry[0], next);
    BlockDescends(ops, rank, lo + 1, s.thn, next + 1);
  }

  lemma LaidSize(ops: seq<Operation>, rank: seq<nat>, lo: nat, code: seq<Operation>, ranks: seq<nat>, next: nat)
    requires Laid(ops, rank, lo, code, ranks, next)
    ensures |rank| == |ops| + 1 && lo + |code| <= |ops|
  {
  }

  /** The five pieces of a two-part statement. */
  lemma LaidFive(ops: seq<Operation>, rank: seq<nat>, lo: nat, x: Operation, rx: nat, a: seq<Operation>, ra: seq<nat>,
                 y: Operation, ry: nat, b: seq<Operation>, rb: seq<nat>, z: Operation, rz: nat, next: nat)
    requires |ra| == |a| && |rb| == |b|
    requires Laid(ops, rank, lo, [x] + a + [y] + b + [z], [rx] + ra + [ry] + rb + [rz], next)
    ensures var mid, end := lo + 1 + |a|, lo + 2 + |a| + |b|;
      && end < |ops| && ops[lo] == x && ops[mid] == y && ops[end] == z
      && rank[lo] == rx && rank[lo + 1] == First(ra, ry) && rank[mid] == ry && rank[mid + 1] == First(rb, rz)
      && rank[end] == rz && rank[end + 1] == next
      && Laid(ops, rank, lo + 1, a, ra, ry) && Laid(ops, rank, mid + 1, b, rb, rz)
  {
    hide Laid;
    LaidSize(ops, rank, lo, [x] + a + [y] + b + [z], [rx] + ra + [ry] + rb + [rz], next);
    LaidParts(ops, rank, lo, [x] + a + [y] + b, [rx] + ra + [ry] + rb, [z], [rz], next);
    LaidParts(ops, rank, lo, [x] + a + [y], [rx] + ra + [ry], b, rb, rz);
    LaidParts(ops, rank, lo, [x] + a, [rx] + ra, [y], [ry], First(rb, rz));
    LaidParts(ops, rank, lo, [x], [rx], a, ra, ry);
    LaidOne(ops, rank, lo, x, rx, First(ra, ry));
    LaidOne(ops, rank, lo + 1 + |a|, y, ry, First(rb, rz));
    LaidOne(ops, rank, lo + 2 + |a| + |b|, z, rz, next);
  }

  lemma {:induction false} IfElseDescends(ops: seq<Operation>, rank: seq<nat>, lo: nat, s: Stmt, next: nat)
    requires s.IfElse? && Laid(ops, rank, lo, LinkStmt(s, lo), StmtRanks(s, next), next)
    ensures forall i :: lo <= i < lo + StmtSize(s) ==> Descends(ops, rank, i)
    decreases s, 0
  {
    hide Link;
    hide Ranks;
    hide Laid;
    var mid := lo + 1 + Size(s.thn);
    var end := mid + 1 + Size(s.els);
    var els, thn := Ranks(s.els, next + 1), Ranks(s.thn, next + 2);
    LaidFive(ops, rank, lo, Operation(If, To(mid + 1)), Max(First(thn, next + 2), First(els, next + 1)) + 1,
             Link(s.thn, lo + 1), thn, Operation(Else, To(end)), next + 2, Link(s.els, mid + 1), els,
             Operation(End, To(end + 1)), next + 1, next);
    BlockDescends(ops, rank, lo + 1, s.thn, next + 2);
    BlockDescends(ops, rank, mid + 1, s.els, next + 1);
  }

  lemma {:induction false} LoopDescends(ops: seq<Operation>, rank: seq<nat>, lo: nat, s: Stmt, next: nat)
    requires s.Loop? && Laid(ops, rank, lo, LinkStmt(s, lo), StmtRanks(s, next), next)
    ensures forall i :: lo <= i < lo + StmtSize(s) ==> Descends(ops, rank, i)
    decreases s, 0
  {
    hide Link;
    hide Ranks;
    hide Laid;
    var mid := lo + 1 + Size(s.cond);
    var end := mid + 1 + Size(s.body);
    var cond := Ranks(s.cond, 0);
    var head := First(cond, 0) + 1;
    var body := Ranks(s.body, head + 1);
    LaidFive(ops, rank, lo, Operation(While, NoJump), head, Link(s.cond, lo + 1), cond, Operation(Do, To(end + 1)), 0,
             Link(s.body, mid + 1), body, Operation(End, To(lo)), head + 1, next);
    BlockDescends(ops, rank, lo + 1, s.cond, 0);
    BlockDescends(ops, rank, mid + 1, s.body, head + 1);
  }

  lemma LinkRanked(b: Block)
    ensures Ranked(Link(b, 0), Ranks(b, 0) + [0])
  {
    var ops, rank := Link(b, 0), Ranks(b, 0) + [0];
    assert ops[0..|ops|] == ops && rank[0..|ops|] == Ranks(b, 0);
    BlockDescends(ops, rank, 0, b, 0);
  }

  function Pow3(n: nat): (r: nat)
    ensures r >= 1
  {
    if n == 0 then 1 else 3 * Pow3(n - 1)
  }

  lemma {:induction false} Pow3Monotone(m: nat, n: nat)
    requires m < n
    ensures 3 * Pow3(m) <= Pow3(n)
    decreases n
  {
    if m < n - 1 {
      Pow3Monotone(m, n - 1);
    }
  }

  function RankAt(rank: seq<nat>, ip: nat): nat {
    if ip < |rank| then rank[ip] else 0
  }

  /** `if` turns one state into two of lower rank, so ranks are summed in powers of three. */
  function Weight(rank: seq<nat>, states: seq<CheckState>): nat {
    if states == [] then 0
    else Weight(rank, states[..|states|-1]) + Pow3(RankAt(rank, states[|states|-1].ip))
  }

  lemma WeightSnoc(rank: seq<nat>, states: seq<CheckState>, s: CheckState)
    ensures Weight(rank, states + [s]) == Weight(rank, states) + Pow3(RankAt(rank, s.ip))
  {
    assert (states + [s])[..|states|] == states;
  }

  predicate IsDo(ops: seq<Operation>, i: int) {
    0 <= i < |ops| && ops[i].kind == Do
  }

  /** The `do`s not expanded yet. */
  function Unexpanded(ops: seq<Operation>, visited: Visited): set<nat> {
    set i: nat | 0 <= i < |ops| && IsDo(ops, i) && i !in visited
  }

  /** Between expansions every iteration lowers the weight; an expansion uses up a `do`. */
  lemma CheckProgresses(decls: Declarations, ops: seq<Operation>, output: seq<Type>, rank: seq<nat>,
                        states: seq<CheckState>, visited: Visited)
    requires Ranked(ops, rank) && |states| > 0
    requires states[|states|-1].ip <= |ops|
    requires CheckOne(decls, ops, output, states[|states|-1], visited).Proceed?
    ensures var s := states[|states|-1];
      var r := CheckOne(decls, ops, output, s, visited);
      var states' := states[..|states|-1] + r.states;
      && (forall k :: 0 <= k < |r.states| ==> r.states[k].ip <= |ops|)
      && (if s.ip < |ops| && ops[s.ip].kind == Do && s.ip !in visited
          then Unexpanded(ops, r.visited) < Unexpanded(ops, visited)
          else r.visited == visited && Weight(rank, states') < Weight(rank, states))
  {
    hide CheckPlain;
    hide CheckBool;
    hide OutputMatches;
    hide Weight;
    hide Pow3;
    var s := states[|states|-1];
    var r := CheckOne(decls, ops, output, s, visited);
    assert s.ip < |ops| ==> Descends(ops, rank, s.ip);
    if s.ip < |ops| && ops[s.ip].kind == Do && s.ip !in visited {
      assert s.ip in Unexpanded(ops, visited) && s.ip !in Unexpanded(ops, r.visited);
    } else {
      assert states == states[..|states|-1] + [s];
      WeightDrops(rank, states[..|states|-1], s, r.states);
    }
  }

  /** One state replaced by at most two of lower rank. */
  lemma WeightDrops(rank: seq<nat>, below: seq<CheckState>, s: CheckState, more: seq<CheckState>)
    requires |more| <= 2 && forall k :: 0 <= k < |more| ==> RankAt(rank, more[k].ip) < RankAt(rank, s.ip)
    ensures Weight(rank, below + more) < Weight(rank, below + [s])
  {
    hide Weight;
    hide RankAt;
    WeightSnoc(rank, below, s);
    if more == [] {
      assert below + [] == below;
    } else {
      Pow3Monotone(RankAt(rank, more[0].ip), RankAt(rank, s.ip));
      WeightSnoc(rank, below, more[0]);
      if |more| == 1 {
        assert more == [more[0]];
      } else {
        assert below + more == below + [more[0]] + [more[1]];
        Pow3Monotone(RankAt(rank, more[1].ip), RankAt(rank, s.ip));
        WeightSnoc(rank, below + [more[0]], more[1]);
      }
    }
  }

  // ----- soundness for heights -----

  /** Stack heights at instruction indices. */
  type Heights = set<(nat, nat)>

  /** At index `i` with `h` entries the next operation has its operands and leads to heights in `H`. */
  predicate HeightOk(decls: Declarations, ops: seq<Operation>, output: nat, H: Heights, i: nat, h: nat) {
    if i >= |ops| then i == |ops| && h == output
    else
      match ops[i].kind
      case Plain(p) =>
        if p.Return? then h == output && (|ops|, h) in H
        else
          && PlainEffects(decls, p) != []
          && h >= Inputs(decls, p) && (i + 1, h - Inputs(decls, p) + Outputs(decls, p)) in H
      case While => (i + 1, h) in H
      case Else => ops[i].jump.To? && (ops[i].jump.target, h) in H
      case End => ops[i].jump.To? && (ops[i].jump.target, h) in H
      case If => BranchOk(ops, H, i, h)
      case Do => BranchOk(ops, H, i, h)
  }

  predicate BranchOk(ops: seq<Operation>, H: Heights, i: nat, h: nat)
    requires i < |ops|
  {
    h >= 1 && ops[i].jump.To? && (i + 1, h - 1) in H && (ops[i].jump.target, h - 1) in H
  }

  ghost predicate HeightsOk(decls: Declarations, ops: seq<Operation>, output: nat, C: Heights, H: Heights) {
    forall x :: x in C ==> HeightOk(decls, ops, output, H, x.0, x.1)
  }

  /** A body whose heights can be bounded: it starts with `input` entries and ends with `output`. */
  ghost predicate HeightSafe(decls: Declarations, ops: seq<Operation>, input: nat, output: nat) {
    exists H: Heights :: SafeHeights(decls, ops, input, output, H)
  }

  ghost predicate SafeHeights(decls: Declarations, ops: seq<Operation>, input: nat, output: nat, H: Heights) {
    (0, input) in H && HeightsOk(decls, ops, output, H, H)
  }

  function Pending(states: seq<CheckState>): Heights {
    set k | 0 <= k < |states| :: (states[k].ip, |states[k].stack|)
  }

  /** Behind every expanded `do` both ways out are covered. */
  ghost predicate VisitedOk(ops: seq<Operation>, visited: Visited, H: Heights) {
    forall d :: d in visited ==>
      && d < |ops| && ops[d].kind == Do && ops[d].jump.To?
      && (d + 1, |visited[d]|) in H && (ops[d].jump.target, |visited[d]|) in H
  }

  lemma HeightOkMonotone(decls: Declarations, ops: seq<Operation>, output: nat, H: Heights, H': Heights, i: nat, h: nat)
    requires H <= H' && HeightOk(decls, ops, output, H, i, h)
    ensures HeightOk(decls, ops, output, H', i, h)
  {
    hide PlainEffects;
    hide Inputs;
    hide Outputs;
  }

  lemma BoolHeight(st: seq<Type>)
    requires CheckBool(st).Some?
    ensures |st| >= 1 && |CheckBool(st).value| == |st| - 1
  {
    AppliedHeight(st, [E([Bool], [])], 1, 0);
  }

  lemma {:induction false} NoEffectsRejected(decls: Declarations, p: Plain, st: seq<Type>)
    requires !p.Return? && CheckPlain(decls, p, st).Some?
    ensures PlainEffects(decls, p) != []
  {
  }

  /** What one iteration justifies: the state it takes, given the states it leaves. */
  lemma StepJustified(decls: Declarations, ops: seq<Operation>, output: seq<Type>, s: CheckState,
      visited: Visited, H: Heights)
    requires CheckOne(decls, ops, output, s, visited).Proceed? && s.ip <= |ops|
    requires VisitedOk(ops, visited, H)
    requires var r := CheckOne(decls, ops, output, s, visited);
      Pending(r.states) <= H && (|ops|, |output|) in H
    ensures HeightOk(decls, ops, |output|, H, s.ip, |s.stack|)
    ensures VisitedOk(ops, CheckOne(decls, ops, output, s, visited).visited, H)
  {
    hide CheckPlain;
    hide CheckBool;
    hide PlainEffects;
    hide Inputs;
    hide Outputs;
    var r := CheckOne(decls, ops, output, s, visited);
    assert forall k :: 0 <= k < |r.states| ==> (r.states[k].ip, |r.states[k].stack|) in Pending(r.states);
    if s.ip < |ops| {
      var op := ops[s.ip];
      if op.kind.Plain? && !op.kind.plain.Return? {
        CheckedHeight(decls, op.kind.plain, s.stack);
        NoEffectsRejected(decls, op.kind.plain, s.stack);
        assert (r.states[0].ip, |r.states[0].stack|) in H;
      } else if op.kind.If? || op.kind.Do? {
        BoolHeight(s.stack);
        if r.states != [] {
          assert (r.states[0].ip, |r.states[0].stack|) in H;
          assert (r.states[1].ip, |r.states[1].stack|) in H;
        }
      } else if !op.kind.Plain? {
        assert (r.states[0].ip, |r.states[0].stack|) in H;
      }
    }
  }

  // ----- rejections have a witness -----

  /** One abstract step of the body, whatever has been expanded before. */
  predicate Edge(decls: Declarations, ops: seq<Operation>, s: CheckState, s': CheckState) {
    s.ip < |ops| &&
    var op := ops[s.ip];
    match op.kind
    case Plain(p) => !p.Return? && CheckPlain(decls, p, s.stack) == Some(s'.stack) && s'.ip == s.ip + 1
    case While => s' == CheckState(s.stack, s.ip + 1)
    case Else => op.jump.To? && s' == CheckState(s.stack, op.jump.target)
    case End => op.jump.To? && s' == CheckState(s.stack, op.jump.target)
    case If => op.jump.To? && CheckBool(s.stack) == Some(s'.stack) && (s'.ip == s.ip + 1 || s'.ip == op.jump.target)
    case Do => op.jump.To? && CheckBool(s.stack) == Some(s'.stack) && (s'.ip == s.ip + 1 || s'.ip == op.jump.target)
  }

  ghost predicate AbstractPath(decls: Declarations, ops: seq<Operation>, input: seq<Type>, path: seq<CheckState>) {
    && |path| > 0 && path[0] == CheckState(input, 0)
    && forall k :: 0 <= k < |path| - 1 ==> Edge(decls, ops, path[k], path[k + 1])
  }

  ghost predicate Reached(decls: Declarations, ops: seq<Operation>, input: seq<Type>, s: CheckState) {
    exists path :: AbstractPath(decls, ops, input, path) && path[|path| - 1] == s
  }

  /** A state the checker cannot continue from. */
  predicate Stuck(decls: Declarations, ops: seq<Operation>, output: seq<Type>, s: CheckState) {
    if s.ip >= |ops| || ops[s.ip].kind == Plain(Return) then !OutputMatches(s.stack, output)
    else
      match ops[s.ip].kind
      case Plain(p) => CheckPlain(decls, p, s.stack).None?
      case While => false
      case Else => !ops[s.ip].jump.To?
      case End => !ops[s.ip].jump.To?
      case If => CheckBool(s.stack).None? || !ops[s.ip].jump.To?
      case Do => CheckBool(s.stack).None? || !ops[s.ip].jump.To?
  }

  /** Two states that reach the same `do` with different stacks. */
  predicate Clash(ops: seq<Operation>, s: CheckState, s': CheckState) {
    && s.ip == s'.ip && IsDo(ops, s.ip)
    && CheckBool(s.stack).Some? && CheckBool(s'.stack).Some?
    && !OutputMatches(CheckBool(s'.stack).value, CheckBool(s.stack).value)
  }

  ghost predicate Faulty(decls: Declarations, ops: seq<Operation>, input: seq<Type>, output: seq<Type>) {
    || (exists s :: Reached(decls, ops, input, s) && Stuck(decls, ops, output, s))
    || (exists s, s' :: Reached(decls, ops, input, s) && Reached(decls, ops, input, s') && Clash(ops, s, s'))
  }

  ghost predicate AllReached(decls: Declarations, ops: seq<Operation>, input: seq<Type>, states: seq<CheckState>) {
    forall k :: 0 <= k < |states| ==> Reached(decls, ops, input, states[k])
  }

  ghost predicate VisitedReached(decls: Declarations, ops: seq<Operation>, input: seq<Type>, visited: Visited) {
    forall d :: d in visited ==> VisitedBy(decls, ops, input, d, visited[d])
  }

  ghost predicate VisitedBy(decls: Declarations, ops: seq<Operation>, input: seq<Type>, d: nat, st: seq<Type>) {
    exists s :: Reached(decls, ops, input, s) && s.ip == d && CheckBool(s.stack) == Some(st)
  }

  lemma ReachedNext(decls: Declarations, ops: seq<Operation>, input: seq<Type>, s: CheckState, s': CheckState)
    requires Reached(decls, ops, input, s) && Edge(decls, ops, s, s')
    ensures Reached(decls, ops, input, s')
  {
    hide Edge;
    var path :| AbstractPath(decls, ops, input, path) && path[|path| - 1] == s;
    assert AbstractPath(decls, ops, input, path + [s']);
  }

  lemma StepReaches(decls: Declarations, ops: seq<Operation>, input: seq<Type>, output: seq<Type>, s: CheckState,
      visited: Visited)
    requires Reached(decls, ops, input, s) && VisitedReached(decls, ops, input, visited)
    ensures match CheckOne(decls, ops, output, s, visited)
      case Reject => Faulty(decls, ops, input, output)
      case Proceed(more, visited') => AllReached(decls, ops, input, more) && VisitedReached(decls, ops, input, visited')
  {
    hide CheckPlain;
    hide CheckBool;
    hide OutputMatches;
    hide Reached;
    match CheckOne(decls, ops, output, s, visited)
    case Reject =>
      if !Stuck(decls, ops, output, s) {
        var other :| Reached(decls, ops, input, other) && other.ip == s.ip
            && CheckBool(other.stack) == Some(visited[s.ip]);
        assert Clash(ops, other, s);
      }
    case Proceed(more, visited') =>
      forall k | 0 <= k < |more|
        ensures Reached(decls, ops, input, more[k])
      {
        ReachedNext(decls, ops, input, s, more[k]);
      }
      forall d | d in visited'
        ensures VisitedBy(decls, ops, input, d, visited'[d])
      {
        if d !in visited {
          assert s.ip == d && CheckBool(s.stack) == Some(visited'[d]);
        } else {
          assert VisitedBy(decls, ops, input, d, visited[d]);
        }
      }
  }

  // ----- without `Any` on the stack, acceptance is exact -----

  predicate Concrete(ty: Type) {
    !ty.Any? && !ty.Variable?
  }

  predicate ConcreteStack(st: seq<Type>) {
    forall k :: 0 <= k < |st| ==> Concrete(st[k])
  }

  /** Outputs are concrete types, or type variables that the inputs bind. */
  predicate DefiniteOutput(output: seq<Type>) {
    forall k :: 0 <= k < |output| ==> !output[k].Any?
  }

  predicate DefiniteOperation(op: Operation) {
    match op.kind
    case Plain(PushInt(_, ty)) => Concrete(ty)
    case Plain(Cast(ty)) => Concrete(ty)
    case _ => true
  }

  /** Neither literals, casts, declared effects nor the initial stack bring `Any` onto the stack. */
  ghost predicate Definite(decls: Declarations, ops: seq<Operation>, input: seq<Type>) {
    && ConcreteStack(input)
    && (forall k :: 0 <= k < |ops| ==> DefiniteOperation(ops[k]))
    && (forall id :: id in decls && decls[id].effect.Some? ==> DefiniteOutput(decls[id].effect.value.output))
  }

  ghost predicate ConcreteMap(g: map<nat, Type>) {
    forall id :: id in g ==> Concrete(g[id])
  }

  lemma {:induction false} MatchConcrete(st: seq<Type>, input: seq<Type>, k: nat, g: map<nat, Type>)
    requires k <= |input| && ConcreteStack(st) && ConcreteMap(g) && MatchInputs(st, input, k, g).Some?
    ensures ConcreteMap(MatchInputs(st, input, k, g).value)
    decreases |input| - k
  {
    if k < |input| {
      MatchConcrete(st, input, k + 1, Bind(g, st[|st| - 1 - k], input[|input| - 1 - k]).value);
    }
  }

  lemma {:induction false} SubstituteConcrete(output: seq<Type>, g: map<nat, Type>)
    requires DefiniteOutput(output) && ConcreteMap(g) && Substitute(output, g).Some?
    ensures ConcreteStack(Substitute(output, g).value)
    decreases |output|
  {
    if output != [] {
      SubstituteConcrete(output[..|output| - 1], g);
    }
  }

  lemma {:induction false} AppliedConcrete(st: seq<Type>, effects: seq<StackEffect>)
    requires ConcreteStack(st) && (forall k :: 0 <= k < |effects| ==> DefiniteOutput(effects[k].output))
    requires ApplyEffects(st, effects).Some?
    ensures ConcreteStack(ApplyEffects(st, effects).value)
    decreases |effects|
  {
    hide MatchInputs;
    hide Substitute;
    var g := MatchInputs(st, effects[0].input, 0, map[]);
    if g.None? {
      AppliedConcrete(st, effects[1..]);
    } else {
      MatchConcrete(st, effects[0].input, 0, map[]);
      SubstituteConcrete(effects[0].output, g.value);
    }
  }

  lemma IntrinsicDefinite(i: Intrinsic)
    ensures forall k :: 0 <= k < |IntrinsicEffects(i)| ==> DefiniteOutput(IntrinsicEffects(i)[k].output)
  {
  }

  lemma PlainConcrete(decls: Declarations, ops: seq<Operation>, input: seq<Type>, k: nat, q: Plain, st: seq<Type>)
    requires Definite(decls, ops, input) && k < |ops| && ops[k].kind == Plain(q) && !q.Return?
    requires ConcreteStack(st) && CheckPlain(decls, q, st).Some?
    ensures ConcreteStack(CheckPlain(decls, q, st).value)
  {
    hide ApplyEffects;
    hide IntrinsicEffects;
    assert DefiniteOperation(ops[k]);
    match q
    case PushInt(_, _) =>
    case PushSymbol(_) =>
    case Intrinsic(i) =>
      IntrinsicDefinite(i);
      AppliedConcrete(st, PlainEffects(decls, q));
    case Cast(_) => AppliedConcrete(st, PlainEffects(decls, q));
    case CallSymbol(_) => AppliedConcrete(st, PlainEffects(decls, q));
  }

  lemma BoolConcrete(st: seq<Type>)
    requires ConcreteStack(st) && CheckBool(st).Some?
    ensures ConcreteStack(CheckBool(st).value)
  {
    AppliedConcrete(st, [E([Bool], [])]);
  }

  lemma EdgeConcrete(decls: Declarations, ops: seq<Operation>, input: seq<Type>, s: CheckState, s': CheckState)
    requires Definite(decls, ops, input) && ConcreteStack(s.stack) && Edge(decls, ops, s, s')
    ensures ConcreteStack(s'.stack)
  {
    hide CheckPlain;
    hide CheckBool;
    hide ConcreteStack;
    hide Definite;
    match ops[s.ip].kind
    case Plain(q) => PlainConcrete(decls, ops, input, s.ip, q, s.stack);
    case If => BoolConcrete(s.stack);
    case Do => BoolConcrete(s.stack);
    case _ =>
  }

  lemma ConcreteMatches(st: seq<Type>, output: seq<Type>)
    requires ConcreteStack(st) && ConcreteStack(output) && OutputMatches(st, output)
    ensures st == output
  {
  }

  /**
   A state the checker has dealt with: it is not stuck, where it leads is in `all`, and at a `do` it agrees with the
   first.
   */
  ghost predicate Settled(decls: Declarations, ops: seq<Operation>, output: seq<Type>, s: CheckState,
      all: set<CheckState>, visited: Visited) {
    && !Stuck(decls, ops, output, s)
    && (forall s' :: Edge(decls, ops, s, s') ==> s' in all)
    && (IsDo(ops, s.ip) ==> s.ip in visited && CheckBool(s.stack) == Some(visited[s.ip]))
  }

  ghost predicate AllSettled(decls: Declarations, ops: seq<Operation>, output: seq<Type>, done: set<CheckState>,
      all: set<CheckState>, visited: Visited) {
    forall s :: s in done ==> Settled(decls, ops, output, s, all, visited)
  }

  /** Both ways out of every expanded `do` are in `all`. */
  ghost predicate Expanded(ops: seq<Operation>, visited: Visited, all: set<CheckState>) {
    forall d :: d in visited ==>
      && d < |ops| && ops[d].jump.To? && ConcreteStack(visited[d])
      && CheckState(visited[d], d + 1) in all && CheckState(visited[d], ops[d].jump.target) in all
  }

  lemma StepSettles(decls: Declarations, ops: seq<Operation>, input: seq<Type>, output: seq<Type>, s: CheckState,
      visited: Visited, all: set<CheckState>)
    requires Definite(decls, ops, input) && ConcreteStack(s.stack) && CheckOne(decls, ops, output, s, visited).Proceed?
    requires Expanded(ops, visited, all) && forall k :: 0 <= k < |CheckOne(decls, ops, output, s, visited).states| ==>
      CheckOne(decls, ops, output, s, visited).states[k] in all
    ensures var r := CheckOne(decls, ops, output, s, visited);
      && Settled(decls, ops, output, s, all, r.visited) && Expanded(ops, r.visited, all)
      && forall k :: 0 <= k < |r.states| ==> ConcreteStack(r.states[k].stack)
  {
    hide CheckPlain;
    hide CheckBool;
    hide ConcreteStack;
    hide Definite;
    var r := CheckOne(decls, ops, output, s, visited);
    forall k | 0 <= k < |r.states|
      ensures ConcreteStack(r.states[k].stack)
    {
      EdgeConcrete(decls, ops, input, s, r.states[k]);
    }
    if IsDo(ops, s.ip) {
      BoolConcrete(s.stack);
      if s.ip in visited {
        ConcreteMatches(CheckBool(s.stack).value, visited[s.ip]);
      } else {
        assert r.states[0] in all && r.states[1] in all;
      }
    } else if s.ip < |ops| && ops[s.ip].kind.If? {
      assert r.states[0] in all && r.states[1] in all;
    } else if r.states != [] {
      assert r.states[0] in all;
    }
  }

  lemma SettledGrows(decls: Declarations, ops: seq<Operation>, output: seq<Type>, done: set<CheckState>,
      all: set<CheckState>, visited: Visited,
                     all': set<CheckState>, visited': Visited)
    requires AllSettled(decls, ops, output, done, all, visited) && all <= all'
    requires forall d :: d in visited ==> d in visited' && visited'[d] == visited[d]
    ensures AllSettled(decls, ops, output, done, all', visited')
  {
    hide Stuck;
    hide Edge;
    forall s | s in done
      ensures Settled(decls, ops, output, s, all', visited')
    {
      assert Settled(decls, ops, output, s, all, visited);
    }
  }

  lemma StepKeepsVisited(decls: Declarations, ops: seq<Operation>, output: seq<Type>, s: CheckState, visited: Visited)
    requires CheckOne(decls, ops, output, s, visited).Proceed?
    ensures var r := CheckOne(decls, ops, output, s, visited); forall d :: d in visited ==>
        d in r.visited && r.visited[d] == visited[d]
  {
    hide CheckPlain;
    hide CheckBool;
  }

  lemma {:induction false} SettledReaches(decls: Declarations, ops: seq<Operation>, input: seq<Type>, output: seq<Type>,
      done: set<CheckState>, visited: Visited,
                                          path: seq<CheckState>)
    requires AllSettled(decls, ops, output, done, done, visited) && CheckState(input, 0) in done
    requires AbstractPath(decls, ops, input, path)
    ensures path[|path| - 1] in done
    decreases |path|
  {
    hide Edge;
    hide Stuck;
    if |path| > 1 {
      var init := path[..|path| - 1];
      assert AbstractPath(decls, ops, input, init);
      SettledReaches(decls, ops, input, output, done, visited, init);
      assert Settled(decls, ops, output, init[|init| - 1], done, visited);
      assert Edge(decls, ops, path[|path| - 2], path[|path| - 2 + 1]);
    }
  }

  /** When everything dealt with is settled and nothing is left, nothing reachable is at fault. */
  lemma SettledIsFaultless(decls: Declarations, ops: seq<Operation>, input: seq<Type>, output: seq<Type>,
      done: set<CheckState>, visited: Visited)
    requires AllSettled(decls, ops, output, done, done, visited) && CheckState(input, 0) in done
    ensures !Faulty(decls, ops, input, output)
  {
    hide Edge;
    hide Stuck;
    hide CheckBool;
    forall s | Reached(decls, ops, input, s)
      ensures s in done && Settled(decls, ops, output, s, done, visited)
    {
      var path :| AbstractPath(decls, ops, input, path) && path[|path| - 1] == s;
      SettledReaches(decls, ops, input, output, done, visited, path);
    }
    SelfMatches();
  }

  lemma SelfMatches()
    ensures forall st :: OutputMatches(st, st)
  {
  }

  function StateSet(states: seq<CheckState>): set<CheckState> {
    set k | 0 <= k < |states| :: states[k]
  }

  /** The worklist as far as it has come, on a body without `Any`. */
  ghost predicate Complete(decls: Declarations, ops: seq<Operation>, input: seq<Type>, output: seq<Type>,
      done: set<CheckState>, states: seq<CheckState>, visited: Visited) {
    Definite(decls, ops, input) ==>
      && CheckState(input, 0) in done + StateSet(states)
      && (forall k :: 0 <= k < |states| ==> ConcreteStack(states[k].stack))
      && AllSettled(decls, ops, output, done, done + StateSet(states), visited)
      && Expanded(ops, visited, done + StateSet(states))
  }

  lemma StaysComplete(decls: Declarations, ops: seq<Operation>, input: seq<Type>, output: seq<Type>,
      done: set<CheckState>, states: seq<CheckState>, visited: Visited)
    requires states != [] && Complete(decls, ops, input, output, done, states, visited)
    requires CheckOne(decls, ops, output, states[|states| - 1], visited).Proceed?
    ensures var s := states[|states| - 1];
      var r := CheckOne(decls, ops, output, s, visited);
      Complete(decls, ops, input, output, done + {s}, states[..|states| - 1] + r.states, r.visited)
  {
    hide CheckOne;
    hide Definite;
    hide ConcreteStack;
    hide Settled;
    if Definite(decls, ops, input) {
      var s := states[|states| - 1];
      var r := CheckOne(decls, ops, output, s, visited);
      var states' := states[..|states| - 1] + r.states;
      var all, all' := done + StateSet(states), done + {s} + StateSet(states');
      SetsMove(states, r.states);
      assert all <= all';
      ExpandedGrows(ops, visited, all, all');
      StepSettles(decls, ops, input, output, s, visited, all');
      StepKeepsVisited(decls, ops, output, s, visited);
      SettledGrows(decls, ops, output, done, all, visited, all', r.visited);
    }
  }

  lemma SetsMove(states: seq<CheckState>, more: seq<CheckState>)
    requires states != []
    ensures var s := states[|states| - 1];
      var states' := states[..|states| - 1] + more;
      StateSet(states) <= StateSet(states') + {s} && forall k :: 0 <= k < |more| ==> more[k] in StateSet(states')
  {
    var states' := states[..|states| - 1] + more;
    forall k | 0 <= k < |states| - 1
      ensures states[k] in StateSet(states')
    {
      assert states'[k] == states[k];
    }
    forall k | 0 <= k < |more|
      ensures more[k] in StateSet(states')
    {
      assert states'[|states| - 1 + k] == more[k];
    }
  }

  lemma ExpandedGrows(ops: seq<Operation>, visited: Visited, all: set<CheckState>, all': set<CheckState>)
    requires Expanded(ops, visited, all) && all <= all'
    ensures Expanded(ops, visited, all')
  {
    hide ConcreteStack;
  }

  lemma StartsComplete(decls: Declarations, ops: seq<Operation>, input: seq<Type>, output: seq<Type>)
    ensures Complete(decls, ops, input, output, {}, [CheckState(input, 0)], map[])
  {
    assert [CheckState(input, 0)][0] in StateSet([CheckState(input, 0)]);
  }

  lemma EndsComplete(decls: Declarations, ops: seq<Operation>, input: seq<Type>, output: seq<Type>,
      done: set<CheckState>, visited: Visited)
    requires Complete(decls, ops, input, output, done, [], visited) && Definite(decls, ops, input)
    ensures !Faulty(decls, ops, input, output)
  {
    hide AllSettled;
    assert done + StateSet([]) == done;
    SettledIsFaultless(decls, ops, input, output, done, visited);
  }

  /** `typecheck`: the worklist, run until it is empty or something is rejected. */
  method Typecheck(decls: Declarations, ops: seq<Operation>, input: seq<Type>, output: seq<Type>, ghost b: Block)
      returns (accepted: bool)
    requires ops == Link(b, 0)
    ensures accepted ==> HeightSafe(decls, ops, |input|, |output|)
    ensures !accepted ==> Faulty(decls, ops, input, output)
    ensures Definite(decls, ops, input) ==> (accepted <==> !Faulty(decls, ops, input, output))
  {
    hide Complete;
    hide Definite;
    hide CheckOne;
    hide Reached;
    hide HeightsOk;
    hide VisitedOk;
    hide VisitedReached;
    hide Faulty;
    hide Weight;
    hide Ranked;
    hide Link;
    hide Ranks;
    hide Unexpanded;
    ghost var rank := Ranks(b, 0) + [0];
    LinkRanked(b);
    ghost var covered: Heights := {(|ops|, |output|)};
    var states := [CheckState(input, 0)];
    var visited: Visited := map[];
    ghost var done: set<CheckState> := {};
    StartsWell(decls, ops, input, output);
    StartsComplete(decls, ops, input, output);
    while states != []
      invariant forall k :: 0 <= k < |states| ==> states[k].ip <= |ops|
      invariant (0, |input|) in covered + Pending(states) && (|ops|, |output|) in covered
      invariant HeightsOk(decls, ops, |output|, covered, covered + Pending(states))
      invariant VisitedOk(ops, visited, covered + Pending(states))
      invariant AllReached(decls, ops, input, states) && VisitedReached(decls, ops, input, visited)
      invariant Complete(decls, ops, input, output, done, states, visited)
      decreases Unexpanded(ops, visited), Weight(rank, states)
    {
      var s := states[|states|-1];
      var r := CheckOne(decls, ops, output, s, visited);
      StepReaches(decls, ops, input, output, s, visited);
      if r.Reject? {
        return false;
      }
      CheckProgresses(decls, ops, output, rank, states, visited);
      StaysComplete(decls, ops, input, output, done, states, visited);
      var states' := states[..|states|-1] + r.states;
      PendingMoves(states, r.states);
      ghost var H := covered + Pending(states);
      ghost var covered' := covered + {(s.ip, |s.stack|)};
      ghost var H' := covered' + Pending(states');
      assert H <= H';
      VisitedMonotone(ops, visited, H, H');
      StepJustified(decls, ops, output, s, visited, H');
      CoveredMonotone(decls, ops, |output|, covered, H, H');
      CoveredGrows(decls, ops, |output|, covered, H', s.ip, |s.stack|);
      states, visited, covered, done := states', r.visited, covered', done + {s};
    }
    assert covered + Pending([]) == covered;
    if Definite(decls, ops, input) {
      EndsComplete(decls, ops, input, output, done, visited);
    }
    assert SafeHeights(decls, ops, |input|, |output|, covered);
    return true;
  }

  lemma StartsWell(decls: Declarations, ops: seq<Operation>, input: seq<Type>, output: seq<Type>)
    ensures var states := [CheckState(input, 0)];
      var covered := {(|ops|, |output|)};
      && (0, |input|) in Pending(states)
      && HeightsOk(decls, ops, |output|, covered, covered + Pending(states))
      && VisitedOk(ops, map[], covered + Pending(states))
      && AllReached(decls, ops, input, states) && VisitedReached(decls, ops, input, map[])
  {
    var s := CheckState(input, 0);
    assert [s][0] == s;
    assert AbstractPath(decls, ops, input, [s]);
    assert (([s][0]).ip, |([s][0]).stack|) in Pending([s]);
  }

  lemma CoveredGrows(decls: Declarations, ops: seq<Operation>, output: nat, C: Heights, H: Heights, i: nat, h: nat)
    requires HeightsOk(decls, ops, output, C, H) && HeightOk(decls, ops, output, H, i, h)
    ensures HeightsOk(decls, ops, output, C + {(i, h)}, H)
  {
    hide HeightOk;
  }

  lemma PendingMoves(states: seq<CheckState>, more: seq<CheckState>)
    requires states != []
    ensures var s := states[|states|-1];
      var states' := states[..|states|-1] + more;
      && Pending(states) <= Pending(states') + {(s.ip, |s.stack|)}
      && Pending(more) <= Pending(states')
  {
    var states' := states[..|states|-1] + more;
    forall k | 0 <= k < |states| - 1
      ensures (states[k].ip, |states[k].stack|) in Pending(states')
    {
      assert states'[k] == states[k];
    }
    forall k | 0 <= k < |more|
      ensures (more[k].ip, |more[k].stack|) in Pending(states')
    {
      assert states'[|states| - 1 + k] == more[k];
    }
  }

  lemma VisitedMonotone(ops: seq<Operation>, visited: Visited, H: Heights, H': Heights)
    requires VisitedOk(ops, visited, H) && H <= H'
    ensures VisitedOk(ops, visited, H')
  {
  }

  lemma CoveredMonotone(decls: Declarations, ops: seq<Operation>, output: nat, C: Heights, H: Heights, H': Heights)
    requires HeightsOk(decls, ops, output, C, H) && H <= H'
    ensures HeightsOk(decls, ops, output, C, H')
  {
    hide HeightOk;
    forall x | x in C
      ensures HeightOk(decls, ops, output, H', x.0, x.1)
    {
      HeightOkMonotone(decls, ops, output, H, H', x.0, x.1);
    }
  }
}
