/**
 Jump resolution. `Crossreference` fills in the jumps of a flat operation array with one stack of
 open positions; it is proved against a forward stack parser that builds the nested block.
 */
module Crossreferencing {
  import opened Wrappers
  import opened Operations
  import opened Structured

  datatype Flaw = UnmatchedDo | UnmatchedElse | UnmatchedEnd | EndBeforeDo | Unclosed

  // ----- the reference parser -----

  datatype Opener = OpenIf | OpenElse(thn: Block) | OpenWhile | OpenDo(cond: Block)

  /** Blocks still open: what precedes each opener, and the opener. */
  datatype Levels = Bottom | Level(below: Levels, before: Block, opener: Opener)

  datatype Zipper = Zipper(levels: Levels, current: Block)

  datatype Parsed = Open(z: Zipper) | Rejected(why: Flaw)

  function Single(s: Stmt): Block {
    Seq(s, Nil)
  }

  function Close(z: Zipper): Parsed {
    match z.levels
    case Bottom => Rejected(UnmatchedEnd)
    case Level(below, before, OpenIf) => Open(Zipper(below, Append(before, Single(IfThen(z.current)))))
    case Level(below, before, OpenElse(t)) => Open(Zipper(below, Append(before, Single(IfElse(t, z.current)))))
    case Level(below, before, OpenDo(c)) => Open(Zipper(below, Append(before, Single(Loop(c, z.current)))))
    case Level(_, _, OpenWhile) => Rejected(EndBeforeDo)
  }

  function ParseKind(z: Zipper, k: Kind): Parsed {
    match k
    case Plain(p) => Open(Zipper(z.levels, Append(z.current, Single(Simple(p)))))
    case If => Open(Zipper(Level(z.levels, z.current, OpenIf), Nil))
    case While => Open(Zipper(Level(z.levels, z.current, OpenWhile), Nil))
    case Else =>
      if z.levels.Level? && z.levels.opener.OpenIf?
      then Open(Zipper(Level(z.levels.below, z.levels.before, OpenElse(z.current)), Nil))
      else Rejected(UnmatchedElse)
    case Do =>
      if z.levels.Level? && z.levels.opener.OpenWhile?
      then Open(Zipper(Level(z.levels.below, z.levels.before, OpenDo(z.current)), Nil))
      else Rejected(UnmatchedDo)
    case End => Close(z)
  }

  function Parse(z: Zipper, kinds: seq<Kind>): Parsed
    decreases |kinds|
  {
    if kinds == [] then Open(z)
    else
      var r := ParseKind(z, kinds[0]);
      if r.Rejected? then r else Parse(r.z, kinds[1..])
  }

  const EMPTY: Zipper := Zipper(Bottom, Nil)

  /** `None` when every block is properly opened and closed. */
  function ParseFlaw(kinds: seq<Kind>): Option<Flaw> {
    match Parse(EMPTY, kinds)
    case Rejected(why) => Some(why)
    case Open(z) => if z.levels.Bottom? then None else Some(Unclosed)
  }

  lemma {:induction false} ParseConcat(z: Zipper, a: seq<Kind>, b: seq<Kind>)
    ensures var r := Parse(z, a);
      Parse(z, a + b) == if r.Rejected? then r else Parse(r.z, b)
    decreases |a|
  {
    if a == [] {
      assert a + b == b;
    } else {
      assert (a + b)[0] == a[0] && (a + b)[1..] == a[1..] + b;
      var r := ParseKind(z, a[0]);
      if r.Open? {
        ParseConcat(r.z, a[1..], b);
      }
    }
  }

  lemma ParseOne(z: Zipper, k: Kind)
    ensures Parse(z, [k]) == ParseKind(z, k)
  {
    var r := ParseKind(z, k);
    if r.Open? {
      assert [k][1..] == [];
      assert Parse(r.z, []) == Open(r.z);
    }
  }

  /** Parsing the tokens of a block appends exactly that block, in any open context. */
  lemma {:induction false} ParseFlatten(z: Zipper, b: Block)
    ensures Parse(z, Flatten(b)) == Open(Zipper(z.levels, Append(z.current, b)))
    decreases b
  {
    match b
    case Nil =>
      AppendNil(z.current);
    case Seq(s, rest) =>
      ParseStmt(z, s);
      ParseConcat(z, FlattenStmt(s), Flatten(rest));
      ParseFlatten(Zipper(z.levels, Append(z.current, Single(s))), rest);
      AppendAssoc(z.current, Single(s), rest);
  }

  lemma {:induction false} ParseStmt(z: Zipper, s: Stmt)
    ensures Parse(z, FlattenStmt(s)) == Open(Zipper(z.levels, Append(z.current, Single(s))))
    decreases s, 1
  {
    match s
    case Simple(p) =>
      ParseOne(z, Plain(p));
    case IfThen(t) =>
      var z1 := ParseKind(z, If).z;
      ParseFlatten(z1, t);
      ParseOne(z, If);
      ParseConcat(z, [If], Flatten(t));
      ParseConcat(z, [If] + Flatten(t), [End]);
      ParseOne(Zipper(z1.levels, t), End);
    case IfElse(t, e) =>
      ParseBranches(z, s, If, t, Else, e);
    case Loop(c, b) =>
      ParseBranches(z, s, While, c, Do, b);
  }

  lemma {:induction false} ParseBranches(z: Zipper, s: Stmt, open: Kind, t: Block, mid: Kind, e: Block)
    requires (s == IfElse(t, e) && open == If && mid == Else) || (s == Loop(t, e) && open == While && mid == Do)
    ensures Parse(z, [open] + Flatten(t) + [mid] + Flatten(e) + [End])
         == Open(Zipper(z.levels, Append(z.current, Single(s))))
    decreases s, 0
  {
    var z1 := ParseKind(z, open).z;
    ParseFlatten(z1, t);
    var z2 := ParseKind(Zipper(z1.levels, t), mid).z;
    ParseFlatten(z2, e);
    ParseOne(z, open);
    ParseConcat(z, [open], Flatten(t));
    ParseConcat(z, [open] + Flatten(t), [mid]);
    ParseOne(Zipper(z1.levels, t), mid);
    ParseConcat(z, [open] + Flatten(t) + [mid], Flatten(e));
    ParseConcat(z, [open] + Flatten(t) + [mid] + Flatten(e), [End]);
    ParseOne(Zipper(z2.levels, e), End);
  }

  // ----- partially linked code -----

  /** The opener's own operations: the last one still waits for its jump (a `do` holds its `while`). */
  function OpenerOps(o: Opener, at: nat): seq<Operation> {
    match o
    case OpenIf => [Operation(If, NoJump)]
    case OpenWhile => [Operation(While, NoJump)]
    case OpenElse(t) =>
      [Operation(If, To(at + 2 + Size(t)))] + Link(t, at + 1) + [Operation(Else, NoJump)]
    case OpenDo(c) =>
      [Operation(While, NoJump)] + Link(c, at + 1) + [Operation(Do, To(at))]
  }

  function LinkLevels(l: Levels): seq<Operation> {
    match l
    case Bottom => []
    case Level(below, before, o) =>
      var prefix := LinkLevels(below) + Link(before, |LinkLevels(below)|);
      prefix + OpenerOps(o, |prefix|)
  }

  function LinkZipper(z: Zipper): seq<Operation> {
    LinkLevels(z.levels) + Link(z.current, |LinkLevels(z.levels)|)
  }

  /** The positions `Crossreference` keeps on its stack. */
  function OpenPositions(l: Levels): seq<nat> {
    match l
    case Bottom => []
    case Level(below, _, _) => OpenPositions(below) + [|LinkLevels(l)| - 1]
  }

  // ----- the algorithm -----

  datatype Crossed = Crossed(ops: seq<Operation>, stack: seq<nat>) | Failed(why: Flaw)

  /** One iteration at index `i`: the operations with their new jumps, and the stack of open positions. */
  function CrossStep(ops: seq<Operation>, i: nat, stack: seq<nat>): Crossed
    requires i < |ops|
    requires forall k :: 0 <= k < |stack| ==> stack[k] < |ops|
  {
    var n := |stack|;
    match ops[i].kind
    case Plain(_) => Crossed(ops, stack)
    case If => Crossed(ops, stack + [i])
    case While => Crossed(ops, stack + [i])
    case Do =>
      if n == 0 || ops[stack[n-1]].kind != While then Failed(UnmatchedDo)
      else Crossed(ops[i := ops[i].(jump := To(stack[n-1]))], stack[..n-1] + [i])
    case Else =>
      if n == 0 || ops[stack[n-1]].kind != If then Failed(UnmatchedElse)
      else
        var top := stack[n-1];
        Crossed(ops[top := ops[top].(jump := To(i + 1))], stack[..n-1] + [i])
    case End =>
      if n == 0 then Failed(UnmatchedEnd)
      else
        var top := stack[n-1];
        match ops[top].kind
        case Do => Crossed(ops[i := ops[i].(jump := ops[top].jump)][top := ops[top].(jump := To(i + 1))], stack[..n-1])
        case If => Crossed(ops[top := ops[top].(jump := To(i))][i := ops[i].(jump := To(i + 1))], stack[..n-1])
        case Else => Crossed(ops[top := ops[top].(jump := To(i))][i := ops[i].(jump := To(i + 1))], stack[..n-1])
        case Plain(_) => Failed(EndBeforeDo)
        case While => Failed(EndBeforeDo)
        case End => Failed(EndBeforeDo)
  }

  /** After `i` iterations: a linked prefix, an untouched suffix, and the open positions stacked. */
  ghost predicate Progress(ops: seq<Operation>, i: nat, stack: seq<nat>, z: Zipper) {
    && i <= |ops|
    && ops[..i] == LinkZipper(z)
    && stack == OpenPositions(z.levels)
    && forall k :: i <= k < |ops| ==> ops[k].jump == NoJump
  }

  lemma {:induction false} PositionsInRange(l: Levels)
    ensures forall k :: 0 <= k < |OpenPositions(l)| ==> OpenPositions(l)[k] < |LinkLevels(l)|
  {
    if l.Level? {
      PositionsInRange(l.below);
    }
  }

  function OpenerLast(o: Opener, at: nat): Operation {
    match o
    case OpenIf => Operation(If, NoJump)
    case OpenWhile => Operation(While, NoJump)
    case OpenElse(_) => Operation(Else, NoJump)
    case OpenDo(_) => Operation(Do, To(at))
  }

  lemma OpenerEnds(o: Opener, at: nat)
    ensures var code := OpenerOps(o, at); |code| > 0 && code[|code| - 1] == OpenerLast(o, at)
  {
    hide Link;
  }

  /** Where an opener sits and what it is. */
  lemma TopOperation(ops: seq<Operation>, i: nat, stack: seq<nat>, z: Zipper)
    requires Progress(ops, i, stack, z) && z.levels.Level?
    ensures var at := |LinkLevels(z.levels.below)| + Size(z.levels.before);
      var code := OpenerOps(z.levels.opener, at);
      && |stack| > 0 && stack[|stack|-1] == |LinkLevels(z.levels)| - 1 == at + |code| - 1 < i
      && stack[..|stack|-1] == OpenPositions(z.levels.below)
      && ops[stack[|stack|-1]] == OpenerLast(z.levels.opener, at)
  {
    hide Link;
    hide OpenerOps;
    hide OpenerLast;
    OpenerEnds(z.levels.opener, |LinkLevels(z.levels.below)| + Size(z.levels.before));
    var top := |LinkLevels(z.levels)| - 1;
    assert ops[..i][top] == LinkZipper(z)[top] == LinkLevels(z.levels)[top];
  }

  lemma LinkSnoc(b: Block, s: Stmt, at: nat)
    ensures Link(Append(b, Single(s)), at) == Link(b, at) + LinkStmt(s, at + Size(b))
  {
    LinkAppend(b, Single(s), at);
    assert Link(Single(s), at + Size(b)) == LinkStmt(s, at + Size(b)) + Link(Nil, at + Size(b) + StmtSize(s));
  }

  /** The code of a context with its current block extended by one statement. */
  lemma LinkZipperSnoc(l: Levels, b: Block, s: Stmt)
    ensures LinkZipper(Zipper(l, Append(b, Single(s))))
         == LinkZipper(Zipper(l, b)) + LinkStmt(s, |LinkLevels(l)| + Size(b))
  {
    hide LinkStmt;
    hide LinkLevels;
    hide Append;
    hide Link;
    hide Size;
    LinkSnoc(b, s, |LinkLevels(l)|);
    ConcatAssoc(LinkLevels(l), Link(b, |LinkLevels(l)|), LinkStmt(s, |LinkLevels(l)| + Size(b)));
  }

  /** Linked code before the opener on top of the stack. */
  function BeforeTop(l: Levels): seq<Operation>
    requires l.Level?
  {
    LinkLevels(l)[..|LinkLevels(l)| - 1]
  }

  lemma TopSplit(ops: seq<Operation>, i: nat, stack: seq<nat>, z: Zipper)
    requires Progress(ops, i, stack, z) && z.levels.Level?
    ensures var top := |BeforeTop(z.levels)|;
      && |stack| > 0 && stack[|stack|-1] == top < i
      && ops[..i] == BeforeTop(z.levels) + [ops[top]] + Link(z.current, top + 1)
  {
    TopOperation(ops, i, stack, z);
    var top := |BeforeTop(z.levels)|;
    assert LinkLevels(z.levels) == BeforeTop(z.levels) + [LinkLevels(z.levels)[top]];
    assert ops[top] == ops[..i][top];
  }

  /** Rewriting the opener and the operation at `i` of a split prefix. */
  lemma Rewrite(ops: seq<Operation>, i: nat, p: seq<Operation>, c: seq<Operation>, x: Operation, y: Operation)
    requires |p| < i < |ops| && ops[..i] == p + [ops[|p|]] + c
    ensures ops[|p| := x][i := y][..i + 1] == p + [x] + c + [y]
    ensures ops[i := y][|p| := x] == ops[|p| := x][i := y]
  {
    var r := ops[|p| := x][i := y];
    assert r[..i + 1] == r[..i] + [y];
    assert r[..i] == ops[..i][|p| := x];
  }

  lemma StepPlain(ops: seq<Operation>, i: nat, stack: seq<nat>, z: Zipper)
    requires Progress(ops, i, stack, z) && i < |ops| && ops[i].kind.Plain?
    ensures Progress(ops, i + 1, stack, ParseKind(z, ops[i].kind).z)
  {
    hide Link;
    hide LinkLevels;
    hide Append;
    hide OpenPositions;
    var p := ops[i].kind.plain;
    LinkZipperSnoc(z.levels, z.current, Simple(p));
    assert ops[..i + 1] == ops[..i] + [ops[i]];
    assert LinkStmt(Simple(p), |LinkLevels(z.levels)| + Size(z.current)) == [ops[i]];
  }

  lemma StepOpen(ops: seq<Operation>, i: nat, stack: seq<nat>, z: Zipper)
    requires Progress(ops, i, stack, z) && i < |ops| && (ops[i].kind.If? || ops[i].kind.While?)
    ensures Progress(ops, i + 1, stack + [i], ParseKind(z, ops[i].kind).z)
  {
    var z' := ParseKind(z, ops[i].kind).z;
    assert LinkZipper(z') == LinkZipper(z) + [ops[i]];
    assert ops[..i + 1] == ops[..i] + [ops[i]];
  }

  /** Everything of an opener but its last operation. */
  function OpenerInit(o: Opener, at: nat): seq<Operation> {
    match o
    case OpenIf => []
    case OpenWhile => []
    case OpenElse(t) => [Operation(If, To(at + 2 + Size(t)))] + Link(t, at + 1)
    case OpenDo(c) => [Operation(While, NoJump)] + Link(c, at + 1)
  }

  lemma BeforeTopSplit(l: Levels)
    requires l.Level?
    ensures var prefix := LinkZipper(Zipper(l.below, l.before));
      && |prefix| == |LinkLevels(l.below)| + Size(l.before)
      && BeforeTop(l) == prefix + OpenerInit(l.opener, |prefix|)
  {
    hide Link;
    var prefix := LinkZipper(Zipper(l.below, l.before));
    var code := OpenerOps(l.opener, |prefix|);
    assert code == OpenerInit(l.opener, |prefix|) + [code[|code|-1]];
  }

  lemma StepElse(ops: seq<Operation>, i: nat, stack: seq<nat>, z: Zipper)
    requires Progress(ops, i, stack, z) && i < |ops|
    requires forall k :: 0 <= k < |stack| ==> stack[k] < |ops|
    requires z.levels.Level? && ops[i].kind.Else? && z.levels.opener.OpenIf?
    ensures var r := CrossStep(ops, i, stack);
      r.Crossed? && |r.ops| == |ops| && Progress(r.ops, i + 1, r.stack, ParseKind(z, ops[i].kind).z)
  {
    hide Link;
    hide LinkLevels;
    hide LinkZipper;
    hide BeforeTop;
    hide OpenPositions;
    TopOperation(ops, i, stack, z);
    TopSplit(ops, i, stack, z);
    OpenedMiddle(ops, i, z, OpenElse(z.current), Operation(If, To(i + 1)), ops[i]);
    var top := |BeforeTop(z.levels)|;
    assert ops[top := Operation(If, To(i + 1))][i := ops[i]] == ops[top := Operation(If, To(i + 1))];
  }

  lemma StepDo(ops: seq<Operation>, i: nat, stack: seq<nat>, z: Zipper)
    requires Progress(ops, i, stack, z) && i < |ops|
    requires forall k :: 0 <= k < |stack| ==> stack[k] < |ops|
    requires z.levels.Level? && ops[i].kind.Do? && z.levels.opener.OpenWhile?
    ensures var r := CrossStep(ops, i, stack);
      r.Crossed? && |r.ops| == |ops| && Progress(r.ops, i + 1, r.stack, ParseKind(z, ops[i].kind).z)
  {
    hide Link;
    hide LinkLevels;
    hide LinkZipper;
    hide BeforeTop;
    hide OpenPositions;
    TopOperation(ops, i, stack, z);
    TopSplit(ops, i, stack, z);
    var top := |BeforeTop(z.levels)|;
    OpenedMiddle(ops, i, z, OpenDo(z.current), ops[top], Operation(Do, To(top)));
    assert ops[top := ops[top]] == ops;
  }

  /** The code of a context whose innermost opener `x` got its second half `y` at index `i`. */
  lemma OpenedMiddle(ops: seq<Operation>, i: nat, z: Zipper, o: Opener, x: Operation, y: Operation)
    requires z.levels.Level? && (z.levels.opener.OpenIf? || z.levels.opener.OpenWhile?)
    requires var p := BeforeTop(z.levels);
      && |p| < i < |ops| && ops[..i] == p + [ops[|p|]] + Link(z.current, |p| + 1)
      && OpenerOps(o, |p|) == [x] + Link(z.current, |p| + 1) + [y]
    ensures var l' := Level(z.levels.below, z.levels.before, o);
      && ops[|BeforeTop(z.levels)| := x][i := y][..i + 1] == LinkZipper(Zipper(l', Nil))
      && OpenPositions(l') == OpenPositions(z.levels.below) + [i]
  {
    hide Link;
    BeforeIsBelow(z.levels);
    hide BeforeTop;
    var below, before := z.levels.below, z.levels.before;
    var p := LinkLevels(below) + Link(before, |LinkLevels(below)|);
    var c := Link(z.current, |p| + 1);
    Rewrite(ops, i, p, c, x, y);
    var l' := Level(below, before, o);
    AppendMiddle(p, [x], c, [y]);
    LinkNil(|LinkLevels(l')|);
  }

  lemma AppendMiddle(p: seq<Operation>, a: seq<Operation>, b: seq<Operation>, c: seq<Operation>)
    ensures p + (a + b + c) == p + a + b + c
  {
  }

  lemma BeforeIsBelow(l: Levels)
    requires l.Level? && (l.opener.OpenIf? || l.opener.OpenWhile?)
    ensures BeforeTop(l) == LinkLevels(l.below) + Link(l.before, |LinkLevels(l.below)|)
  {
    hide Link;
  }

  lemma LinkNil(at: nat)
    ensures Link(Nil, at) == []
  {
  }

  /** The code of a context whose innermost opener was closed into statement `s` by the `end` at `i`. */
  lemma Closed(ops: seq<Operation>, i: nat, z: Zipper, s: Stmt, mid: seq<Operation>, x: Operation, y: Operation)
    requires z.levels.Level?
    requires var p := BeforeTop(z.levels);
      var prefix := LinkZipper(Zipper(z.levels.below, z.levels.before));
      && |p| < i < |ops| && ops[..i] == p + [ops[|p|]] + Link(z.current, |p| + 1)
      && p == prefix + mid
      && LinkStmt(s, |prefix|) == mid + [x] + Link(z.current, |p| + 1) + [y]
    ensures ops[|BeforeTop(z.levels)| := x][i := y][..i + 1]
         == LinkZipper(Zipper(z.levels.below, Append(z.levels.before, Single(s))))
  {
    hide Link;
    hide LinkStmt;
    hide LinkLevels;
    var below, before := z.levels.below, z.levels.before;
    var p, prefix := BeforeTop(z.levels), LinkZipper(Zipper(below, before));
    var c := Link(z.current, |p| + 1);
    Rewrite(ops, i, p, c, x, y);
    LinkZipperSnoc(below, before, s);
    assert prefix + (mid + [x] + c + [y]) == p + [x] + c + [y];
  }

  lemma CloseIf(ops: seq<Operation>, i: nat, stack: seq<nat>, z: Zipper)
    requires Progress(ops, i, stack, z) && i < |ops| && ops[i].kind.End?
    requires forall k :: 0 <= k < |stack| ==> stack[k] < |ops|
    requires z.levels.Level? && z.levels.opener.OpenIf?
    ensures var r := CrossStep(ops, i, stack);
      r.Crossed? && |r.ops| == |ops| && Progress(r.ops, i + 1, r.stack, ParseKind(z, End).z)
  {
    hide Link;
    hide LinkLevels;
    hide LinkZipper;
    hide BeforeTop;
    hide OpenPositions;
    hide OpenerOps;
    BeforeTopSplit(z.levels);
    TopOperation(ops, i, stack, z);
    TopSplit(ops, i, stack, z);
    Closed(ops, i, z, IfThen(z.current), [], Operation(If, To(i)), Operation(End, To(i + 1)));
  }

  lemma CloseElse(ops: seq<Operation>, i: nat, stack: seq<nat>, z: Zipper)
    requires Progress(ops, i, stack, z) && i < |ops| && ops[i].kind.End?
    requires forall k :: 0 <= k < |stack| ==> stack[k] < |ops|
    requires z.levels.Level? && z.levels.opener.OpenElse?
    ensures var r := CrossStep(ops, i, stack);
      r.Crossed? && |r.ops| == |ops| && Progress(r.ops, i + 1, r.stack, ParseKind(z, End).z)
  {
    hide Link;
    hide LinkLevels;
    hide LinkZipper;
    hide BeforeTop;
    hide OpenPositions;
    hide OpenerOps;
    BeforeTopSplit(z.levels);
    TopOperation(ops, i, stack, z);
    TopSplit(ops, i, stack, z);
    var prefix := LinkZipper(Zipper(z.levels.below, z.levels.before));
    var t := z.levels.opener.thn;
    var mid := [Operation(If, To(|prefix| + 2 + Size(t)))] + Link(t, |prefix| + 1);
    Closed(ops, i, z, IfElse(t, z.current), mid, Operation(Else, To(i)), Operation(End, To(i + 1)));
  }

  lemma CloseDo(ops: seq<Operation>, i: nat, stack: seq<nat>, z: Zipper)
    requires Progress(ops, i, stack, z) && i < |ops| && ops[i].kind.End?
    requires forall k :: 0 <= k < |stack| ==> stack[k] < |ops|
    requires z.levels.Level? && z.levels.opener.OpenDo?
    ensures var r := CrossStep(ops, i, stack);
      r.Crossed? && |r.ops| == |ops| && Progress(r.ops, i + 1, r.stack, ParseKind(z, End).z)
  {
    hide Link;
    hide LinkLevels;
    hide LinkZipper;
    hide BeforeTop;
    hide OpenPositions;
    hide OpenerOps;
    BeforeTopSplit(z.levels);
    TopOperation(ops, i, stack, z);
    TopSplit(ops, i, stack, z);
    var prefix := LinkZipper(Zipper(z.levels.below, z.levels.before));
    var c := z.levels.opener.cond;
    var mid := [Operation(While, NoJump)] + Link(c, |prefix| + 1);
    var p := BeforeTop(z.levels);
    Closed(ops, i, z, Loop(c, z.current), mid, Operation(Do, To(i + 1)), Operation(End, To(|prefix|)));
    assert ops[i := Operation(End, To(|prefix|))][|p| := Operation(Do, To(i + 1))]
        == ops[|p| := Operation(Do, To(i + 1))][i := Operation(End, To(|prefix|))];
  }

  lemma StackInRange(ops: seq<Operation>, i: nat, stack: seq<nat>, z: Zipper)
    requires Progress(ops, i, stack, z)
    ensures i <= |ops| && forall k :: 0 <= k < |stack| ==> stack[k] < |ops|
    ensures z.levels.Bottom? ==> stack == []
  {
    hide Link;
    PositionsInRange(z.levels);
    assert |LinkLevels(z.levels)| <= |LinkZipper(z)| == i;
  }

  /** One iteration does to the operations what one token does to the parser. */
  lemma StepAgrees(ops: seq<Operation>, i: nat, stack: seq<nat>, z: Zipper)
    requires Progress(ops, i, stack, z) && i < |ops|
    ensures forall k :: 0 <= k < |stack| ==> stack[k] < |ops|
    ensures var r := CrossStep(ops, i, stack);
      match ParseKind(z, ops[i].kind)
      case Rejected(why) => r == Failed(why)
      case Open(z') => r.Crossed? && |r.ops| == |ops| && Progress(r.ops, i + 1, r.stack, z')
  {
    hide Progress;
    hide LinkLevels;
    hide OpenerOps;
    hide Append;
    hide Size;
    StackInRange(ops, i, stack, z);
    if z.levels.Level? {
      TopOperation(ops, i, stack, z);
    }
    match ops[i].kind
    case Plain(_) => StepPlain(ops, i, stack, z);
    case If => StepOpen(ops, i, stack, z);
    case While => StepOpen(ops, i, stack, z);
    case Else =>
      if z.levels.Level? && z.levels.opener.OpenIf? {
        StepElse(ops, i, stack, z);
      }
    case Do =>
      if z.levels.Level? && z.levels.opener.OpenWhile? {
        StepDo(ops, i, stack, z);
      }
    case End =>
      if z.levels.Level? {
        match z.levels.opener
        case OpenIf => CloseIf(ops, i, stack, z);
        case OpenElse(_) => CloseElse(ops, i, stack, z);
        case OpenDo(_) => CloseDo(ops, i, stack, z);
        case OpenWhile =>
      }
  }

  /** Token sequences of blocks, and only those, are accepted; the block is unique. */
  lemma AcceptedExactlyBlocks(kinds: seq<Kind>)
    ensures forall b :: Flatten(b) == kinds ==> Parse(EMPTY, kinds) == Open(Zipper(Bottom, b))
    ensures ParseFlaw(kinds) == None <==> exists b :: Flatten(b) == kinds
  {
    forall b | Flatten(b) == kinds
      ensures Parse(EMPTY, kinds) == Open(Zipper(Bottom, b))
    {
      ParseFlatten(EMPTY, b);
    }
    if ParseFlaw(kinds) == None {
      var b := AcceptedSpells(kinds);
    }
    if b :| Flatten(b) == kinds {
      assert Parse(EMPTY, kinds) == Open(Zipper(Bottom, b));
    }
  }

  lemma AcceptedSpells(kinds: seq<Kind>) returns (b: Block)
    requires ParseFlaw(kinds) == None
    ensures Flatten(b) == kinds
  {
    hide Flatten;
    ParseSound(EMPTY, kinds);
    var z := Parse(EMPTY, kinds).z;
    b := z.current;
    FlattenNil();
    assert FlattenZipper(EMPTY) == [];
    assert [] + kinds == kinds;
    assert FlattenZipper(z) == [] + Flatten(b) == Flatten(b);
  }

  lemma FlattenNil()
    ensures Flatten(Nil) == []
  {
  }

  // ----- what the parser has read -----

  function FlattenLevels(l: Levels): seq<Kind> {
    match l
    case Bottom => []
    case Level(below, before, OpenIf) => FlattenLevels(below) + Flatten(before) + [If]
    case Level(below, before, OpenWhile) => FlattenLevels(below) + Flatten(before) + [While]
    case Level(below, before, OpenElse(t)) => FlattenLevels(below) + Flatten(before) + ([If] + Flatten(t) + [Else])
    case Level(below, before, OpenDo(c)) => FlattenLevels(below) + Flatten(before) + ([While] + Flatten(c) + [Do])
  }

  function FlattenZipper(z: Zipper): seq<Kind> {
    FlattenLevels(z.levels) + Flatten(z.current)
  }

  lemma FlattenSnoc(b: Block, s: Stmt)
    ensures Flatten(Append(b, Single(s))) == Flatten(b) + FlattenStmt(s)
  {
    FlattenAppend(b, Single(s));
    assert Flatten(Single(s)) == FlattenStmt(s) + Flatten(Nil);
  }

  lemma ParseKindReads(z: Zipper, k: Kind)
    ensures var r := ParseKind(z, k);
      r.Open? ==> FlattenZipper(r.z) == FlattenZipper(z) + [k]
  {
    match k
    case Plain(p) =>
      FlattenSnoc(z.current, Simple(p));
    case If =>
    case While =>
    case Else =>
    case Do =>
    case End =>
      if z.levels.Level? && !z.levels.opener.OpenWhile? {
        CloseReads(z);
      }
  }

  lemma CloseReads(z: Zipper)
    requires z.levels.Level? && !z.levels.opener.OpenWhile?
    ensures FlattenZipper(Close(z).z) == FlattenZipper(z) + [End]
  {
    hide Flatten;
    var l, c := z.levels, z.current;
    var s := match l.opener case OpenIf => IfThen(c) case OpenElse(t) => IfElse(t, c) case OpenDo(d) => Loop(d, c);
    FlattenSnoc(l.before, s);
  }

  /** The parser's zipper spells out exactly the tokens read so far. */
  lemma {:induction false} ParseSound(z: Zipper, kinds: seq<Kind>)
    ensures var r := Parse(z, kinds);
      r.Open? ==> FlattenZipper(r.z) == FlattenZipper(z) + kinds
    decreases |kinds|
  {
    if kinds != [] {
      var r := ParseKind(z, kinds[0]);
      if r.Open? {
        ParseKindReads(z, kinds[0]);
        ParseSound(r.z, kinds[1..]);
        assert kinds == [kinds[0]] + kinds[1..];
      }
    }
  }

  // ----- the method -----

  /** The body of the loop: resolves or stacks the operation at `i`. */
  method CrossreferenceAt(ops: array<Operation>, i: nat, stack: seq<nat>) returns (failure: Option<Flaw>,
      stack': seq<nat>)
    requires i < ops.Length
    requires forall k :: 0 <= k < |stack| ==> stack[k] < ops.Length
    modifies ops
    ensures match CrossStep(old(ops[..]), i, stack)
      case Failed(why) => failure == Some(why) && ops[..] == old(ops[..])
      case Crossed(ops', s) => failure == None && ops[..] == ops' && stack' == s
    ensures Kinds(ops[..]) == Kinds(old(ops[..]))
  {
    var n := |stack|;
    failure, stack' := None, stack;
    match ops[i].kind {
      case Do =>
        if n == 0 || ops[stack[n-1]].kind != While {
          failure := Some(UnmatchedDo);
        } else {
          ops[i] := ops[i].(jump := To(stack[n-1]));
          stack' := stack[..n-1] + [i];
        }
      case While =>
        stack' := stack + [i];
      case If =>
        stack' := stack + [i];
      case Else =>
        if n == 0 || ops[stack[n-1]].kind != If {
          failure := Some(UnmatchedElse);
        } else {
          ops[stack[n-1]] := ops[stack[n-1]].(jump := To(i + 1));
          stack' := stack[..n-1] + [i];
        }
      case End =>
        if n == 0 {
          failure := Some(UnmatchedEnd);
        } else {
          var top := stack[n-1];
          match ops[top].kind {
            case If =>
              ops[top] := ops[top].(jump := To(i));
              ops[i] := ops[i].(jump := To(i + 1));
              stack' := stack[..n-1];
            case Else =>
              ops[top] := ops[top].(jump := To(i));
              ops[i] := ops[i].(jump := To(i + 1));
              stack' := stack[..n-1];
            case Do =>
              ops[i] := ops[i].(jump := ops[top].jump);
              ops[top] := ops[top].(jump := To(i + 1));
              stack' := stack[..n-1];
            case _ =>
              failure := Some(EndBeforeDo);
          }
        }
      case Plain(_) =>
    }
  }

  /** One more token of a known sequence. */
  lemma ParseNext(kinds: seq<Kind>, i: nat, z: Zipper)
    requires i < |kinds| && Parse(EMPTY, kinds[..i]) == Open(z)
    ensures Parse(EMPTY, kinds[..i+1]) == ParseKind(z, kinds[i])
    ensures ParseKind(z, kinds[i]).Rejected? ==> Parse(EMPTY, kinds) == ParseKind(z, kinds[i])
  {
    assert kinds[..i+1] == kinds[..i] + [kinds[i]];
    assert kinds == kinds[..i+1] + kinds[i+1..];
    ParseConcat(EMPTY, kinds[..i], [kinds[i]]);
    ParseOne(z, kinds[i]);
    ParseConcat(EMPTY, kinds[..i+1], kinds[i+1..]);
  }

  /**
   `parser::crossreference`: one pass with a stack of open positions. It accepts exactly the token
   orders of nested blocks, and what it accepts becomes the linked code of that block.
   */
  method Crossreference(ops: array<Operation>) returns (flaw: Option<Flaw>)
    requires forall k :: 0 <= k < ops.Length ==> ops[k].jump == NoJump
    modifies ops
    ensures flaw == ParseFlaw(Kinds(old(ops[..])))
    ensures flaw == None <==> exists b :: Flatten(b) == Kinds(old(ops[..]))
    ensures forall b :: Flatten(b) == Kinds(old(ops[..])) ==> ops[..] == Link(b, 0)
  {
    hide Flatten;
    hide Link;
    hide Parse;
    hide ParseKind;
    hide Progress;
    hide LinkZipper;
    ghost var kinds := Kinds(ops[..]);
    AcceptedExactlyBlocks(kinds);
    StartsEmpty(ops[..], kinds);
    ghost var z := EMPTY;
    var stack: seq<nat> := [];
    var i := 0;
    while i < ops.Length
      invariant i <= ops.Length
      invariant Kinds(ops[..]) == kinds
      invariant Progress(ops[..], i, stack, z)
      invariant Parse(EMPTY, kinds[..i]) == Open(z)
    {
      StepAgrees(ops[..], i, stack, z);
      ParseNext(kinds, i, z);
      var failure;
      failure, stack := CrossreferenceAt(ops, i, stack);
      if failure.Some? {
        return failure;
      }
      z := ParseKind(z, kinds[i]).z;
      i := i + 1;
    }
    assert kinds[..i] == kinds;
    AllRead(ops[..], kinds, stack, z);
    flaw := if stack == [] then None else Some(Unclosed);
  }

  lemma StartsEmpty(ops: seq<Operation>, kinds: seq<Kind>)
    requires forall k :: 0 <= k < |ops| ==> ops[k].jump == NoJump
    ensures Progress(ops, 0, [], EMPTY) && Parse(EMPTY, kinds[..0]) == Open(EMPTY)
  {
  }

  /** Behind the last token: unclosed openers are the only flaw left, and without them the code is linked. */
  lemma AllRead(ops: seq<Operation>, kinds: seq<Kind>, stack: seq<nat>, z: Zipper)
    requires Progress(ops, |ops|, stack, z) && Parse(EMPTY, kinds) == Open(z)
    ensures ParseFlaw(kinds) == if stack == [] then None else Some(Unclosed)
    ensures forall b :: Flatten(b) == kinds ==> ops == Link(b, 0)
  {
    hide Parse;
    AcceptedExactlyBlocks(kinds);
    assert ops[..|ops|] == ops;
    forall b | Flatten(b) == kinds
      ensures ops == Link(b, 0)
    {
      assert z == Zipper(Bottom, b);
      assert LinkZipper(z) == [] + Link(b, 0);
    }
  }
}
