/** Blocks in context: where a piece of source sits in linked code, and what jumps around it. */
module Contexts {
  import opened Words
  import opened Operations
  import opened Structured
  import opened Simulation
  import opened FoldCorrectness
  import opened Conditions
  import opened BranchRewriting
  import opened LoopRewriting

  /** A place in a block, at any depth. */
  datatype Path =
    | Spot(pre: Block, post: Block)
    | InThen(pre: Block, inner: Path, post: Block)
    | InThenElse(pre: Block, inner: Path, els: Block, post: Block)
    | InElse(pre: Block, thn: Block, inner: Path, post: Block)
    | InCond(pre: Block, inner: Path, body: Block, post: Block)
    | InBody(pre: Block, cond: Block, inner: Path, post: Block)

  function Plug(path: Path, unit: Block): Block {
    match path
    case Spot(pre, post) => Append(pre, Append(unit, post))
    case InThen(pre, inner, post) => Append(pre, Seq(IfThen(Plug(inner, unit)), post))
    case InThenElse(pre, inner, els, post) => Append(pre, Seq(IfElse(Plug(inner, unit), els), post))
    case InElse(pre, thn, inner, post) => Append(pre, Seq(IfElse(thn, Plug(inner, unit)), post))
    case InCond(pre, inner, body, post) => Append(pre, Seq(Loop(Plug(inner, unit), body), post))
    case InBody(pre, cond, inner, post) => Append(pre, Seq(Loop(cond, Plug(inner, unit)), post))
  }

  /** Where the plugged block starts. */
  function Offset(path: Path): nat {
    match path
    case Spot(pre, _) => Size(pre)
    case InThen(pre, inner, _) => Size(pre) + 1 + Offset(inner)
    case InThenElse(pre, inner, _, _) => Size(pre) + 1 + Offset(inner)
    case InElse(pre, thn, inner, _) => Size(pre) + 2 + Size(thn) + Offset(inner)
    case InCond(pre, inner, _, _) => Size(pre) + 1 + Offset(inner)
    case InBody(pre, cond, inner, _) => Size(pre) + 2 + Size(cond) + Offset(inner)
  }

  /** The place is not inside a branch or a loop body: every block around it is a loop's condition. */
  predicate OnlyConditions(path: Path) {
    match path
    case Spot(_, _) => true
    case InCond(_, inner, _, _) => OnlyConditions(inner)
    case _ => false
  }

  // ----- jumps around a place -----

  /** No jump lands strictly between `lo` and `hi`. */
  ghost predicate Avoids(ops: seq<Operation>, lo: nat, hi: nat) {
    forall k :: 0 <= k < |ops| && ops[k].jump.To? ==> ops[k].jump.target <= lo || hi <= ops[k].jump.target
  }

  lemma AvoidsConcat(a: seq<Operation>, b: seq<Operation>, lo: nat, hi: nat)
    requires Avoids(a, lo, hi) && Avoids(b, lo, hi)
    ensures Avoids(a + b, lo, hi)
  {
  }

  lemma AvoidsOne(op: Operation, lo: nat, hi: nat)
    requires op.jump.To? ==> op.jump.target <= lo || hi <= op.jump.target
    ensures Avoids([op], lo, hi)
  {
  }

  lemma LinkAvoids(b: Block, at: nat, lo: nat, hi: nat)
    requires at + Size(b) <= lo || hi <= at
    ensures Avoids(Link(b, at), lo, hi)
  {
    LinkAnchored(b, at);
    var code := Link(b, at);
    forall k | 0 <= k < |code| && code[k].jump.To?
      ensures code[k].jump.target <= lo || hi <= code[k].jump.target
    {
      assert AnchoredAt(code, at, code[k].jump.target);
    }
  }

  /** Code placed at `at` is `a`, the code of `unit` at `w`, and `z`, and neither `a` nor `z` jumps into the middle. */
  ghost predicate Split(ops: seq<Operation>, at: nat, w: nat, unit: Block, a: seq<Operation>, z: seq<Operation>) {
    && ops == a + Link(unit, w) + z && w == at + |a|
    && Avoids(a, w, w + Size(unit)) && Avoids(z, w, w + Size(unit))
  }

  lemma Embed(l: seq<Operation>, m: seq<Operation>, r: seq<Operation>, at: nat, w: nat, unit: Block, a: seq<Operation>,
      z: seq<Operation>)
    requires Split(m, at + |l|, w, unit, a, z)
    requires Avoids(l, at + |l|, at + |l| + |m|) && Avoids(r, at + |l|, at + |l| + |m|)
    ensures Split(l + m + r, at, w, unit, l + a, z + r)
  {
    hide Link;
    assert l + m + r == (l + a) + Link(unit, w) + (z + r);
  }

  lemma LinkAround(pre: Block, s: Stmt, post: Block, at: nat)
    ensures var p := at + Size(pre);
      Link(Append(pre, Seq(s, post)), at) == Link(pre, at) + LinkStmt(s, p) + Link(post, p + StmtSize(s))
  {
    hide LinkStmt;
    hide StmtSize;
    LinkAppend(pre, Seq(s, post), at);
    var p := at + Size(pre);
    assert Link(Seq(s, post), p) == LinkStmt(s, p) + Link(post, p + StmtSize(s));
    ConcatAssoc(Link(pre, at), LinkStmt(s, p), Link(post, p + StmtSize(s)));
  }

  lemma LinkSpot(pre: Block, unit: Block, post: Block, at: nat)
    ensures var p := at + Size(pre);
      Link(Append(pre, Append(unit, post)), at) == Link(pre, at) + Link(unit, p) + Link(post, p + Size(unit))
  {
    hide Link;
    var p := at + Size(pre);
    LinkAppend(pre, Append(unit, post), at);
    LinkAppend(unit, post, p);
    ConcatAssoc(Link(pre, at), Link(unit, p), Link(post, p + Size(unit)));
  }

  // ----- every place splits linked code -----

  lemma Regroup(a: seq<Operation>, x: seq<Operation>, m: seq<Operation>, y: seq<Operation>, z: seq<Operation>)
    ensures a + (x + m + y) + z == (a + x) + m + (y + z)
  {
  }

  /** What a statement with a hole puts before and behind the hole; `p` is its own place. */
  function Before(path: Path, p: nat, inside: nat): seq<Operation>
    requires !path.Spot?
  {
    match path
    case InThen(_, _, _) => [Operation(If, To(p + 1 + inside))]
    case InThenElse(_, _, _, _) => [Operation(If, To(p + 2 + inside))]
    case InElse(_, thn, _, _) =>
      var els := p + 1 + Size(thn);
      [Operation(If, To(els + 1))] + Link(thn, p + 1) + [Operation(Else, To(els + 1 + inside))]
    case InCond(_, _, _, _) => [Operation(While, NoJump)]
    case InBody(_, cond, _, _) =>
      var do := p + 1 + Size(cond);
      [Operation(While, NoJump)] + Link(cond, p + 1) + [Operation(Do, To(do + 2 + inside))]
  }

  function Behind(path: Path, p: nat, inside: nat): seq<Operation>
    requires !path.Spot?
  {
    match path
    case InThen(_, _, _) => [Operation(End, To(p + 2 + inside))]
    case InThenElse(_, _, els, _) =>
      var mid := p + 1 + inside;
      var end := mid + 1 + Size(els);
      [Operation(Else, To(end))] + Link(els, mid + 1) + [Operation(End, To(end + 1))]
    case InElse(_, thn, _, _) => [Operation(End, To(p + 3 + Size(thn) + inside))]
    case InCond(_, _, body, _) =>
      var do := p + 1 + inside;
      var end := do + 1 + Size(body);
      [Operation(Do, To(end + 1))] + Link(body, do + 1) + [Operation(End, To(p))]
    case InBody(_, cond, _, _) => [Operation(End, To(p))]
  }

  function Holder(path: Path, b: Block): Stmt
    requires !path.Spot?
  {
    match path
    case InThen(_, _, _) => IfThen(b)
    case InThenElse(_, _, els, _) => IfElse(b, els)
    case InElse(_, thn, _, _) => IfElse(thn, b)
    case InCond(_, _, body, _) => Loop(b, body)
    case InBody(_, cond, _, _) => Loop(cond, b)
  }

  lemma Group(x: seq<Operation>, a: seq<Operation>, y: seq<Operation>, b: seq<Operation>, z: seq<Operation>)
    ensures x + a + y + b + z == x + a + (y + b + z)
  {
  }

  lemma IfElseUnfolds(t: Block, e: Block, p: nat)
    ensures var els := p + 1 + Size(t);
      var end := els + 1 + Size(e);
      LinkStmt(IfElse(t, e), p) == [Operation(If, To(els + 1))] + Link(t, p + 1) + [Operation(Else, To(end))]
                                 + Link(e, els + 1) + [Operation(End, To(end + 1))]
    ensures StmtSize(IfElse(t, e)) == Size(t) + Size(e) + 3
  {
    hide Link;
  }

  lemma LoopUnfolds(c: Block, b: Block, p: nat)
    ensures var do := p + 1 + Size(c);
      var end := do + 1 + Size(b);
      LinkStmt(Loop(c, b), p) == [Operation(While, NoJump)] + Link(c, p + 1) + [Operation(Do, To(end + 1))]
                               + Link(b, do + 1) + [Operation(End, To(p))]
    ensures StmtSize(Loop(c, b)) == Size(c) + Size(b) + 3
  {
    hide Link;
  }

  lemma IfThenUnfolds(t: Block, p: nat)
    ensures LinkStmt(IfThen(t), p) == [Operation(If, To(p + 1 + Size(t)))] + Link(t, p + 1)
        + [Operation(End, To(p + 2 + Size(t)))]
    ensures StmtSize(IfThen(t)) == Size(t) + 2
  {
    hide Link;
  }

  lemma {:induction false} HolderCode(path: Path, b: Block, p: nat)
    requires !path.Spot?
    ensures HolderSplits(path, b, p)
  {
    hide HolderSplits;
    match path
    case InThen(_, _, _) => ThenCode(path, b, p);
    case InElse(_, thn, _, _) => ElseCode(path, b, p);
    case InBody(_, cond, _, _) => BodyCode(path, b, p);
    case InThenElse(_, _, els, _) => ThenElseSplits(path, b, p);
    case InCond(_, _, body, _) => CondSplits(path, b, p);
  }

  ghost predicate HolderSplits(path: Path, b: Block, p: nat)
    requires !path.Spot?
  {
    var x, y := Before(path, p, Size(b)), Behind(path, p, Size(b));
    && LinkStmt(Holder(path, b), p) == x + Link(b, p + |x|) + y
    && StmtSize(Holder(path, b)) == |x| + Size(b) + |y|
  }

  lemma {:induction false} ThenCode(path: Path, b: Block, p: nat)
    requires path.InThen?
    ensures HolderSplits(path, b, p)
  {
    hide Link;
    hide LinkStmt;
    hide StmtSize;
    IfThenUnfolds(b, p);
  }

  lemma {:induction false} ThenElseSplits(path: Path, b: Block, p: nat)
    requires path.InThenElse?
    ensures HolderSplits(path, b, p)
  {
    hide Link;
    hide LinkStmt;
    hide StmtSize;
    ThenElseCode(b, path.els, p);
  }

  lemma {:induction false} CondSplits(path: Path, b: Block, p: nat)
    requires path.InCond?
    ensures HolderSplits(path, b, p)
  {
    hide Link;
    hide LinkStmt;
    hide StmtSize;
    CondCode(b, path.body, p);
  }

  lemma {:induction false} ElseCode(path: Path, b: Block, p: nat)
    requires path.InElse?
    ensures HolderSplits(path, b, p)
  {
    hide Link;
    hide LinkStmt;
    hide StmtSize;
    IfElseUnfolds(path.thn, b, p);
    assert |Before(path, p, Size(b))| == 2 + Size(path.thn);
  }

  lemma {:induction false} BodyCode(path: Path, b: Block, p: nat)
    requires path.InBody?
    ensures HolderSplits(path, b, p)
  {
    hide Link;
    hide LinkStmt;
    hide StmtSize;
    LoopUnfolds(path.cond, b, p);
    assert |Before(path, p, Size(b))| == 2 + Size(path.cond);
  }

  lemma ThenElseCode(b: Block, els: Block, p: nat)
    ensures var mid := p + 1 + Size(b);
      var end := mid + 1 + Size(els);
      LinkStmt(IfElse(b, els), p) == [Operation(If, To(mid + 1))] + Link(b, p + 1)
        + ([Operation(Else, To(end))] + Link(els, mid + 1) + [Operation(End, To(end + 1))])
    ensures StmtSize(IfElse(b, els)) == Size(b) + Size(els) + 3
  {
    hide Link;
    hide LinkStmt;
    hide StmtSize;
    var mid := p + 1 + Size(b);
    var end := mid + 1 + Size(els);
    IfElseUnfolds(b, els, p);
    Group([Operation(If, To(mid + 1))], Link(b, p + 1), [Operation(Else, To(end))], Link(els, mid + 1),
        [Operation(End, To(end + 1))]);
  }

  lemma CondCode(b: Block, body: Block, p: nat)
    ensures var do := p + 1 + Size(b);
      var end := do + 1 + Size(body);
      LinkStmt(Loop(b, body), p) == [Operation(While, NoJump)] + Link(b, p + 1)
        + ([Operation(Do, To(end + 1))] + Link(body, do + 1) + [Operation(End, To(p))])
    ensures StmtSize(Loop(b, body)) == Size(b) + Size(body) + 3
  {
    hide Link;
    hide LinkStmt;
    hide StmtSize;
    var do := p + 1 + Size(b);
    var end := do + 1 + Size(body);
    LoopUnfolds(b, body, p);
    Group([Operation(While, NoJump)], Link(b, p + 1), [Operation(Do, To(end + 1))], Link(body, do + 1),
        [Operation(End, To(p))]);
  }

  lemma BeforeAvoids(path: Path, p: nat, inside: nat)
    requires !path.Spot?
    ensures var x := Before(path, p, inside); Avoids(x, p + |x|, p + |x| + inside)
  {
    hide Link;
    hide Avoids;
    var x := Before(path, p, inside);
    var lo, hi := p + |x|, p + |x| + inside;
    match path
    case InThen(_, _, _) => AvoidsOne(Operation(If, To(p + 1 + inside)), lo, hi);
    case InThenElse(_, _, _, _) => AvoidsOne(Operation(If, To(p + 2 + inside)), lo, hi);
    case InCond(_, _, _, _) => AvoidsOne(Operation(While, NoJump), lo, hi);
    case InElse(_, thn, _, _) =>
      var els := p + 1 + Size(thn);
      AvoidsOne(Operation(If, To(els + 1)), lo, hi);
      AvoidsOne(Operation(Else, To(els + 1 + inside)), lo, hi);
      LinkAvoids(thn, p + 1, lo, hi);
      AvoidsConcat([Operation(If, To(els + 1))], Link(thn, p + 1), lo, hi);
      AvoidsConcat([Operation(If, To(els + 1))] + Link(thn, p + 1), [Operation(Else, To(els + 1 + inside))], lo, hi);
    case InBody(_, cond, _, _) =>
      var do := p + 1 + Size(cond);
      AvoidsOne(Operation(While, NoJump), lo, hi);
      AvoidsOne(Operation(Do, To(do + 2 + inside)), lo, hi);
      LinkAvoids(cond, p + 1, lo, hi);
      AvoidsConcat([Operation(While, NoJump)], Link(cond, p + 1), lo, hi);
      AvoidsConcat([Operation(While, NoJump)] + Link(cond, p + 1), [Operation(Do, To(do + 2 + inside))], lo, hi);
  }

  lemma BehindAvoids(path: Path, p: nat, inside: nat)
    requires !path.Spot?
    ensures var x := Before(path, p, inside); Avoids(Behind(path, p, inside), p + |x|, p + |x| + inside)
  {
    hide Link;
    hide Avoids;
    var x := Before(path, p, inside);
    var lo, hi := p + |x|, p + |x| + inside;
    match path
    case InThen(_, _, _) => AvoidsOne(Operation(End, To(p + 2 + inside)), lo, hi);
    case InElse(_, thn, _, _) => AvoidsOne(Operation(End, To(p + 3 + Size(thn) + inside)), lo, hi);
    case InBody(_, _, _, _) => AvoidsOne(Operation(End, To(p)), lo, hi);
    case InThenElse(_, _, els, _) =>
      var mid := p + 1 + inside;
      var end := mid + 1 + Size(els);
      AvoidsOne(Operation(Else, To(end)), lo, hi);
      AvoidsOne(Operation(End, To(end + 1)), lo, hi);
      LinkAvoids(els, mid + 1, lo, hi);
      AvoidsConcat([Operation(Else, To(end))], Link(els, mid + 1), lo, hi);
      AvoidsConcat([Operation(Else, To(end))] + Link(els, mid + 1), [Operation(End, To(end + 1))], lo, hi);
    case InCond(_, _, body, _) =>
      var do := p + 1 + inside;
      var end := do + 1 + Size(body);
      AvoidsOne(Operation(Do, To(end + 1)), lo, hi);
      AvoidsOne(Operation(End, To(p)), lo, hi);
      LinkAvoids(body, do + 1, lo, hi);
      AvoidsConcat([Operation(Do, To(end + 1))], Link(body, do + 1), lo, hi);
      AvoidsConcat([Operation(Do, To(end + 1))] + Link(body, do + 1), [Operation(End, To(p))], lo, hi);
  }

  lemma PlugUnfolds(path: Path, unit: Block)
    requires !path.Spot?
    ensures Plug(path, unit) == Append(path.pre, Seq(Holder(path, Plug(path.inner, unit)), path.post))
    ensures Offset(path) == Size(path.pre) + |Before(path, 0, 0)| + Offset(path.inner)
  {
    hide Append;
    hide Link;
  }

  lemma BeforeSize(path: Path, p: nat, inside: nat)
    requires !path.Spot?
    ensures |Before(path, p, inside)| == |Before(path, 0, 0)|
  {
    hide Link;
  }

  /** The code around the hole of a statement, everything included. */
  lemma HoleCode(path: Path, b: Block, at: nat)
    requires !path.Spot?
    ensures var p := at + Size(path.pre);
      var x, y := Before(path, p, Size(b)), Behind(path, p, Size(b));
      var s := Holder(path, b);
      Link(Append(path.pre, Seq(s, path.post)), at)
        == (Link(path.pre, at) + x) + Link(b, p + |x|) + (y + Link(path.post, p + |x| + Size(b) + |y|))
  {
    hide Link;
    hide LinkStmt;
    hide Append;
    hide Before;
    hide Behind;
    hide Holder;
    hide StmtSize;
    var p := at + Size(path.pre);
    var x, y := Before(path, p, Size(b)), Behind(path, p, Size(b));
    HolderCode(path, b, p);
    LinkAround(path.pre, Holder(path, b), path.post, at);
    Regroup(Link(path.pre, at), x, Link(b, p + |x|), y, Link(path.post, p + |x| + Size(b) + |y|));
  }

  lemma HoleAvoids(path: Path, b: Block, at: nat)
    requires !path.Spot?
    ensures var p := at + Size(path.pre);
      var x, y := Before(path, p, Size(b)), Behind(path, p, Size(b));
      && Avoids(Link(path.pre, at) + x, p + |x|, p + |x| + Size(b))
      && Avoids(y + Link(path.post, p + |x| + Size(b) + |y|), p + |x|, p + |x| + Size(b))
  {
    hide Link;
    hide Before;
    hide Behind;
    hide Avoids;
    hide Size;
    var p := at + Size(path.pre);
    var x, y := Before(path, p, Size(b)), Behind(path, p, Size(b));
    var lo, hi := p + |x|, p + |x| + Size(b);
    BeforeAvoids(path, p, Size(b));
    BehindAvoids(path, p, Size(b));
    LinkAvoids(path.pre, at, lo, hi);
    LinkAvoids(path.post, hi + |y|, lo, hi);
    AvoidsConcat(Link(path.pre, at), x, lo, hi);
    AvoidsConcat(y, Link(path.post, hi + |y|), lo, hi);
  }

  /** Linked code splits at every place. */
  lemma {:induction false} PathSplits(path: Path, unit: Block, at: nat) returns (a: seq<Operation>, z: seq<Operation>)
    ensures Split(Link(Plug(path, unit), at), at, at + Offset(path), unit, a, z)
    decreases path
  {
    hide Link;
    hide Append;
    hide Avoids;
    hide Before;
    hide Behind;
    hide Holder;
    hide Size;
    var p := at + Size(path.pre);
    if path.Spot? {
      LinkSpot(path.pre, unit, path.post, at);
      a, z := Link(path.pre, at), Link(path.post, p + Size(unit));
      LinkAvoids(path.pre, at, p, p + Size(unit));
      LinkAvoids(path.post, p + Size(unit), p, p + Size(unit));
    } else {
      hide Split;
      var b := Plug(path.inner, unit);
      var x, y := Before(path, p, Size(b)), Behind(path, p, Size(b));
      PlugUnfolds(path, unit);
      BeforeSize(path, p, Size(b));
      HoleCode(path, b, at);
      HoleAvoids(path, b, at);
      a, z := PathSplits(path.inner, unit, p + |x|);
      var l, r := Link(path.pre, at) + x, y + Link(path.post, p + |x| + Size(b) + |y|);
      Embed(l, Link(b, p + |x|), r, at, p + |x| + Offset(path.inner), unit, a, z);
      a, z := l + a, z + r;
    }
  }

  // ----- control operations jump, others do not -----

  ghost predicate JumpsSet(ops: seq<Operation>) {
    forall k :: 0 <= k < |ops| ==> (Jumps(ops[k].kind) <==> ops[k].jump.To?)
  }

  lemma JumpsSetConcat(a: seq<Operation>, b: seq<Operation>)
    requires JumpsSet(a) && JumpsSet(b)
    ensures JumpsSet(a + b)
  {
  }

  lemma {:induction false} LinkSetsJumps(b: Block, at: nat)
    ensures JumpsSet(Link(b, at))
  {
    match b
    case Nil =>
    case Seq(s, rest) =>
      hide LinkStmt;
      hide JumpsSet;
      LinkStmtSetsJumps(s, at);
      LinkSetsJumps(rest, at + StmtSize(s));
      JumpsSetConcat(LinkStmt(s, at), Link(rest, at + StmtSize(s)));
  }

  lemma JumpsSetWrap(x: Operation, a: seq<Operation>, z: Operation)
    requires JumpsSet(a) && (Jumps(x.kind) <==> x.jump.To?) && (Jumps(z.kind) <==> z.jump.To?)
    ensures JumpsSet([x] + a + [z])
  {
  }

  lemma JumpsSetWrapTwo(x: Operation, a: seq<Operation>, y: Operation, b: seq<Operation>, z: Operation)
    requires JumpsSet(a) && JumpsSet(b)
    requires (Jumps(x.kind) <==> x.jump.To?) && (Jumps(y.kind) <==> y.jump.To?) && (Jumps(z.kind) <==> z.jump.To?)
    ensures JumpsSet([x] + a + [y] + b + [z])
  {
    JumpsSetWrap(x, a, y);
    JumpsSetConcat([x] + a + [y], b);
  }

  lemma JumpsSetOne(q: Plain)
    ensures JumpsSet([Operation(Plain(q), NoJump)])
  {
  }

  lemma {:induction false} LinkStmtSetsJumps(s: Stmt, at: nat)
    ensures JumpsSet(LinkStmt(s, at))
  {
    hide Link;
    hide JumpsSet;
    match s
    case Simple(q) => JumpsSetOne(q);
    case IfThen(t) =>
      LinkSetsJumps(t, at + 1);
      JumpsSetWrap(Operation(If, To(at + 1 + Size(t))), Link(t, at + 1), Operation(End, To(at + 2 + Size(t))));
    case IfElse(t, e) =>
      var els := at + 1 + Size(t);
      var end := els + 1 + Size(e);
      LinkSetsJumps(t, at + 1);
      LinkSetsJumps(e, els + 1);
      JumpsSetWrapTwo(Operation(If, To(els + 1)), Link(t, at + 1), Operation(Else, To(end)), Link(e, els + 1),
          Operation(End, To(end + 1)));
    case Loop(c, b) =>
      var do := at + 1 + Size(c);
      var end := do + 1 + Size(b);
      LinkSetsJumps(c, at + 1);
      LinkSetsJumps(b, do + 1);
      JumpsSetWrapTwo(Operation(While, NoJump), Link(c, at + 1), Operation(Do, To(end + 1)), Link(b, do + 1),
          Operation(End, To(at)));
  }

  /** Linked code jumps within itself, and only its control operations jump. */
  ghost predicate Tidy(ops: seq<Operation>, at: nat) {
    && JumpsSet(ops)
    && forall k :: 0 <= k < |ops| && ops[k].jump.To? ==> at <= ops[k].jump.target <= at + |ops|
  }

  lemma LinkTidy(b: Block, at: nat)
    ensures Tidy(Link(b, at), at)
  {
    hide Link;
    LinkSetsJumps(b, at);
    LinkAnchored(b, at);
    var code := Link(b, at);
    forall k | 0 <= k < |code| && code[k].jump.To?
      ensures at <= code[k].jump.target <= at + |code|
    {
      assert AnchoredAt(code, at, code[k].jump.target);
    }
  }

  // ----- shapes in linked code -----

  /** Part of a body that is the code of `b`. */
  ghost predicate IsPart(body: seq<Operation>, at: nat, b: Block) {
    at + Size(b) <= |body| && body[at..at + Size(b)] == Link(b, at)
  }

  lemma PartWithin(body: seq<Operation>, at: nat, b: Block)
    requires IsPart(body, at, b)
    ensures Within(body, at, at + Size(b), at, at + Size(b))
    ensures forall i :: at <= i < at + Size(b) && !Jumps(body[i].kind) ==> body[i].jump == NoJump
  {
    hide Link;
    LinkTidy(b, at);
    var code := Link(b, at);
    forall i | at <= i < at + Size(b)
      ensures body[i] == code[i - at]
    {
      assert body[at..at + Size(b)][i - at] == body[i];
    }
  }

  lemma SplitAround(body: seq<Operation>, b: Block, w: nat, unit: Block, a: seq<Operation>, z: seq<Operation>)
    requires body == Link(b, 0) && Split(body, 0, w, unit, a, z)
    ensures w + Size(unit) <= |body| && Around(body, w, w + Size(unit)) && IsPart(body, w, unit)
  {
    hide Link;
    LinkTidy(b, 0);
    assert body[w..w + Size(unit)] == Link(unit, w);
    forall i | 0 <= i < |body| && (i < w || w + Size(unit) <= i) && Jumps(body[i].kind)
      ensures body[i].jump.To? && (body[i].jump.target <= w || w + Size(unit) <= body[i].jump.target <= |body|)
    {
      if i < w {
        assert body[i] == a[i];
      } else {
        assert body[i] == z[i - w - Size(unit)];
      }
    }
  }

  lemma {:induction false} PlacedAround(path: Path, unit: Block)
    ensures var body, w := Link(Plug(path, unit), 0), Offset(path);
      w + Size(unit) <= |body| && Around(body, w, w + Size(unit)) && IsPart(body, w, unit)
  {
    hide Link;
    hide Split;
    hide Around;
    var a, z := PathSplits(path, unit, 0);
    SplitAround(Link(Plug(path, unit), 0), Plug(path, unit), Offset(path), unit, a, z);
  }

  function Literal(value: Word, ty: Type): Stmt {
    Simple(PushInt(value, ty))
  }

  /** `<value> if … else … end`. */
  function IfElseUnit(value: Word, ty: Type, t: Block, e: Block): Block {
    Seq(Literal(value, ty), Seq(IfElse(t, e), Nil))
  }

  function IfThenUnit(value: Word, ty: Type, t: Block): Block {
    Seq(Literal(value, ty), Seq(IfThen(t), Nil))
  }

  /** `while cond <value> do … end`. */
  function LoopUnit(cond: Block, value: Word, ty: Type, b: Block): Block {
    Seq(Loop(Append(cond, Seq(Literal(value, ty), Nil)), b), Nil)
  }

  lemma PairCode(value: Word, ty: Type, s: Stmt, w: nat)
    ensures Link(Seq(Literal(value, ty), Seq(s, Nil)), w)
        == [Operation(Plain(PushInt(value, ty)), NoJump)] + LinkStmt(s, w + 1)
    ensures Size(Seq(Literal(value, ty), Seq(s, Nil))) == 1 + StmtSize(s)
  {
    hide StmtSize;
    var l := Literal(value, ty);
    assert StmtSize(l) == 1 && LinkStmt(l, w) == [Operation(Plain(PushInt(value, ty)), NoJump)] by {
      LiteralStmt(value, ty, w);
    }
    assert Link(Seq(l, Seq(s, Nil)), w) == LinkStmt(l, w) + Link(Seq(s, Nil), w + 1);
    assert Link(Seq(s, Nil), w + 1) == LinkStmt(s, w + 1) + Link(Nil, w + 1 + StmtSize(s));
    assert Size(Seq(s, Nil)) == StmtSize(s) + Size(Nil);
  }

  lemma LiteralStmt(value: Word, ty: Type, w: nat)
    ensures StmtSize(Literal(value, ty)) == 1
    ensures LinkStmt(Literal(value, ty), w) == [Operation(Plain(PushInt(value, ty)), NoJump)]
  {
  }

  lemma SliceSlice(body: seq<Operation>, w: nat, n: nat, i: nat, j: nat)
    requires w + n <= |body| && i <= j <= n
    ensures body[w..w + n][i..j] == body[w + i..w + j]
  {
    var a, b := body[w..w + n][i..j], body[w + i..w + j];
    forall k | 0 <= k < j - i
      ensures a[k] == b[k]
    {
    }
    assert a == b;
  }

  /** Taking code apart at known sizes. */
  lemma FivePieces(body: seq<Operation>, w: nat, l: Operation, x: Operation, a: seq<Operation>, y: Operation,
      b: seq<Operation>, z: Operation)
    requires w + 4 + |a| + |b| <= |body|
    requires body[w..w + 4 + |a| + |b|] == [l] + ([x] + a + [y] + b + [z])
    ensures body[w] == l && body[w + 1] == x && body[w + 2..w + 2 + |a|] == a
    ensures body[w + 2 + |a|] == y && body[w + 3 + |a|..w + 3 + |a| + |b|] == b && body[w + 3 + |a| + |b|] == z
  {
    var c := body[w..w + 4 + |a| + |b|];
    assert c[0] == l && c[1] == x && c[2..2 + |a|] == a;
    assert c[2 + |a|] == y && c[3 + |a|..3 + |a| + |b|] == b && c[3 + |a| + |b|] == z;
    SliceSlice(body, w, 4 + |a| + |b|, 2, 2 + |a|);
    SliceSlice(body, w, 4 + |a| + |b|, 3 + |a|, 3 + |a| + |b|);
  }

  lemma UnitIsPair(value: Word, ty: Type, t: Block, e: Block)
    ensures IfElseUnit(value, ty, t, e) == Seq(Literal(value, ty), Seq(IfElse(t, e), Nil))
  {
  }

  lemma IfElseParts(body: seq<Operation>, w: nat, value: Word, ty: Type, t: Block, e: Block)
    requires IsPart(body, w, IfElseUnit(value, ty, t, e))
    ensures var m := w + 2 + Size(t);
      var end := m + 1 + Size(e);
      && Size(IfElseUnit(value, ty, t, e)) == end + 1 - w && end < |body|
      && IsLiteral(body[w], value) && body[w + 1] == Operation(If, To(m + 1))
      && body[m] == Operation(Else, To(end)) && body[end] == Operation(End, To(end + 1))
      && IsPart(body, w + 2, t) && IsPart(body, m + 1, e)
  {
    hide Link;
    hide LinkStmt;
    hide Size;
    hide StmtSize;
    hide IfElseUnit;
    var m := w + 2 + Size(t);
    var end := m + 1 + Size(e);
    UnitIsPair(value, ty, t, e);
    PairCode(value, ty, IfElse(t, e), w);
    IfElseUnfolds(t, e, w + 1);
    FivePieces(body, w, Operation(Plain(PushInt(value, ty)), NoJump), Operation(If, To(m + 1)), Link(t, w + 2),
               Operation(Else, To(end)), Link(e, m + 1), Operation(End, To(end + 1)));
  }

  lemma IfElseShaped(body: seq<Operation>, w: nat, value: Word, ty: Type, t: Block, e: Block)
    requires var unit := IfElseUnit(value, ty, t, e);
      IsPart(body, w, unit) && w + Size(unit) <= |body| && Around(body, w, w + Size(unit))
    ensures var m := w + 2 + Size(t); IfElseShape(body, w, m, m + 1 + Size(e), value)
  {
    hide Link;
    hide Size;
    hide Around;
    hide Within;
    hide IsPart;
    hide IfElseUnit;
    var m := w + 2 + Size(t);
    IfElseParts(body, w, value, ty, t, e);
    PartWithin(body, w + 2, t);
    PartWithin(body, m + 1, e);
  }

  /** An `if … else … end` behind a literal, anywhere in linked code. */
  lemma {:induction false} LinkedIfElse(path: Path, value: Word, ty: Type, t: Block, e: Block, body: seq<Operation>)
    requires body == Link(Plug(path, IfElseUnit(value, ty, t, e)), 0)
    ensures var w := Offset(path);
      var m := w + 2 + Size(t);
      IfElseShape(body, w, m, m + 1 + Size(e), value)
  {
    hide Link;
    hide Size;
    hide Around;
    hide IfElseShape;
    hide Plug;
    hide IsPart;
    hide IfElseUnit;
    hide Offset;
    PlacedAround(path, IfElseUnit(value, ty, t, e));
    IfElseShaped(body, Offset(path), value, ty, t, e);
  }

  lemma ThreePieces(body: seq<Operation>, w: nat, l: Operation, x: Operation, a: seq<Operation>, z: Operation)
    requires w + 3 + |a| <= |body|
    requires body[w..w + 3 + |a|] == [l] + ([x] + a + [z])
    ensures body[w] == l && body[w + 1] == x && body[w + 2..w + 2 + |a|] == a && body[w + 2 + |a|] == z
  {
    var c := body[w..w + 3 + |a|];
    assert c[0] == l && c[1] == x && c[2..2 + |a|] == a && c[2 + |a|] == z;
    SliceSlice(body, w, 3 + |a|, 2, 2 + |a|);
  }

  /** Linked code never ends with an `else`. */
  lemma {:induction false} NoTrailingElse(b: Block, at: nat)
    requires b != Nil
    ensures |Link(b, at)| > 0 && Link(b, at)[|Link(b, at)| - 1].kind != Else
    decreases b
  {
    var c := LinkStmt(b.head, at);
    assert |c| > 0 && c[|c| - 1].kind != Else by {
      StmtEnds(b.head, at);
    }
    hide LinkStmt;
    if b.tail != Nil {
      NoTrailingElse(b.tail, at + StmtSize(b.head));
    }
  }

  lemma StmtEnds(s: Stmt, at: nat)
    ensures var c := LinkStmt(s, at); |c| > 0 && c[|c| - 1].kind != Else
  {
    hide Link;
  }

  lemma IfThenParts(body: seq<Operation>, w: nat, value: Word, ty: Type, t: Block)
    requires IsPart(body, w, IfThenUnit(value, ty, t))
    ensures var m := w + 2 + Size(t);
      && Size(IfThenUnit(value, ty, t)) == m + 1 - w && m < |body|
      && IsLiteral(body[w], value) && body[w + 1] == Operation(If, To(m)) && body[m] == Operation(End, To(m + 1))
      && IsPart(body, w + 2, t)
  {
    hide Link;
    hide LinkStmt;
    hide Size;
    hide StmtSize;
    var m := w + 2 + Size(t);
    PairCode(value, ty, IfThen(t), w);
    IfThenUnfolds(t, w + 1);
    ThreePieces(body, w, Operation(Plain(PushInt(value, ty)), NoJump), Operation(If, To(m)), Link(t, w + 2),
        Operation(End, To(m + 1)));
  }

  lemma PartEnds(body: seq<Operation>, at: nat, b: Block)
    requires IsPart(body, at, b) && Size(b) > 0
    ensures body[at + Size(b) - 1].kind != Else
  {
    NoTrailingElse(b, at);
    hide Link;
    assert body[at + Size(b) - 1] == body[at..at + Size(b)][Size(b) - 1];
  }

  lemma IfThenShaped(body: seq<Operation>, w: nat, value: Word, ty: Type, t: Block)
    requires var unit := IfThenUnit(value, ty, t);
      IsPart(body, w, unit) && w + Size(unit) <= |body| && Around(body, w, w + Size(unit))
    ensures IfThenShape(body, w, w + 2 + Size(t), value)
  {
    hide Link;
    hide Size;
    hide Around;
    hide Within;
    hide IsPart;
    hide IfThenUnit;
    IfThenParts(body, w, value, ty, t);
    PartWithin(body, w + 2, t);
    if Size(t) > 0 {
      PartEnds(body, w + 2, t);
    }
  }

  /** An `if … end` behind a literal, anywhere in linked code. */
  lemma {:induction false} LinkedIfThen(path: Path, value: Word, ty: Type, t: Block, body: seq<Operation>)
    requires body == Link(Plug(path, IfThenUnit(value, ty, t)), 0)
    ensures var w := Offset(path); IfThenShape(body, w, w + 2 + Size(t), value)
  {
    hide Link;
    hide Size;
    hide Around;
    hide IfThenShape;
    hide Plug;
    hide IsPart;
    hide IfThenUnit;
    hide Offset;
    PlacedAround(path, IfThenUnit(value, ty, t));
    IfThenShaped(body, Offset(path), value, ty, t);
  }

  // ----- loops -----

  /** Every `while` of linked code has its `do` and its `end` in it. */
  ghost predicate LoopsClosed(code: seq<Operation>, at: nat) {
    forall i :: 0 <= i < |code| && code[i].kind == While ==> LoopClosed(code, at, i)
  }

  ghost predicate LoopClosed(code: seq<Operation>, at: nat, i: nat) {
    && (exists k :: i < k < |code| && code[k].kind == Do && code[k].jump.To? &&
                    at + i < code[k].jump.target <= at + |code|)
    && (exists k :: i < k < |code| && code[k] == Operation(End, To(at + i)))
  }

  lemma LoopClosedPart(whole: seq<Operation>, part: seq<Operation>, off: nat, at: nat, i: nat)
    requires off + |part| <= |whole| && whole[off..off + |part|] == part && i < |part| && LoopClosed(part, at + off, i)
    ensures LoopClosed(whole, at, off + i)
  {
    var k :| i < k < |part| && part[k].kind == Do && part[k].jump.To?
        && at + off + i < part[k].jump.target <= at + off + |part|;
    assert whole[off + k] == whole[off..off + |part|][k];
    var l :| i < l < |part| && part[l] == Operation(End, To(at + off + i));
    assert whole[off + l] == whole[off..off + |part|][l];
  }

  /** Closed parts around operations that are no `while`. */
  lemma LoopsClosedConcat(a: seq<Operation>, b: seq<Operation>, at: nat)
    requires LoopsClosed(a, at) && LoopsClosed(b, at + |a|)
    ensures LoopsClosed(a + b, at)
  {
    hide LoopClosed;
    var c := a + b;
    forall i | 0 <= i < |c| && c[i].kind == While
      ensures LoopClosed(c, at, i)
    {
      if i < |a| {
        assert c[0..|a|] == a;
        LoopClosedPart(c, a, 0, at, i);
      } else {
        assert c[|a|..|a| + |b|] == b;
        LoopClosedPart(c, b, |a|, at, i - |a|);
      }
    }
  }

  lemma LoopsClosedOne(op: Operation, at: nat)
    requires op.kind != While
    ensures LoopsClosed([op], at)
  {
  }

  lemma {:induction false} LinkClosesLoops(b: Block, at: nat)
    ensures LoopsClosed(Link(b, at), at)
    decreases b, 0
  {
    match b
    case Nil =>
    case Seq(s, rest) =>
      hide LinkStmt;
      hide LoopsClosed;
      StmtClosesLoops(s, at);
      LinkClosesLoops(rest, at + StmtSize(s));
      LoopsClosedConcat(LinkStmt(s, at), Link(rest, at + StmtSize(s)), at);
  }

  lemma {:induction false} StmtClosesLoops(s: Stmt, at: nat)
    ensures LoopsClosed(LinkStmt(s, at), at)
    decreases s, 1
  {
    hide Link;
    hide LinkStmt;
    hide StmtSize;
    match s
    case Simple(q) =>
      SimpleCode(q, at);
    case IfThen(t) =>
      IfThenUnfolds(t, at);
      LinkClosesLoops(t, at + 1);
      WrapClosed(Operation(If, To(at + 1 + Size(t))), Link(t, at + 1), Operation(End, To(at + 2 + Size(t))), at);
    case IfElse(t, e) =>
      IfElseUnfolds(t, e, at);
      LinkClosesLoops(t, at + 1);
      LinkClosesLoops(e, at + 2 + Size(t));
      var els := at + 1 + Size(t);
      var end := els + 1 + Size(e);
      WrapClosed(Operation(If, To(els + 1)), Link(t, at + 1), Operation(Else, To(end)), at);
      WrapTwoClosed([Operation(If, To(els + 1))] + Link(t, at + 1) + [Operation(Else, To(end))], Link(e, els + 1),
          Operation(End, To(end + 1)), at);
    case Loop(c, b) => LoopStmtClosed(c, b, at);
  }

  lemma SimpleCode(q: Plain, at: nat)
    ensures LoopsClosed(LinkStmt(Simple(q), at), at)
  {
  }

  lemma WrapClosed(x: Operation, a: seq<Operation>, z: Operation, at: nat)
    requires x.kind != While && z.kind != While && LoopsClosed(a, at + 1)
    ensures LoopsClosed([x] + a + [z], at)
  {
    hide LoopsClosed;
    LoopsClosedOne(x, at);
    LoopsClosedConcat([x], a, at);
    WrapTwoClosed([x], a, z, at);
  }

  lemma WrapTwoClosed(x: seq<Operation>, a: seq<Operation>, z: Operation, at: nat)
    requires z.kind != While && LoopsClosed(x, at) && LoopsClosed(a, at + |x|)
    ensures LoopsClosed(x + a + [z], at)
  {
    hide LoopsClosed;
    LoopsClosedConcat(x, a, at);
    LoopsClosedOne(z, at + |x| + |a|);
    LoopsClosedConcat(x + a, [z], at);
  }

  lemma {:induction false} LoopStmtClosed(c: Block, b: Block, at: nat)
    ensures LoopsClosed(LinkStmt(Loop(c, b), at), at)
    decreases Loop(c, b), 0
  {
    hide Link;
    hide LinkStmt;
    hide StmtSize;
    hide LoopClosed;
    LoopUnfolds(c, b, at);
    var do := at + 1 + Size(c);
    var end := do + 1 + Size(b);
    var x, y, z := Operation(While, NoJump), Operation(Do, To(end + 1)), Operation(End, To(at));
    LinkClosesLoops(c, at + 1);
    LinkClosesLoops(b, do + 1);
    OwnLoopClosed(x, Link(c, at + 1), y, Link(b, do + 1), z, at);
  }

  lemma OwnLoopClosed(x: Operation, a: seq<Operation>, y: Operation, b: seq<Operation>, z: Operation, at: nat)
    requires LoopsClosed(a, at + 1) && LoopsClosed(b, at + 2 + |a|)
    requires y == Operation(Do, To(at + 3 + |a| + |b|)) && z == Operation(End, To(at))
    ensures LoopsClosed([x] + a + [y] + b + [z], at)
  {
    hide LoopClosed;
    var inner := a + [y] + b + [z];
    var code := [x] + inner;
    assert code == [x] + a + [y] + b + [z];
    InnerClosed(a, y, b, z, at + 1);
    OwnLoop(code, y, z, at, 1 + |a|);
    assert code[1..1 + |inner|] == inner;
    forall i | 0 <= i < |code| && code[i].kind == While
      ensures LoopClosed(code, at, i)
    {
      if i > 0 {
        LoopClosedPart(code, inner, 1, at, i - 1);
      }
    }
  }

  lemma InnerClosed(a: seq<Operation>, y: Operation, b: seq<Operation>, z: Operation, at: nat)
    requires LoopsClosed(a, at) && LoopsClosed(b, at + 1 + |a|) && y.kind != While && z.kind != While
    ensures LoopsClosed(a + [y] + b + [z], at)
  {
    hide LoopsClosed;
    LoopsClosedOne(y, at + |a|);
    LoopsClosedConcat(a, [y], at);
    WrapTwoClosed(a + [y], b, z, at);
  }

  lemma OwnLoop(code: seq<Operation>, y: Operation, z: Operation, at: nat, k: nat)
    requires 0 < k < |code| - 1 && code[k] == y && code[|code| - 1] == z
    requires y == Operation(Do, To(at + |code|)) && z == Operation(End, To(at))
    ensures LoopClosed(code, at, 0)
  {
  }

  lemma SixPieces(body: seq<Operation>, w: nat, x: Operation, a: seq<Operation>, l: Operation, y: Operation,
      b: seq<Operation>, z: Operation)
    requires w + 4 + |a| + |b| <= |body|
    requires body[w..w + 4 + |a| + |b|] == [x] + (a + [l]) + [y] + b + [z]
    ensures body[w] == x && body[w + 1..w + 1 + |a|] == a && body[w + 1 + |a|] == l
    ensures body[w + 2 + |a|] == y && body[w + 3 + |a|..w + 3 + |a| + |b|] == b && body[w + 3 + |a| + |b|] == z
  {
    var c := body[w..w + 4 + |a| + |b|];
    assert c[0] == x && c[1..1 + |a|] == a && c[1 + |a|] == l;
    assert c[2 + |a|] == y && c[3 + |a|..3 + |a| + |b|] == b && c[3 + |a| + |b|] == z;
    SliceSlice(body, w, 4 + |a| + |b|, 1, 1 + |a|);
    SliceSlice(body, w, 4 + |a| + |b|, 3 + |a|, 3 + |a| + |b|);
  }

  lemma CondThenLiteral(cond: Block, value: Word, ty: Type, at: nat)
    ensures var c := Append(cond, Seq(Literal(value, ty), Nil));
      && Link(c, at) == Link(cond, at) + [Operation(Plain(PushInt(value, ty)), NoJump)]
      && Size(c) == Size(cond) + 1
  {
    hide Append;
    var l := Seq(Literal(value, ty), Nil);
    LinkAppend(cond, l, at);
    LiteralStmt(value, ty, at + Size(cond));
    assert Link(l, at + Size(cond)) == LinkStmt(Literal(value, ty), at + Size(cond)) + Link(Nil, at + Size(cond) + 1);
    assert Size(l) == StmtSize(Literal(value, ty)) + Size(Nil);
    FlattenAppend(cond, l);
  }

  lemma LoopUnitCode(cond: Block, value: Word, ty: Type, b: Block, w: nat)
    ensures var d := w + 1 + Size(cond);
      var hi := d + 3 + Size(b);
      && Link(LoopUnit(cond, value, ty, b), w)
           == [Operation(While, NoJump)] + (Link(cond, w + 1) + [Operation(Plain(PushInt(value, ty)), NoJump)])
            + [Operation(Do, To(hi))] + Link(b, d + 2) + [Operation(End, To(w))]
      && Size(LoopUnit(cond, value, ty, b)) == hi - w
  {
    hide LinkStmt;
    hide StmtSize;
    hide Append;
    var c := Append(cond, Seq(Literal(value, ty), Nil));
    CondThenLiteral(cond, value, ty, w + 1);
    LoopUnfolds(c, b, w);
    OneStatement(Loop(c, b), w);
  }

  lemma OneStatement(s: Stmt, w: nat)
    ensures Link(Seq(s, Nil), w) == LinkStmt(s, w) && Size(Seq(s, Nil)) == StmtSize(s)
  {
    assert Link(Seq(s, Nil), w) == LinkStmt(s, w) + Link(Nil, w + StmtSize(s));
    assert Size(Seq(s, Nil)) == StmtSize(s) + Size(Nil);
  }

  lemma LoopParts(body: seq<Operation>, w: nat, cond: Block, value: Word, ty: Type, b: Block)
    requires IsPart(body, w, LoopUnit(cond, value, ty, b))
    ensures var d := w + 1 + Size(cond);
      var hi := d + 3 + Size(b);
      && Size(LoopUnit(cond, value, ty, b)) == hi - w && hi <= |body|
      && body[w] == Operation(While, NoJump) && IsLiteral(body[d], value)
      && body[d + 1] == Operation(Do, To(hi)) && body[hi - 1] == Operation(End, To(w))
      && IsPart(body, w + 1, cond) && IsPart(body, d + 2, b)
  {
    hide Link;
    hide Size;
    hide LoopUnit;
    var d := w + 1 + Size(cond);
    var hi := d + 3 + Size(b);
    LoopUnitCode(cond, value, ty, b, w);
    SixPieces(body, w, Operation(While, NoJump), Link(cond, w + 1), Operation(Plain(PushInt(value, ty)), NoJump),
              Operation(Do, To(hi)), Link(b, d + 2), Operation(End, To(w)));
  }

  lemma PartLoops(body: seq<Operation>, at: nat, b: Block, i: nat)
    requires IsPart(body, at, b) && at <= i < at + Size(b) && body[i].kind == While
    ensures ClosedLoop(body, i, at + Size(b))
  {
    hide Link;
    LinkClosesLoops(b, at);
    var code := Link(b, at);
    PartAt(body, at, b, i);
    assert LoopClosed(code, at, i - at);
    var k :| i - at < k < |code| && code[k].kind == Do && code[k].jump.To? && i < code[k].jump.target <= at + |code|;
    PartAt(body, at, b, at + k);
    var l :| i - at < l < |code| && code[l] == Operation(End, To(i));
    PartAt(body, at, b, at + l);
  }

  lemma PartAt(body: seq<Operation>, at: nat, b: Block, i: nat)
    requires IsPart(body, at, b) && at <= i < at + Size(b)
    ensures body[i] == Link(b, at)[i - at]
  {
    hide Link;
    assert body[at..at + Size(b)][i - at] == body[i];
  }

  lemma LoopShaped(body: seq<Operation>, w: nat, cond: Block, value: Word, ty: Type, b: Block)
    requires var unit := LoopUnit(cond, value, ty, b);
      IsPart(body, w, unit) && w + Size(unit) <= |body| && Around(body, w, w + Size(unit))
    requires |body| + 3 < EMPTY_JUMP
    ensures var d := w + 1 + Size(cond); LoopShape(body, w, d, d + 3 + Size(b), value)
  {
    hide Link;
    hide Size;
    hide Around;
    hide Within;
    hide IsPart;
    hide LoopUnit;
    hide ClosedLoop;
    var d := w + 1 + Size(cond);
    LoopParts(body, w, cond, value, ty, b);
    PartWithin(body, w + 1, cond);
    PartWithin(body, d + 2, b);
    forall i | w < i < d && body[i].kind == While
      ensures ClosedLoop(body, i, d)
    {
      PartLoops(body, w + 1, cond, i);
    }
  }

  /** A `while … do … end` on a literal, anywhere in linked code that 32 bits can index. */
  lemma {:induction false} LinkedLoop(path: Path, cond: Block, value: Word, ty: Type, b: Block, body: seq<Operation>)
    requires body == Link(Plug(path, LoopUnit(cond, value, ty, b)), 0) && |body| + 3 < EMPTY_JUMP
    ensures var w := Offset(path);
      var d := w + 1 + Size(cond);
      LoopShape(body, w, d, d + 3 + Size(b), value)
  {
    hide Link;
    hide Size;
    hide Around;
    hide LoopShape;
    hide Plug;
    hide IsPart;
    hide LoopUnit;
    hide Offset;
    PlacedAround(path, LoopUnit(cond, value, ty, b));
    LoopShaped(body, Offset(path), cond, value, ty, b);
  }

  // ----- jumps across a place -----

  ghost predicate NoneOver(ops: seq<Operation>, w: nat) {
    forall k :: 0 <= k < |ops| && ops[k].jump.To? ==> ops[k].jump.target <= w
  }

  lemma NoneOverConcat(a: seq<Operation>, b: seq<Operation>, w: nat)
    ensures NoneOver(a + b, w) <==> NoneOver(a, w) && NoneOver(b, w)
  {
    var c := a + b;
    if NoneOver(c, w) {
      forall k | 0 <= k < |a| && a[k].jump.To?
        ensures a[k].jump.target <= w
      {
        assert c[k] == a[k];
      }
      forall k | 0 <= k < |b| && b[k].jump.To?
        ensures b[k].jump.target <= w
      {
        assert c[|a| + k] == b[k];
      }
    }
  }

  lemma LinkNoneOver(b: Block, at: nat, w: nat)
    requires at + Size(b) <= w
    ensures NoneOver(Link(b, at), w)
  {
    hide Link;
    LinkTidy(b, at);
  }

  /** A statement jumps over its hole exactly when the hole is not a condition. */
  lemma BeforeOver(path: Path, p: nat, inside: nat, w: nat)
    requires !path.Spot? && p + |Before(path, p, inside)| <= w < p + |Before(path, p, inside)| + inside
    ensures NoneOver(Before(path, p, inside), w) <==> path.InCond?
  {
    hide Link;
    var x := Before(path, p, inside);
    match path
    case InThen(_, _, _) => assert x[0].jump.target > w;
    case InThenElse(_, _, _, _) => assert x[0].jump.target > w;
    case InElse(_, thn, _, _) => assert x[|x| - 1] == Operation(Else, To(p + 2 + Size(thn) + inside));
    case InBody(_, cond, _, _) => assert x[|x| - 1] == Operation(Do, To(p + 3 + Size(cond) + inside));
    case InCond(_, _, _, _) =>
  }

  /** As `PathSplits`, and code before the place jumps over it exactly when the place is not within conditions only. */
  lemma {:induction false} PathAcross(path: Path, unit: Block, at: nat) returns (a: seq<Operation>, z: seq<Operation>)
    requires Size(unit) > 0
    ensures Split(Link(Plug(path, unit), at), at, at + Offset(path), unit, a, z)
    ensures NoneOver(a, at + Offset(path)) <==> OnlyConditions(path)
    decreases path
  {
    hide Link;
    hide Append;
    hide Avoids;
    hide Before;
    hide Behind;
    hide Holder;
    hide Size;
    hide NoneOver;
    var p := at + Size(path.pre);
    if path.Spot? {
      LinkSpot(path.pre, unit, path.post, at);
      a, z := Link(path.pre, at), Link(path.post, p + Size(unit));
      LinkAvoids(path.pre, at, p, p + Size(unit));
      LinkAvoids(path.post, p + Size(unit), p, p + Size(unit));
      LinkNoneOver(path.pre, at, p);
    } else {
      var b := Plug(path.inner, unit);
      var x, y := Before(path, p, Size(b)), Behind(path, p, Size(b));
      PlugUnfolds(path, unit);
      BeforeSize(path, p, Size(b));
      HoleCode(path, b, at);
      HoleAvoids(path, b, at);
      a, z := PathAcross(path.inner, unit, p + |x|);
      var w := p + |x| + Offset(path.inner);
      var l, r := Link(path.pre, at) + x, y + Link(path.post, p + |x| + Size(b) + |y|);
      BeforeOver(path, p, Size(b), w);
      LinkNoneOver(path.pre, at, w);
      NoneOverConcat(Link(path.pre, at), x, w);
      NoneOverConcat(l, a, w);
      hide Split;
      Embed(l, Link(b, p + |x|), r, at, w, unit, a, z);
      a, z := l + a, z + r;
    }
  }

  /** Before a place in linked code nothing jumps across it exactly when every block around it is a loop's condition. */
  lemma {:induction false} AcrossExactly(path: Path, unit: Block, body: seq<Operation>)
    requires Size(unit) > 0 && body == Link(Plug(path, unit), 0)
    ensures Offset(path) <= |body| && (NoneAcross(body, Offset(path)) <==> OnlyConditions(path))
  {
    hide Link;
    hide Plug;
    hide Size;
    hide Avoids;
    var w := Offset(path);
    var a, z := PathAcross(path, unit, 0);
    LinkTidy(Plug(path, unit), 0);
    assert forall k :: 0 <= k < w ==> body[k] == a[k];
  }
}
