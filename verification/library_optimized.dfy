/**
 `digits10` under the optimizer: its `while true do` is rewritten rightly, what is left has no condition that literals
 decide and nothing to fold, so every run on a program that contains it is sound as far as this word goes.
 */
module OptimizedLibrary {
  import opened Wrappers
  import opened Words
  import opened Operations
  import opened Structured
  import opened Folding
  import opened FoldCorrectness
  import opened FoldSchedules
  import opened Conditions
  import opened LoopRewriting
  import opened Contexts
  import opened UndecidedConditions
  import opened ConditionPasses
  import opened Optimizer
  import opened CheckedRuns
  import opened LibraryWords

  // ----- code of lines -----

  function Plains(ops: seq<Plain>): (r: seq<Operation>)
    ensures |r| == |ops|
  {
    seq(|ops|, i requires 0 <= i < |ops| => Operation(Plain(ops[i]), NoJump))
  }

  lemma OneThen(op: Plain, rest: Block, at: nat)
    ensures Link(Seq(Simple(op), rest), at) == [Operation(Plain(op), NoJump)] + Link(rest, at + 1)
    ensures Size(Seq(Simple(op), rest)) == 1 + Size(rest)
  {
    assert LinkStmt(Simple(op), at) == [Operation(Plain(op), NoJump)];
  }

  lemma {:induction false} LinkLine(ops: seq<Plain>, rest: Block, at: nat)
    ensures Link(Line(ops, rest), at) == Plains(ops) + Link(rest, at + |ops|)
    ensures Size(Line(ops, rest)) == |ops| + Size(rest)
    decreases |ops|
  {
    hide Link;
    hide Size;
    if ops == [] {
      assert Plains(ops) + Link(rest, at) == Link(rest, at);
    } else {
      LinkLine(ops[1..], rest, at + 1);
      OneThen(ops[0], Line(ops[1..], rest), at);
      var one, two := [Operation(Plain(ops[0]), NoJump)], Plains(ops[1..]);
      assert Plains(ops) == one + two;
      ConcatAssoc(one, two, Link(rest, at + |ops|));
    }
  }

  // ----- digits10 -----

  /** The code of `dup <limit> < if … return end`. */
  function TestCode(limit: Word, add: Word, at: nat): seq<Operation> {
    var end := at + 5 + |Finish(add)|;
    Plains([Sh(Dup), Lit(limit), Op(Less)]) + [Operation(If, To(end))] + Plains(Finish(add))
    + [Operation(Plain(Return), NoJump)] + [Operation(End, To(end + 1))]
  }

  lemma LinkBranch(add: Word, at: nat)
    ensures var t := Line(Finish(add), Seq(Simple(Return), Nil));
      Link(t, at) == Plains(Finish(add)) + [Operation(Plain(Return), NoJump)] && Size(t) == |Finish(add)| + 1
  {
    hide Finish;
    hide Link;
    hide Size;
    LinkLine(Finish(add), Seq(Simple(Return), Nil), at);
    OneThen(Return, Nil, at + |Finish(add)|);
    NothingLinked();
    assert [Operation(Plain(Return), NoJump)] + [] == [Operation(Plain(Return), NoJump)];
  }

  lemma BranchThen(t: Block, rest: Block, at: nat)
    ensures var end := at + 1 + Size(t);
      Link(Seq(IfThen(t), rest), at)
        == ([Operation(If, To(end))] + Link(t, at + 1) + [Operation(End, To(end + 1))]) + Link(rest, end + 1)
    ensures Size(Seq(IfThen(t), rest)) == Size(t) + 2 + Size(rest)
  {
    assert StmtSize(IfThen(t)) == Size(t) + 2;
  }

  lemma LinkTest(limit: Word, add: Word, rest: Block, at: nat)
    ensures Link(Test(limit, add, rest), at) == TestCode(limit, add, at) + Link(rest, at + |TestCode(limit, add, at)|)
    ensures Size(Test(limit, add, rest)) == |TestCode(limit, add, at)| + Size(rest)
  {
    hide Finish;
    hide Line;
    hide Plains;
    hide Link;
    hide Size;
    var t := Line(Finish(add), Seq(Simple(Return), Nil));
    var head := [Sh(Dup), Lit(limit), Op(Less)];
    LinkLine(head, Seq(IfThen(t), rest), at);
    LinkBranch(add, at + 4);
    var end := at + 5 + |Finish(add)|;
    BranchThen(t, rest, at + 3);
    Regroup(Plains(head), [Operation(If, To(end))], Plains(Finish(add)), [Operation(Plain(Return), NoJump)],
            [Operation(End, To(end + 1))], Link(rest, end + 1));
  }

  lemma Regroup(a: seq<Operation>, b: seq<Operation>, c: seq<Operation>, d: seq<Operation>, e: seq<Operation>,
      f: seq<Operation>)
    ensures a + ((b + (c + d) + e) + f) == (a + b + c + d + e) + f
  {
  }

  lemma TestQuiet(limit: Word, add: Word, at: nat)
    ensures QuietThroughout(TestCode(limit, add, at))
    ensures var c := TestCode(limit, add, at); |c| == 6 + |Finish(add)| && !IsPushInt(c[|c| - 1])
  {
  }

  /** A test in front of quiet code that does not end in a literal. */
  lemma TestThen(limit: Word, add: Word, rest: Block, at: nat, n: nat)
    requires Size(rest) == n > 0
    requires var c := Link(rest, at + 6 + |Finish(add)|); QuietThroughout(c) && !IsPushInt(c[n - 1])
    ensures Size(Test(limit, add, rest)) == 6 + |Finish(add)| + n
    ensures var c := Link(Test(limit, add, rest), at); QuietThroughout(c) && !IsPushInt(c[5 + |Finish(add)| + n])
  {
    hide Test;
    hide TestCode;
    hide Link;
    hide Size;
    TestQuiet(limit, add, at);
    LinkTest(limit, add, rest, at);
    QuietConcat(TestCode(limit, add, at), Link(rest, at + 6 + |Finish(add)|));
  }

  const LAST_LINE: seq<Plain> := [Lit(10000), Op(Div), Sh(Swap), Lit(4), Op(Add)]

  lemma LastQuiet(at: nat)
    ensures Link(Line(LAST_LINE, Nil), at) == Plains(LAST_LINE) && Size(Line(LAST_LINE, Nil)) == 5
    ensures QuietThroughout(Plains(LAST_LINE)) && !IsPushInt(Plains(LAST_LINE)[4])
  {
    LinkLine(LAST_LINE, Nil, at);
    assert Link(Nil, at + 5) == [];
    assert Plains(LAST_LINE) + [] == Plains(LAST_LINE);
  }

  /** The code of the loop's body is quiet. */
  lemma StepQuiet(at: nat)
    ensures Size(Digits10Step()) == 40
    ensures var c := Link(Digits10Step(), at);
      QuietThroughout(c) && c[0] == Operation(Plain(Sh(Swap)), NoJump) && !IsPushInt(c[39])
  {
    hide Line;
    hide Test;
    hide Link;
    hide Size;
    hide Quiet;
    var last := Line(LAST_LINE, Nil);
    var t4 := Test(10000, 3, last);
    var t3 := Test(1000, 2, t4);
    var t2 := Test(100, 1, t3);
    var t1 := Test(10, 0, t2);
    LastQuiet(at + 35);
    TestThen(10000, 3, last, at + 26, 5);
    TestThen(1000, 2, t4, at + 17, 14);
    TestThen(100, 1, t3, at + 8, 23);
    TestThen(10, 0, t2, at + 1, 32);
    LinkLine([Sh(Swap)], t1, at);
    assert Digits10Step() == Line([Sh(Swap)], t1);
    var c := Plains([Sh(Swap)]);
    assert c == [Operation(Plain(Sh(Swap)), NoJump)];
    QuietConcat(c, Link(t1, at + 1)) by {
      assert Quiet(c[0], Link(t1, at + 1)[0]) by {
        NotLiteral(c[0], Link(t1, at + 1)[0]);
      }
    }
  }

  lemma NotLiteral(x: Operation, y: Operation)
    requires !IsPushInt(x)
    ensures Quiet(x, y)
  {
  }

  const TRUE: Operation := Operation(Plain(PushInt(1, Bool)), NoJump)

  /** The code of the word. */
  function Digits10Code(): (r: seq<Operation>)
    ensures |r| == 46
  {
    StepQuiet(4);
    [Operation(Plain(Lit(1)), NoJump), Operation(While, NoJump), TRUE, Operation(Do, To(45))] + Link(Digits10Step(), 4)
    + [Operation(End, To(1)), Operation(Plain(Sh(Drop)), NoJump)]
  }

  /** Where its loop stands. */
  function Digits10Path(): Path {
    Spot(Seq(Simple(Lit(1)), Nil), Seq(Simple(Sh(Drop)), Nil))
  }

  lemma Digits10Plugs()
    ensures Digits10Block() == Plug(Digits10Path(), LoopUnit(Nil, 1, Bool, Digits10Step()))
    ensures Offset(Digits10Path()) == 1 && OnlyConditions(Digits10Path())
  {
    hide Digits10Step;
    var drop := Seq(Simple(Sh(Drop)), Nil);
    assert Line([], Nil) == Nil && [Sh(Drop)][1..] == [] && [Lit(1)][1..] == [];
    assert Line([Sh(Drop)], Nil) == drop;
    assert Line([Lit(1)], Seq(Digits10Loop(), drop)) == Seq(Simple(Lit(1)), Line([], Seq(Digits10Loop(), drop)));
    assert Append(Nil, Seq(Literal(1, Bool), Nil)) == Seq(Literal(1, Bool), Nil);
    assert Size(Nil) == 0;
  }

  lemma Digits10Links()
    ensures Link(Digits10Block(), 0) == Digits10Code()
  {
    hide Digits10Step;
    hide Digits10Block;
    hide Link;
    hide Size;
    hide LoopUnit;
    hide Append;
    hide QuietThroughout;
    StepQuiet(4);
    Digits10Plugs();
    var step, unit := Digits10Step(), LoopUnit(Nil, 1, Bool, Digits10Step());
    var pre, post := Seq(Simple(Lit(1)), Nil), Seq(Simple(Sh(Drop)), Nil);
    OneWordCode(Lit(1), 0);
    OneWordCode(Sh(Drop), 45);
    NothingLinked();
    LinkSpot(pre, unit, post, 0);
    LoopUnitCode(Nil, 1, Bool, step, 1);
    Assemble(Operation(Plain(Lit(1)), NoJump), Operation(While, NoJump), TRUE, Operation(Do, To(45)), Link(step, 4),
             Operation(End, To(1)), Operation(Plain(Sh(Drop)), NoJump));
  }

  lemma Assemble(a: Operation, b: Operation, c: Operation, d: Operation, step: seq<Operation>, e: Operation,
      f: Operation)
    ensures [a] + ([b] + ([] + [c]) + [d] + step + [e]) + [f] == [a, b, c, d] + step + [e, f]
    ensures [a] + (([b] + ([] + [c]) + [d] + step + [e]) + [f]) == [a, b, c, d] + step + [e, f]
  {
  }

  lemma OneWordCode(op: Plain, at: nat)
    ensures Link(Seq(Simple(op), Nil), at) == [Operation(Plain(op), NoJump)] && Size(Seq(Simple(op), Nil)) == 1
  {
    assert Link(Nil, at + 1) == [];
  }

  /** `1` in front of the loop does not take in the `swap` it starts with. */
  lemma Digits10Apart()
    ensures !Joins(Digits10Code(), 1, 4)
  {
    hide Link;
    hide Size;
    StepQuiet(4);
    var body := Digits10Code();
    assert body[4] == Operation(Plain(Sh(Swap)), NoJump);
    assert body[0..1] + [body[4]] == [] + [body[0]] + [body[4]];
    FoldRunSnoc([], body[0]);
    FoldRunSnoc([] + [body[0]], body[4]);
    assert FoldOperation([1], body[4]) == Blocked;
    assert !JoinsFrom(body, 0, 1, 4);
  }

  /** What the rewrite leaves: `1`, the loop's body, and its `end`. */
  lemma Digits10Left()
    ensures QuietThroughout(Unlooped(Digits10Code(), 1, 2, 45))
  {
    hide Link;
    hide Size;
    hide Quiet;
    hide Unlooped;
    StepQuiet(4);
    var body, step := Digits10Code(), Link(Digits10Step(), 4);
    var one, end := Operation(Plain(Lit(1)), NoJump), Operation(End, To(1));
    var plain := [one] + step + [end];
    assert Quiet(one, step[0]) by {
      LiteralThenSwap(step[0]);
    }
    NotLiteral(step[39], end);
    QuietConcat([one], step);
    QuietConcat([one] + step, [end]);
    var new_ := Unlooped(body, 1, 2, 45);
    UnloopedAt(body, 1, 2, 45, 0);
    forall k | 0 <= k < 42
      ensures new_[k].kind == plain[k].kind
    {
      UnloopedAt(body, 1, 2, 45, k);
      if 1 <= k < 41 {
        assert body[k + 3] == step[k - 1];
      }
    }
    SameQuiet(new_, plain);
  }

  lemma LiteralThenSwap(op: Operation)
    requires op == Operation(Plain(Sh(Swap)), NoJump)
    ensures Quiet(Operation(Plain(Lit(1)), NoJump), op)
  {
  }

  lemma SameQuiet(a: seq<Operation>, b: seq<Operation>)
    requires |a| == |b| && (forall k :: 0 <= k < |a| ==> a[k].kind == b[k].kind) && QuietThroughout(b)
    ensures QuietThroughout(a)
  {
    forall i | 0 <= i < |a| - 1
      ensures Quiet(a[i], a[i + 1])
    {
      assert Quiet(b[i], b[i + 1]);
    }
  }

  /** Nothing to fold before the rewrite. */
  lemma Digits10Settled()
    ensures FoldBody(Digits10Code()) == FoldOutcome.Unchanged
  {
    hide Link;
    hide Size;
    hide ScanFrom;
    StepQuiet(4);
    var body, step := Digits10Code(), Link(Digits10Step(), 4);
    forall i | 0 <= i < |body| - 1
      ensures Alone(body[i], body[i + 1])
    {
      if 4 <= i < 43 {
        assert Quiet(step[i - 4], step[i - 3]) by {
          QuietPair(step, i - 4);
        }
      } else if i == 43 {
        assert body[i] == step[39];
      }
    }
    AloneSettled(body, 0);
  }

  lemma Digits10Right()
    ensures IsCondition(Digits10Code(), 3) && RightAt(Digits10Code(), 3)
    ensures RewriteCondition(Digits10Code(), 3) == Some(Unlooped(Digits10Code(), 1, 2, 45))
  {
    hide Link;
    hide Size;
    hide RightAt;
    hide Joins;
    hide Unlooped;
    hide RewriteCondition;
    hide Plug;
    hide LoopUnit;
    hide Digits10Block;
    hide Digits10Step;
    hide Digits10Path;
    hide Digits10Code;
    Digits10Links();
    Digits10Apart();
    Digits10Plugs();
    NothingLinked();
    StepQuiet(4);
    SourceLoopRight(Digits10Path(), Nil, 1, Bool, Digits10Step(), Digits10Code());
  }

  lemma Digits10Starts()
    ensures !IsCondition(Digits10Code(), 1) && !IsCondition(Digits10Code(), 2)
  {
    hide Link;
  }

  /** One rewrite at the third operation, and nothing else. */
  lemma OneRewrite(body: seq<Operation>, new_: seq<Operation>)
    requires |body| > 3 && !IsCondition(body, 1) && !IsCondition(body, 2) && IsCondition(body, 3) && RightAt(body, 3)
    requires RewriteCondition(body, 3) == Some(new_) && Undecided(new_)
    ensures RightPass(body) && ConditionsBody(body) == ConditionOutcome.Changed(new_)
  {
    hide RightAt;
    hide Undecided;
    hide RewriteCondition;
    UndecidedIsRight(new_, 3);
    NothingConstant(new_, 3, true);
    RewriteShrinks(body, 3);
    assert RightFrom(body, 3) && ConditionsFrom(body, 3, false) == ConditionOutcome.Changed(new_);
    assert RightFrom(body, 2) && ConditionsFrom(body, 2, false) == ConditionOutcome.Changed(new_);
  }

  lemma QuietSigns(body: seq<Operation>)
    requires QuietThroughout(body)
    ensures SignsOpen(body)
  {
    hide QuietThroughout;
    hide FoldRun;
    forall t | 0 <= t < |body| && !SignBlind(body[t].kind)
      ensures Landing(body, t)
    {
      forall a | 0 <= a < t
        ensures !TakesIn(body, a, t)
      {
        NothingTaken(body, a, t);
      }
    }
  }

  lemma NothingTaken(body: seq<Operation>, a: nat, t: nat)
    requires QuietThroughout(body) && a < t
    ensures !TakesIn(body, a, t)
  {
    hide QuietThroughout;
    if TakesIn(body, a, t) {
      var ops := body[a..t + 1];
      PrefixFolds(ops, 1);
      PrefixFolds(ops, 2);
      assert ops[..1] == [] + [body[a]] && ops[..2] == [] + [body[a]] + [body[a + 1]];
      FoldRunSnoc([], body[a]);
      FoldRunSnoc([] + [body[a]], body[a + 1]);
      QuietPair(body, a);
    }
  }

  /** `digits10` as the parser leaves it meets the condition under which every run of the optimizer is sound on it. */
  lemma Digits10Calm()
    ensures CalmBody(Link(Digits10Block(), 0))
    ensures PassResult(KnownConditions, Link(Digits10Block(), 0)) == Rewritten(Unlooped(Digits10Code(), 1, 2, 45))
  {
    hide Link;
    hide Digits10Block;
    hide Digits10Code;
    hide RightAt;
    hide RightPass;
    hide Unlooped;
    hide Undecided;
    hide SignsOpen;
    hide FoldBody;
    hide ConditionsBody;
    hide RewriteCondition;
    Digits10Links();
    Digits10Left();
    Digits10Settled();
    Digits10Right();
    Digits10Starts();
    var body := Digits10Code();
    QuietUndecided(Unlooped(body, 1, 2, 45));
    QuietSigns(Unlooped(body, 1, 2, 45));
    OneRewrite(body, Unlooped(body, 1, 2, 45));
  }

  lemma NothingLinked()
    ensures Size(Nil) == 0 && forall at: nat :: Link(Nil, at) == []
  {
  }
}
