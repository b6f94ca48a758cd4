/**
 `digits10` and `parse(u64)` as the standard library writes them: blocks of words, run by the structured semantics,
 so by `CompilationCorrect` also what their jump code does.
 */
module LibraryWords {
  import opened Wrappers
  import opened Words
  import opened Operations
  import opened Machine
  import opened Structured
  import opened Decimal

  // ----- straight lines -----

  function Line(ops: seq<Plain>, rest: Block): Block {
    if ops == [] then rest else Seq(Simple(ops[0]), Line(ops[1..], rest))
  }

  function Lit(v: Word): Plain {
    PushInt(v, Int)
  }

  function Op(op: BinaryOp): Plain {
    Intrinsic(Binary(op))
  }

  function Sh(s: ShuffleOp): Plain {
    Intrinsic(Shuffle(s))
  }

  /** What a line of words that stay in their frame does. */
  function Straight(env: Env, ops: seq<Plain>, st: seq<Word>, world: World): Effect
    requires forall k :: 0 <= k < |ops| ==> IsLocal(ops[k])
  {
    if ops == [] then Continue(st, world)
    else
      match ApplyPlain(env, ops[0], st, world)
      case Fault(why) => Fault(why)
      case Continue(st', world') => Straight(env, ops[1..], st', world')
  }

  lemma SimpleRuns(env: Env, p: StructuredProgram, fuel: nat, q: Plain, rest: Block, st: seq<Word>, world: World)
    requires IsLocal(q) && ApplyPlain(env, q, st, world).Continue?
    ensures var e := ApplyPlain(env, q, st, world);
      Exec(env, p, fuel, Seq(Simple(q), rest), st, world) == Exec(env, p, fuel, rest, e.stack, e.world)
  {
    hide ApplyPlain;
    var e := ApplyPlain(env, q, st, world);
    assert ExecSimple(env, p, fuel, q, st, world) == Next(e.stack, e.world);
    assert ExecStmt(env, p, fuel, Simple(q), st, world) == ExecSimple(env, p, fuel, q, st, world);
  }

  lemma ReturnRuns(env: Env, p: StructuredProgram, fuel: nat, st: seq<Word>, world: World)
    ensures Exec(env, p, fuel, Seq(Simple(Return), Nil), st, world) == Returned(st, world)
  {
    assert ExecSimple(env, p, fuel, Return, st, world) == Returned(st, world);
    assert ExecStmt(env, p, fuel, Simple(Return), st, world) == Returned(st, world);
  }

  lemma {:induction false} LineRuns(env: Env, p: StructuredProgram, fuel: nat, ops: seq<Plain>, rest: Block,
      st: seq<Word>, world: World)
    requires (forall k :: 0 <= k < |ops| ==> IsLocal(ops[k])) && Straight(env, ops, st, world).Continue?
    ensures var e := Straight(env, ops, st, world);
      Exec(env, p, fuel, Line(ops, rest), st, world) == Exec(env, p, fuel, rest, e.stack, e.world)
    decreases |ops|
  {
    hide ApplyPlain;
    hide Exec;
    if ops != [] {
      var e := ApplyPlain(env, ops[0], st, world);
      SimpleRuns(env, p, fuel, ops[0], Line(ops[1..], rest), st, world);
      LineRuns(env, p, fuel, ops[1..], rest, e.stack, e.world);
    }
  }

  /** One word at a time, over whatever lies below. */
  lemma Then(env: Env, q: Plain, ops: seq<Plain>, st: seq<Word>, world: World, st': seq<Word>)
    requires (forall k :: 0 <= k < |ops| ==> IsLocal(ops[k])) && IsLocal(q)
    requires ApplyPlain(env, q, st, world) == Continue(st', world)
    ensures Straight(env, [q] + ops, st, world) == Straight(env, ops, st', world)
  {
    hide ApplyPlain;
    assert ([q] + ops)[1..] == ops;
  }

  lemma DoPush(env: Env, v: Word, st: seq<Word>, world: World)
    ensures ApplyPlain(env, Lit(v), st, world) == Continue(st + [v], world)
  {
  }

  lemma DoDup(env: Env, st: seq<Word>, x: Word, world: World)
    ensures ApplyPlain(env, Sh(Dup), st + [x], world) == Continue(st + [x, x], world)
  {
    assert st + [x] + [x] == st + [x, x];
  }

  lemma DoDrop(env: Env, st: seq<Word>, x: Word, world: World)
    ensures ApplyPlain(env, Sh(Drop), st + [x], world) == Continue(st, world)
  {
    assert (st + [x])[..|st|] == st;
  }

  lemma DoSwap(env: Env, st: seq<Word>, x: Word, y: Word, world: World)
    ensures ApplyPlain(env, Sh(Swap), st + [x, y], world) == Continue(st + [y, x], world)
  {
    assert (st + [x, y])[..|st|] == st;
  }

  lemma DoRot(env: Env, st: seq<Word>, x: Word, y: Word, z: Word, world: World)
    ensures ApplyPlain(env, Sh(Rot), st + [x, y, z], world) == Continue(st + [y, z, x], world)
  {
    assert (st + [x, y, z])[..|st|] == st;
  }

  lemma DoBinary(env: Env, op: BinaryOp, st: seq<Word>, x: Word, y: Word, v: Word, world: World)
    requires MachineBinary(op, x, y) == Some(v)
    ensures ApplyPlain(env, Op(op), st + [x, y], world) == Continue(st + [v], world)
  {
    hide MachineBinary;
    assert (st + [x, y])[..|st|] == st;
  }

  lemma DoLoad8(env: Env, st: seq<Word>, x: Word, world: World)
    requires 0 <= Machine.Byte(world.memory, x) < 256
    ensures ApplyPlain(env, Intrinsic(Load(1)), st + [x], world)
        == Continue(st + [Machine.Byte(world.memory, x)], world)
  {
    assert (st + [x])[..|st|] == st;
    assert LoadBytes(world.memory, x + 1, 0) == 0;
    assert LoadBytes(world.memory, x, 1) == Machine.Byte(world.memory, x) + 256 * LoadBytes(world.memory, x + 1, 0);
  }

  // ----- digits10 -----

  /** `drop <add> + return`, without the addition when there is nothing to add. */
  function Finish(add: Word): seq<Plain> {
    if add == 0 then [Sh(Drop)] else [Sh(Drop), Lit(add), Op(Add)]
  }

  /** `dup <limit> < if … return end`. */
  function Test(limit: Word, add: Word, rest: Block): Block {
    Line([Sh(Dup), Lit(limit), Op(Less)], Seq(IfThen(Line(Finish(add), Seq(Simple(Return), Nil))), rest))
  }

  function Digits10Step(): Block {
    Line([Sh(Swap)], Test(10, 0, Test(100, 1, Test(1000, 2, Test(10000, 3,
      Line([Lit(10000), Op(Div), Sh(Swap), Lit(4), Op(Add)], Nil))))))
  }

  function Digits10Loop(): Stmt {
    Loop(Seq(Simple(PushInt(1, Bool)), Nil), Digits10Step())
  }

  /** `1 while true do … end drop`. */
  function Digits10Block(): Block {
    Line([Lit(1)], Seq(Digits10Loop(), Line([Sh(Drop)], Nil)))
  }

  lemma FinishRuns(env: Env, p: StructuredProgram, fuel: nat, add: Word, st: seq<Word>, acc: Word, n: Word,
      world: World)
    requires acc + add < WORD_SIZE
    ensures Exec(env, p, fuel, Line(Finish(add), Seq(Simple(Return), Nil)), st + [acc, n], world)
        == Returned(st + [acc + add], world)
  {
    hide ApplyPlain;
    hide Straight;
    var ops := Finish(add);
    assert st + [acc, n] == (st + [acc]) + [n];
    DoDrop(env, st + [acc], n, world);
    if add == 0 {
      Then(env, Sh(Drop), [], st + [acc, n], world, st + [acc]);
      NothingMore(env, st + [acc], world);
      assert [Sh(Drop)] + [] == ops;
    } else {
      var two := [Lit(add), Op(Add)];
      Then(env, Sh(Drop), two, st + [acc, n], world, st + [acc]);
      DoPush(env, add, st + [acc], world);
      assert st + [acc] + [add] == st + [acc, add];
      Then(env, Lit(add), [Op(Add)], st + [acc], world, st + [acc, add]);
      DoBinary(env, Add, st, acc, add, acc + add, world);
      Then(env, Op(Add), [], st + [acc, add], world, st + [acc + add]);
      NothingMore(env, st + [acc + add], world);
      assert [Sh(Drop)] + two == ops && [Lit(add)] + [Op(Add)] == two && [Op(Add)] + [] == [Op(Add)];
    }
    LineRuns(env, p, fuel, ops, Seq(Simple(Return), Nil), st + [acc, n], world);
    ReturnRuns(env, p, fuel, st + [acc + add], world);
  }

  lemma NothingMore(env: Env, st: seq<Word>, world: World)
    ensures Straight(env, [], st, world) == Continue(st, world)
  {
  }

  lemma TestRuns(env: Env, p: StructuredProgram, fuel: nat, limit: Word, add: Word, rest: Block, st: seq<Word>,
      acc: Word, n: Word, world: World)
    requires acc + add < WORD_SIZE
    ensures Exec(env, p, fuel, Test(limit, add, rest), st + [acc, n], world)
         == if n < limit then Returned(st + [acc + add], world) else Exec(env, p, fuel, rest, st + [acc, n], world)
  {
    hide ApplyPlain;
    hide Straight;
    hide Finish;
    hide Line;
    var v := FromBool(n < limit);
    var st2 := st + [acc, n];
    assert st2 == (st + [acc]) + [n] && st2 + [n] == (st + [acc]) + [n, n] && st2 + [n] + [limit] == st2 + [n, limit];
    DoDup(env, st + [acc], n, world);
    Then(env, Sh(Dup), [Lit(limit), Op(Less)], st2, world, st2 + [n]);
    DoPush(env, limit, st2 + [n], world);
    Then(env, Lit(limit), [Op(Less)], st2 + [n], world, st2 + [n, limit]);
    DoBinary(env, Less, st2, n, limit, v, world);
    Then(env, Op(Less), [], st2 + [n, limit], world, st2 + [v]);
    NothingMore(env, st2 + [v], world);
    var ops := [Sh(Dup), Lit(limit), Op(Less)];
    assert [Sh(Dup)] + [Lit(limit), Op(Less)] == ops && [Lit(limit)] + [Op(Less)] == [Lit(limit), Op(Less)]
        && [Op(Less)] + [] == [Op(Less)];
    var branch := IfThen(Line(Finish(add), Seq(Simple(Return), Nil)));
    LineRuns(env, p, fuel, ops, Seq(branch, rest), st2, world);
    assert (st2 + [v])[..|st2|] == st2;
    FinishRuns(env, p, fuel, add, st, acc, n, world);
  }

  lemma LastLineRuns(env: Env, p: StructuredProgram, fuel: nat, st: seq<Word>, acc: Word, n: Word, world: World)
    requires acc + 4 < WORD_SIZE
    ensures Exec(env, p, fuel, Line([Lit(10000), Op(Div), Sh(Swap), Lit(4), Op(Add)], Nil), st + [acc, n], world)
         == Next(st + [n / 10000, acc + 4], world)
  {
    hide ApplyPlain;
    hide Straight;
    hide Line;
    var a, b, c, d := [Op(Div), Sh(Swap), Lit(4), Op(Add)], [Sh(Swap), Lit(4), Op(Add)], [Lit(4), Op(Add)], [Op(Add)];
    var ops, q := [Lit(10000)] + a, n / 10000;
    assert st + [acc, n] + [10000] == (st + [acc]) + [n, 10000] && (st + [acc]) + [q] == st + [acc, q];
    assert st + [q, acc] + [4] == (st + [q]) + [acc, 4] && (st + [q]) + [acc + 4] == st + [q, acc + 4];
    DoPush(env, 10000, st + [acc, n], world);
    Then(env, Lit(10000), a, st + [acc, n], world, (st + [acc]) + [n, 10000]);
    Quotients(n);
    DoBinary(env, Div, st + [acc], n, 10000, q, world);
    Then(env, Op(Div), b, (st + [acc]) + [n, 10000], world, st + [acc, q]);
    DoSwap(env, st, acc, q, world);
    Then(env, Sh(Swap), c, st + [acc, q], world, st + [q, acc]);
    DoPush(env, 4, st + [q, acc], world);
    Then(env, Lit(4), d, st + [q, acc], world, (st + [q]) + [acc, 4]);
    DoBinary(env, Add, st + [q], acc, 4, acc + 4, world);
    Then(env, Op(Add), [], (st + [q]) + [acc, 4], world, st + [q, acc + 4]);
    NothingMore(env, st + [q, acc + 4], world);
    assert [Op(Div)] + b == a && [Sh(Swap)] + c == b && [Lit(4)] + d == c && [Op(Add)] + [] == d;
    assert ops == [Lit(10000), Op(Div), Sh(Swap), Lit(4), Op(Add)];
    LineRuns(env, p, fuel, ops, Nil, st + [acc, n], world);
  }

  lemma Quotients(n: Word)
    ensures MachineBinary(Div, n, 10000) == Some(n / 10000)
  {
  }

  /** One turn of the loop, from `n acc` on the stack. */
  lemma StepRuns(env: Env, p: StructuredProgram, fuel: nat, st: seq<Word>, n: Word, acc: Word, world: World)
    requires acc + 4 < WORD_SIZE
    ensures Exec(env, p, fuel, Digits10Step(), st + [n, acc], world) ==
      if n < 10 then Returned(st + [acc], world)
      else if n < 100 then Returned(st + [acc + 1], world)
      else if n < 1000 then Returned(st + [acc + 2], world)
      else if n < 10000 then Returned(st + [acc + 3], world)
      else Next(st + [n / 10000, acc + 4], world)
  {
    hide ApplyPlain;
    hide Straight;
    hide Line;
    hide Test;
    hide Exec;
    var last := Line([Lit(10000), Op(Div), Sh(Swap), Lit(4), Op(Add)], Nil);
    var t4 := Test(10000, 3, last);
    var t3 := Test(1000, 2, t4);
    var t2 := Test(100, 1, t3);
    var t1 := Test(10, 0, t2);
    DoSwap(env, st, n, acc, world);
    Then(env, Sh(Swap), [], st + [n, acc], world, st + [acc, n]);
    NothingMore(env, st + [acc, n], world);
    assert [Sh(Swap)] + [] == [Sh(Swap)];
    LineRuns(env, p, fuel, [Sh(Swap)], t1, st + [n, acc], world);
    TestRuns(env, p, fuel, 10, 0, t2, st, acc, n, world);
    TestRuns(env, p, fuel, 100, 1, t3, st, acc, n, world);
    TestRuns(env, p, fuel, 1000, 2, t4, st, acc, n, world);
    TestRuns(env, p, fuel, 10000, 3, last, st, acc, n, world);
    LastLineRuns(env, p, fuel, st, acc, n, world);
  }

  lemma TrueRuns(env: Env, p: StructuredProgram, fuel: nat, st: seq<Word>, world: World)
    ensures Exec(env, p, fuel, Seq(Simple(PushInt(1, Bool)), Nil), st, world) == Next(st + [1], world)
  {
    SimpleRuns(env, p, fuel, PushInt(1, Bool), Nil, st, world);
    assert Exec(env, p, fuel, Nil, st + [1], world) == Next(st + [1], world);
  }

  /** With enough fuel for its turns, the loop returns with the digits counted. */
  lemma {:induction false} Digits10LoopRuns(env: Env, p: StructuredProgram, fuel: nat, st: seq<Word>, n: Word, acc: nat,
      world: World)
    requires fuel >= |Text(n)| && acc >= 1 && acc + |Text(n)| + 4 < WORD_SIZE
    ensures ExecStmt(env, p, fuel, Digits10Loop(), st + [n, acc], world) == Returned(st + [acc - 1 + |Text(n)|], world)
    decreases n
  {
    hide Text;
    hide Digits10Step;
    hide Exec;
    TrueRuns(env, p, fuel, st + [n, acc], world);
    assert (st + [n, acc] + [1])[..|st| + 2] == st + [n, acc];
    StepRuns(env, p, fuel, st, n, acc, world);
    ShortText(n);
    if n >= 10000 {
      FourDigitsShorter(n);
      Digits10LoopRuns(env, p, fuel - 1, st, n / 10000, acc + 4, world);
    }
  }

  /** The block returns with the number replaced by how many decimal digits it has, nothing below touched. */
  lemma Digits10Runs(env: Env, p: StructuredProgram, fuel: nat, st: seq<Word>, n: Word, world: World)
    requires fuel >= 20
    ensures |Text(n)| <= 20
    ensures Exec(env, p, fuel, Digits10Block(), st + [n], world) == Returned(st + [|Text(n)|], world)
  {
    hide Text;
    hide ApplyPlain;
    hide Straight;
    hide Line;
    hide Digits10Loop;
    hide ExecStmt;
    BufferSuffices(n);
    var rest := Seq(Digits10Loop(), Line([Sh(Drop)], Nil));
    DoPush(env, 1, st + [n], world);
    assert st + [n] + [1] == st + [n, 1] && [Lit(1)] + [] == [Lit(1)];
    Then(env, Lit(1), [], st + [n], world, st + [n, 1]);
    NothingMore(env, st + [n, 1], world);
    LineRuns(env, p, fuel, [Lit(1)], rest, st + [n], world);
    Digits10LoopRuns(env, p, fuel, st, n, 1, world);
  }

  // ----- parse(u64) -----

  /** `dup load8 dup '0' >= swap '9' <= and`. */
  function DigitTest(): seq<Plain> {
    [Sh(Dup), Intrinsic(Load(1)), Sh(Dup), Lit(48), Op(GreaterEq), Sh(Swap), Lit(57), Op(LessEq), Op(BooleanAnd)]
  }

  /** `dup load8 '0' - rot 10 * + swap 1 +`. */
  function DigitTaken(): seq<Plain> {
    [Sh(Dup), Intrinsic(Load(1)), Lit(48), Op(Subtract), Sh(Rot), Lit(10), Op(Mul), Op(Add), Sh(Swap), Lit(1), Op(Add)]
  }

  function ParseLoop(): Stmt {
    Loop(Line(DigitTest(), Nil), Line(DigitTaken(), Nil))
  }

  /** `0 swap while … do … end drop`. */
  function ParseBlock(): Block {
    Line([Lit(0), Sh(Swap)], Seq(ParseLoop(), Line([Sh(Drop)], Nil)))
  }

  lemma {:induction false} BitsZero(f: (bool, bool) -> bool, n: nat)
    requires !f(false, false)
    ensures Bits(f, n, 0, 0) == 0
    decreases n
  {
    if n > 0 {
      BitsZero(f, n - 1);
    }
  }

  lemma BitAnd(f: (bool, bool) -> bool, x: bool, y: bool)
    requires !f(false, false)
    ensures Bits(f, 64, FromBool(x), FromBool(y)) == FromBool(f(x, y))
  {
    BitsZero(f, 63);
    assert FromBool(x) / 2 == 0 && FromBool(y) / 2 == 0;
  }

  lemma BooleansAnd(x: bool, y: bool)
    ensures MachineBinary(BooleanAnd, FromBool(x), FromBool(y)) == Some(FromBool(x && y))
  {
    hide Bits;
    BitAnd((x, y) => x && y, x, y);
  }

  lemma {:induction false} StraightTail(env: Env, a: seq<Plain>, b: seq<Plain>, st: seq<Word>, world: World)
    requires (forall k :: 0 <= k < |a| ==> IsLocal(a[k])) && (forall k :: 0 <= k < |b| ==> IsLocal(b[k]))
    ensures forall k :: 0 <= k < |a + b| ==> IsLocal((a + b)[k])
    ensures Straight(env, a + b, st, world) == match Straight(env, a, st, world) case Fault(why) => Fault(why)
        case Continue(s, w) => Straight(env, b, s, w)
    decreases |a|
  {
    hide ApplyPlain;
    if a == [] {
      assert a + b == b;
    } else {
      assert (a + b)[0] == a[0] && (a + b)[1..] == a[1..] + b;
      var e := ApplyPlain(env, a[0], st, world);
      if e.Continue? {
        StraightTail(env, a[1..], b, e.stack, e.world);
      }
    }
  }

  /** `dup load8`. */
  lemma Peek(env: Env, st: seq<Word>, ptr: Word, world: World)
    requires 0 <= Machine.Byte(world.memory, ptr) < 256
    ensures Straight(env, [Sh(Dup), Intrinsic(Load(1))], st + [ptr], world)
        == Continue(st + [ptr, Machine.Byte(world.memory, ptr)], world)
  {
    hide ApplyPlain;
    hide Straight;
    var c := Machine.Byte(world.memory, ptr);
    DoDup(env, st, ptr, world);
    assert st + [ptr, ptr] == (st + [ptr]) + [ptr] && (st + [ptr]) + [c] == st + [ptr, c];
    DoLoad8(env, st + [ptr], ptr, world);
    Then(env, Intrinsic(Load(1)), [], st + [ptr, ptr], world, st + [ptr, c]);
    Then(env, Sh(Dup), [Intrinsic(Load(1))], st + [ptr], world, st + [ptr, ptr]);
    NothingMore(env, st + [ptr, c], world);
    assert [Intrinsic(Load(1))] + [] == [Intrinsic(Load(1))]
        && [Sh(Dup)] + [Intrinsic(Load(1))] == [Sh(Dup), Intrinsic(Load(1))];
  }

  /** A literal and a comparison or sum with it. */
  lemma WithLiteral(env: Env, op: BinaryOp, st: seq<Word>, x: Word, y: Word, v: Word, world: World)
    requires MachineBinary(op, x, y) == Some(v)
    ensures Straight(env, [Lit(y), Op(op)], st + [x], world) == Continue(st + [v], world)
  {
    hide ApplyPlain;
    hide Straight;
    hide MachineBinary;
    DoPush(env, y, st + [x], world);
    assert st + [x] + [y] == st + [x, y];
    DoBinary(env, op, st, x, y, v, world);
    Then(env, Op(op), [], st + [x, y], world, st + [v]);
    Then(env, Lit(y), [Op(op)], st + [x], world, st + [x, y]);
    NothingMore(env, st + [v], world);
    assert [Op(op)] + [] == [Op(op)] && [Lit(y)] + [Op(op)] == [Lit(y), Op(op)];
  }

  lemma OneWord(env: Env, q: Plain, st: seq<Word>, world: World, st': seq<Word>)
    requires IsLocal(q) && ApplyPlain(env, q, st, world) == Continue(st', world)
    ensures Straight(env, [q], st, world) == Continue(st', world)
  {
    hide ApplyPlain;
    Then(env, q, [], st, world, st');
    assert [q] + [] == [q];
  }

  lemma TestMiddle(env: Env, st: seq<Word>, c: Word, world: World)
    ensures Straight(env, [Sh(Dup)] + [Lit(48), Op(GreaterEq)] + [Sh(Swap)] + [Lit(57), Op(LessEq)], st + [c], world)
         == Continue(st + [FromBool(c >= 48), FromBool(c <= 57)], world)
  {
    hide ApplyPlain;
    hide Straight;
    var ge, le := FromBool(c >= 48), FromBool(c <= 57);
    DoDup(env, st, c, world);
    OneWord(env, Sh(Dup), st + [c], world, st + [c, c]);
    assert st + [c, c] == (st + [c]) + [c] && (st + [c]) + [ge] == st + [c, ge];
    WithLiteral(env, GreaterEq, st + [c], c, 48, ge, world);
    StraightTail(env, [Sh(Dup)], [Lit(48), Op(GreaterEq)], st + [c], world);
    DoSwap(env, st, c, ge, world);
    OneWord(env, Sh(Swap), st + [c, ge], world, st + [ge, c]);
    StraightTail(env, [Sh(Dup)] + [Lit(48), Op(GreaterEq)], [Sh(Swap)], st + [c], world);
    assert st + [ge, c] == (st + [ge]) + [c] && (st + [ge]) + [le] == st + [ge, le];
    WithLiteral(env, LessEq, st + [ge], c, 57, le, world);
    StraightTail(env, [Sh(Dup)] + [Lit(48), Op(GreaterEq)] + [Sh(Swap)], [Lit(57), Op(LessEq)], st + [c], world);
  }

  /** The condition leaves whether the byte is a digit. */
  lemma DigitTestRuns(env: Env, p: StructuredProgram, fuel: nat, st: seq<Word>, ptr: Word, world: World)
    requires 0 <= Machine.Byte(world.memory, ptr) < 256
    ensures Exec(env, p, fuel, Line(DigitTest(), Nil), st + [ptr], world)
         == Next(st + [ptr, FromBool(48 <= Machine.Byte(world.memory, ptr) <= 57)], world)
  {
    hide ApplyPlain;
    hide Straight;
    hide Line;
    var c: Word := Machine.Byte(world.memory, ptr);
    var ge, le := FromBool(c >= 48), FromBool(c <= 57);
    var a, b := [Sh(Dup), Intrinsic(Load(1))],
        [Sh(Dup)] + [Lit(48), Op(GreaterEq)] + [Sh(Swap)] + [Lit(57), Op(LessEq)];
    Peek(env, st, ptr, world);
    assert st + [ptr, c] == (st + [ptr]) + [c];
    TestMiddle(env, st + [ptr], c, world);
    StraightTail(env, a, b, st + [ptr], world);
    BooleansAnd(c >= 48, c <= 57);
    DoBinary(env, BooleanAnd, st + [ptr], ge, le, FromBool(48 <= c <= 57), world);
    OneWord(env, Op(BooleanAnd), (st + [ptr]) + [ge, le], world, (st + [ptr]) + [FromBool(48 <= c <= 57)]);
    StraightTail(env, a + b, [Op(BooleanAnd)], st + [ptr], world);
    assert a + b + [Op(BooleanAnd)] == DigitTest();
    assert (st + [ptr]) + [FromBool(48 <= c <= 57)] == st + [ptr, FromBool(48 <= c <= 57)];
    LineRuns(env, p, fuel, DigitTest(), Nil, st + [ptr], world);
  }

  /** The result so far, with one more digit. */
  function Taken(res: Word, c: Word): Word {
    Wrap(Wrap(c - 48) + Wrap(res * 10))
  }

  lemma TakenMiddle(env: Env, st: seq<Word>, res: Word, ptr: Word, c: Word, world: World)
    ensures Straight(env, [Lit(48), Op(Subtract)] + [Sh(Rot)] + [Lit(10), Op(Mul)] + [Op(Add)],
        st + [res, ptr, c], world)
         == Continue(st + [ptr, Taken(res, c)], world)
  {
    hide ApplyPlain;
    hide Straight;
    hide Wrap;
    var d, t := Wrap(c - 48), Wrap(res * 10);
    assert st + [res, ptr, c] == (st + [res, ptr]) + [c] && (st + [res, ptr]) + [d] == st + [res, ptr, d];
    WithLiteral(env, Subtract, st + [res, ptr], c, 48, d, world);
    DoRot(env, st, res, ptr, d, world);
    OneWord(env, Sh(Rot), st + [res, ptr, d], world, st + [ptr, d, res]);
    StraightTail(env, [Lit(48), Op(Subtract)], [Sh(Rot)], st + [res, ptr, c], world);
    assert st + [ptr, d, res] == (st + [ptr, d]) + [res] && (st + [ptr, d]) + [t] == (st + [ptr]) + [d, t];
    WithLiteral(env, Mul, st + [ptr, d], res, 10, t, world);
    StraightTail(env, [Lit(48), Op(Subtract)] + [Sh(Rot)], [Lit(10), Op(Mul)], st + [res, ptr, c], world);
    var total := Taken(res, c);
    DoBinary(env, Add, st + [ptr], d, t, total, world);
    OneWord(env, Op(Add), (st + [ptr]) + [d, t], world, (st + [ptr]) + [total]);
    StraightTail(env, [Lit(48), Op(Subtract)] + [Sh(Rot)] + [Lit(10), Op(Mul)], [Op(Add)], st + [res, ptr, c], world);
    assert (st + [ptr]) + [total] == st + [ptr, total];
  }

  lemma DigitTakenRuns(env: Env, p: StructuredProgram, fuel: nat, st: seq<Word>, res: Word, ptr: Word, world: World)
    requires 0 <= Machine.Byte(world.memory, ptr) < 256
    ensures Exec(env, p, fuel, Line(DigitTaken(), Nil), st + [res, ptr], world)
         == Next(st + [Taken(res, Machine.Byte(world.memory, ptr)), Wrap(ptr + 1)], world)
  {
    hide ApplyPlain;
    hide Straight;
    hide Line;
    hide Taken;
    hide Wrap;
    var c: Word := Machine.Byte(world.memory, ptr);
    var r := Taken(res, c);
    var a, b := [Sh(Dup), Intrinsic(Load(1))], [Lit(48), Op(Subtract)] + [Sh(Rot)] + [Lit(10), Op(Mul)] + [Op(Add)];
    assert st + [res, ptr] == (st + [res]) + [ptr] && (st + [res]) + [ptr, c] == st + [res, ptr, c];
    Peek(env, st + [res], ptr, world);
    TakenMiddle(env, st, res, ptr, c, world);
    StraightTail(env, a, b, st + [res, ptr], world);
    DoSwap(env, st, ptr, r, world);
    OneWord(env, Sh(Swap), st + [ptr, r], world, st + [r, ptr]);
    StraightTail(env, a + b, [Sh(Swap)], st + [res, ptr], world);
    assert st + [r, ptr] == (st + [r]) + [ptr] && (st + [r]) + [Wrap(ptr + 1)] == st + [r, Wrap(ptr + 1)];
    WithLiteral(env, Add, st + [r], ptr, 1, Wrap(ptr + 1), world);
    StraightTail(env, a + b + [Sh(Swap)], [Lit(1), Op(Add)], st + [res, ptr], world);
    assert a + b + [Sh(Swap)] + [Lit(1), Op(Add)] == DigitTaken();
    LineRuns(env, p, fuel, DigitTaken(), Nil, st + [res, ptr], world);
  }

  /** The bytes `s` lie at `ptr`, with something other than a digit among them. */
  ghost predicate Holds(world: World, ptr: nat, s: seq<Decimal.Byte>) {
    && ptr + |s| < WORD_SIZE
    && (forall k :: 0 <= k < |s| ==> Machine.Byte(world.memory, ptr + k) == s[k])
    && exists k :: 0 <= k < |s| && !IsDigit(s[k])
  }

  lemma HoldsRest(world: World, ptr: nat, s: seq<Decimal.Byte>)
    requires Holds(world, ptr, s) && IsDigit(s[0])
    ensures Holds(world, ptr + 1, s[1..])
  {
    var k :| 0 <= k < |s| && !IsDigit(s[k]);
    assert s[1..][k - 1] == s[k];
    forall j | 0 <= j < |s[1..]|
      ensures Machine.Byte(world.memory, ptr + 1 + j) == s[1..][j]
    {
      assert Machine.Byte(world.memory, ptr + (j + 1)) == s[j + 1];
    }
  }

  lemma TakenValue(pre: seq<Decimal.Byte>, b: Decimal.Byte, res: Word)
    requires IsDigit(b) && res == Wrap(Value(pre))
    ensures Taken(res, b) == Wrap(Value(pre + [b]))
  {
    hide Value;
    ValueNext(pre, b);
  }

  /** One turn of the loop. */
  lemma ParseTurn(env: Env, p: StructuredProgram, fuel: nat, st: seq<Word>, res: Word, ptr: Word, c: Decimal.Byte,
      world: World)
    requires fuel > 0 && Machine.Byte(world.memory, ptr) == c
    ensures ExecStmt(env, p, fuel, ParseLoop(), st + [res, ptr], world)
         == if IsDigit(c) then ExecStmt(env, p, fuel - 1, ParseLoop(), st + [Taken(res, c), Wrap(ptr + 1)], world)
            else Next(st + [res, ptr], world)
  {
    hide Exec;
    hide Line;
    hide Wrap;
    hide Taken;
    hide DigitTest;
    hide DigitTaken;
    var v := FromBool(48 <= c <= 57);
    assert st + [res, ptr] == (st + [res]) + [ptr] && (st + [res]) + [ptr, v] == (st + [res, ptr]) + [v];
    DigitTestRuns(env, p, fuel, st + [res], ptr, world);
    assert ((st + [res, ptr]) + [v])[..|st| + 2] == st + [res, ptr];
    if IsDigit(c) {
      DigitTakenRuns(env, p, fuel, st, res, ptr, world);
    }
  }

  lemma {:induction false} ParseLoopRuns(env: Env, p: StructuredProgram, fuel: nat, st: seq<Word>,
      pre: seq<Decimal.Byte>, ptr: Word,
                                         s: seq<Decimal.Byte>, world: World)
    requires fuel >= |s| && Holds(world, ptr, s)
    ensures ExecStmt(env, p, fuel, ParseLoop(), st + [Wrap(Value(pre)), ptr], world)
         == Next(st + [Wrap(Value(pre + DigitRun(s))), Wrap(ptr + |DigitRun(s)|)], world)
    decreases |s|
  {
    hide Value;
    hide ExecStmt;
    hide Wrap;
    hide ParseLoop;
    hide Taken;
    NextAddress(ptr, |s|);
    var res, c := Wrap(Value(pre)), s[0];
    assert Machine.Byte(world.memory, ptr + 0) == c;
    ParseTurn(env, p, fuel, st, res, ptr, c, world);
    if IsDigit(c) {
      TakenValue(pre, c, res);
      HoldsRest(world, ptr, s);
      ParseLoopRuns(env, p, fuel - 1, st, pre + [c], ptr + 1, s[1..], world);
      assert pre + [c] + DigitRun(s[1..]) == pre + ([c] + DigitRun(s[1..]));
    } else {
      assert pre + DigitRun(s) == pre;
    }
  }

  lemma NextAddress(ptr: Word, n: nat)
    requires n > 0 && ptr + n < WORD_SIZE
    ensures Wrap(ptr + 1) == ptr + 1 && Wrap(ptr) == ptr
  {
  }

  /** The block replaces an address by the value of the digits there, modulo 2^64. */
  lemma ParseRuns(env: Env, p: StructuredProgram, fuel: nat, st: seq<Word>, ptr: Word, s: seq<Decimal.Byte>,
      world: World)
    requires fuel >= |s| && Holds(world, ptr, s)
    ensures Exec(env, p, fuel, ParseBlock(), st + [ptr], world) == Next(st + [Wrap(Value(DigitRun(s)))], world)
  {
    hide ApplyPlain;
    hide Straight;
    hide Line;
    hide ParseLoop;
    hide ExecStmt;
    hide Value;
    hide Wrap;
    hide Holds;
    hide DigitRun;
    var loop, last := ParseLoop(), Line([Sh(Drop)], Nil);
    DoPush(env, 0, st + [ptr], world);
    assert st + [ptr] + [0] == st + [ptr, 0];
    OneWord(env, Lit(0), st + [ptr], world, st + [ptr, 0]);
    DoSwap(env, st, ptr, 0, world);
    OneWord(env, Sh(Swap), st + [ptr, 0], world, st + [0, ptr]);
    StraightTail(env, [Lit(0)], [Sh(Swap)], st + [ptr], world);
    assert [Lit(0)] + [Sh(Swap)] == [Lit(0), Sh(Swap)];
    LineRuns(env, p, fuel, [Lit(0), Sh(Swap)], Seq(loop, last), st + [ptr], world);
    NoDigits();
    ParseLoopRuns(env, p, fuel, st, [], ptr, s, world);
    assert [] + DigitRun(s) == DigitRun(s);
    var v, end := Wrap(Value(DigitRun(s))), Wrap(ptr + |DigitRun(s)|);
    assert st + [v, end] == (st + [v]) + [end];
    DoDrop(env, st + [v], end, world);
    OneWord(env, Sh(Drop), st + [v, end], world, st + [v]);
    LineRuns(env, p, fuel, [Sh(Drop)], Nil, st + [v, end], world);
  }
}
