/**
 `putu` and `date` as the standard library writes them: blocks of words, run by the structured semantics, so by
 `CompilationCorrect` also what their jump code does.
 */
module LibraryPrograms {
  import opened Wrappers
  import opened Words
  import opened Operations
  import opened Machine
  import opened Structured
  import opened Decimal
  import opened LibraryWords

  // ----- lines over any stack -----

  predicate Local(ops: seq<Plain>) {
    forall k :: 0 <= k < |ops| ==> IsLocal(ops[k])
  }

  /** Whatever lies below, these words turn `a` on the stack into `b`, and world `w` into `w'`. */
  ghost predicate Does(env: Env, ops: seq<Plain>, a: seq<Word>, w: World, b: seq<Word>, w': World) {
    Local(ops) && forall base: seq<Word> :: Straight(env, ops, base + a, w) == Continue(base + b, w')
  }

  /** Words that do not look at the height of the stack. */
  predicate Framed(q: Plain) {
    IsLocal(q) && q != Intrinsic(Top)
  }

  lemma ApplyFramed(env: Env, q: Plain, base: seq<Word>, a: seq<Word>, w: World)
    requires Framed(q) && ApplyPlain(env, q, a, w).Continue?
    ensures var e := ApplyPlain(env, q, a, w); ApplyPlain(env, q, base + a, w) == Continue(base + e.stack, e.world)
  {
    hide MachineBinary;
    hide LoadWord;
    hide StoreWord;
    var all, n := base + a, |a|;
    match q
    case PushInt(v, _) => assert all + [v] == base + (a + [v]);
    case PushSymbol(s) => assert all + [env.symbol(s)] == base + (a + [env.symbol(s)]);
    case Cast(_) =>
    case Intrinsic(i) => IntrinsicFramed(env, i, base, a, w);
  }

  lemma IntrinsicFramed(env: Env, i: Intrinsic, base: seq<Word>, a: seq<Word>, w: World)
    requires !i.Call? && !i.Top? && ApplyIntrinsic(env, i, a, w).Continue?
    ensures var e := ApplyIntrinsic(env, i, a, w);
      ApplyIntrinsic(env, i, base + a, w) == Continue(base + e.stack, e.world)
  {
    hide ApplyIntrinsic;
    match i
    case Syscall(count) => SyscallFramed(env, count, base, a, w);
    case Shuffle(s) => ShuffleCase(env, s, base, a, w);
    case Binary(_) => TwoFramed(env, i, base, a, w);
    case DivMod => TwoFramed(env, i, base, a, w);
    case Store(_) => TwoFramed(env, i, base, a, w);
    case _ => OtherFramed(env, i, base, a, w);
  }

  lemma ShuffleCase(env: Env, s: ShuffleOp, base: seq<Word>, a: seq<Word>, w: World)
    requires ApplyIntrinsic(env, Shuffle(s), a, w).Continue?
    ensures var e := ApplyIntrinsic(env, Shuffle(s), a, w);
      ApplyIntrinsic(env, Shuffle(s), base + a, w) == Continue(base + e.stack, e.world)
  {
    hide ShuffleStack;
    ShuffleFramed(s, base, a);
  }

  lemma SyscallFramed(env: Env, count: nat, base: seq<Word>, a: seq<Word>, w: World)
    requires ApplyIntrinsic(env, Syscall(count), a, w).Continue?
    ensures var e := ApplyIntrinsic(env, Syscall(count), a, w);
      ApplyIntrinsic(env, Syscall(count), base + a, w) == Continue(base + e.stack, e.world)
  {
    var all, k := base + a, |a| - count - 1;
    assert all[|base| + k..] == a[k..] && all[..|base| + k] == base + a[..k];
    var v := env.syscall(a[k..], w).0;
    assert base + a[..k] + [v] == base + (a[..k] + [v]);
  }

  lemma TwoFramed(env: Env, i: Intrinsic, base: seq<Word>, a: seq<Word>, w: World)
    requires (i.Binary? || i.DivMod? || i.Store?) && ApplyIntrinsic(env, i, a, w).Continue?
    ensures var e := ApplyIntrinsic(env, i, a, w);
      ApplyIntrinsic(env, i, base + a, w) == Continue(base + e.stack, e.world)
  {
    hide MachineBinary;
    hide StoreWord;
    hide Quotient;
    var all, n := base + a, |a|;
    var r := ApplyIntrinsic(env, i, a, w).stack;
    assert all[|all| - 1] == a[n - 1] && all[|all| - 2] == a[n - 2] && all[..|all| - 2] == base + a[..n - 2];
    ConcatAssoc(base, a[..n - 2], r[n - 2..]);
    assert !i.Store? ==> a[..n - 2] + r[n - 2..] == r;
  }

  lemma OtherFramed(env: Env, i: Intrinsic, base: seq<Word>, a: seq<Word>, w: World)
    requires !(i.Binary? || i.DivMod? || i.Store? || i.Shuffle? || i.Syscall? || i.Call? || i.Top?)
    requires ApplyIntrinsic(env, i, a, w).Continue?
    ensures var e := ApplyIntrinsic(env, i, a, w);
      ApplyIntrinsic(env, i, base + a, w) == Continue(base + e.stack, e.world)
  {
    hide LoadWord;
    var all, n := base + a, |a|;
    var r := ApplyIntrinsic(env, i, a, w).stack;
    if i.Load? || i.BooleanNegate? {
      assert all[|all| - 1] == a[n - 1] && all[..|all| - 1] == base + a[..n - 1];
      assert r == a[..n - 1] + [r[n - 1]];
      assert base + a[..n - 1] + [r[n - 1]] == base + r;
    } else {
      assert r == a + [r[n]] && base + a + [r[n]] == base + r;
    }
  }

  lemma One(env: Env, q: Plain, a: seq<Word>, w: World, b: seq<Word>, w': World)
    requires Framed(q) && ApplyPlain(env, q, a, w) == Continue(b, w')
    ensures Does(env, [q], a, w, b, w')
  {
    hide ApplyPlain;
    forall base: seq<Word>
      ensures Straight(env, [q], base + a, w) == Continue(base + b, w')
    {
      ApplyFramed(env, q, base, a, w);
      assert [q][1..] == [];
    }
  }

  /** Lines follow each other, the second on top of what the first leaves. */
  lemma Both(env: Env, p: seq<Plain>, q: seq<Plain>, a: seq<Word>, w: World, x: seq<Word>, b: seq<Word>, w': World,
             c: seq<Word>, w'': World)
    requires Does(env, p, a, w, x + b, w') && Does(env, q, b, w', c, w'')
    ensures Does(env, p + q, a, w, x + c, w'')
  {
    hide Straight;
    forall base: seq<Word>
      ensures Straight(env, p + q, base + a, w) == Continue(base + (x + c), w'')
    {
      StraightTail(env, p, q, base + a, w);
      assert base + (x + b) == (base + x) + b && base + (x + c) == (base + x) + c;
      assert Straight(env, q, (base + x) + b, w') == Continue((base + x) + c, w'');
    }
  }

  /** Likewise, from `cur` to `next` on the stack, which share what the second line does not touch. */
  lemma Goes(env: Env, p: seq<Plain>, q: seq<Plain>, a: seq<Word>, w: World, cur: seq<Word>, w': World, x: seq<Word>,
             b: seq<Word>, c: seq<Word>, next: seq<Word>, w'': World)
    requires Does(env, p, a, w, cur, w') && Does(env, q, b, w', c, w'') && cur == x + b && next == x + c
    ensures Does(env, p + q, a, w, next, w'')
  {
    hide Does;
    Both(env, p, q, a, w, x, b, w', c, w'');
  }

  lemma Shuffles(env: Env, s: ShuffleOp, a: seq<Word>, b: seq<Word>, w: World)
    requires ShuffleStack(s, a) == Some(b)
    ensures Does(env, [Sh(s)], a, w, b, w)
  {
    hide ShuffleStack;
    One(env, Sh(s), a, w, b, w);
  }

  lemma Dups(env: Env, x: Word, w: World)
    ensures Does(env, [Sh(Dup)], [x], w, [x, x], w)
  {
    assert [x] + [x] == [x, x];
    Shuffles(env, Dup, [x], [x, x], w);
  }

  lemma Drops(env: Env, x: Word, w: World)
    ensures Does(env, [Sh(Drop)], [x], w, [], w)
  {
    assert [x][..0] == [];
    Shuffles(env, Drop, [x], [], w);
  }

  lemma Swaps(env: Env, x: Word, y: Word, w: World)
    ensures Does(env, [Sh(Swap)], [x, y], w, [y, x], w)
  {
    assert [x, y][..0] + [y, x] == [y, x];
    Shuffles(env, Swap, [x, y], [y, x], w);
  }

  lemma Overs(env: Env, x: Word, y: Word, w: World)
    ensures Does(env, [Sh(Over)], [x, y], w, [x, y, x], w)
  {
    assert [x, y] + [x] == [x, y, x];
    Shuffles(env, Over, [x, y], [x, y, x], w);
  }

  lemma Rots(env: Env, x: Word, y: Word, z: Word, w: World)
    ensures Does(env, [Sh(Rot)], [x, y, z], w, [y, z, x], w)
  {
    assert [x, y, z][..0] + [y, z, x] == [y, z, x];
    Shuffles(env, Rot, [x, y, z], [y, z, x], w);
  }

  lemma Tucks(env: Env, x: Word, y: Word, w: World)
    ensures Does(env, [Sh(Tuck)], [x, y], w, [y, x, y], w)
  {
    assert [x, y][..0] + [y, x, y] == [y, x, y];
    Shuffles(env, Tuck, [x, y], [y, x, y], w);
  }

  lemma TwoDups(env: Env, x: Word, y: Word, w: World)
    ensures Does(env, [Sh(TwoDup)], [x, y], w, [x, y, x, y], w)
  {
    assert [x, y] + [x, y] == [x, y, x, y];
    Shuffles(env, TwoDup, [x, y], [x, y, x, y], w);
  }

  lemma Pushes(env: Env, v: Word, w: World)
    ensures Does(env, [Lit(v)], [], w, [v], w)
  {
    One(env, Lit(v), [], w, [v], w);
  }

  lemma Computes(env: Env, op: BinaryOp, x: Word, y: Word, v: Word, w: World)
    requires MachineBinary(op, x, y) == Some(v)
    ensures Does(env, [Op(op)], [x, y], w, [v], w)
  {
    hide MachineBinary;
    One(env, Op(op), [x, y], w, [v], w);
  }

  /** `<y> op`. */
  lemma ComputesWith(env: Env, op: BinaryOp, x: Word, y: Word, v: Word, w: World)
    requires MachineBinary(op, x, y) == Some(v)
    ensures Does(env, [Lit(y), Op(op)], [x], w, [v], w)
  {
    hide MachineBinary;
    hide Does;
    Nothing(env, [x], w);
    Pushes(env, y, w);
    assert [x] + [] == [x] && [x] + [y] == [x, y] && [] + [x, y] == [x, y] && [] + [v] == [v];
    Both(env, [], [Lit(y)], [x], w, [x], [], w, [y], w);
    Computes(env, op, x, y, v, w);
    Both(env, [] + [Lit(y)], [Op(op)], [x], w, [], [x, y], w, [v], w);
    assert [] + [Lit(y)] + [Op(op)] == [Lit(y), Op(op)];
  }

  lemma Nothing(env: Env, a: seq<Word>, w: World)
    ensures Does(env, [], a, w, a, w)
  {
  }

  /** Run as a line of a block. */
  lemma DoesRuns(env: Env, p: StructuredProgram, fuel: nat, ops: seq<Plain>, rest: Block, st: seq<Word>, a: seq<Word>,
                 w: World, b: seq<Word>, w': World)
    requires Does(env, ops, a, w, b, w')
    ensures Exec(env, p, fuel, Line(ops, rest), st + a, w) == Exec(env, p, fuel, rest, st + b, w')
  {
    hide Straight;
    hide Exec;
    assert Straight(env, ops, st + a, w) == Continue(st + b, w');
    LineRuns(env, p, fuel, ops, rest, st + a, w);
  }

  // ----- putu -----

  /** `over swap 10 divmod swap rot`. */
  function SplitLine(): seq<Plain> {
    [Sh(Over)] + [Sh(Swap)] + [Lit(10)] + [Intrinsic(DivMod)] + [Sh(Swap)] + [Sh(Rot)]
  }

  /** `Print_Buffer + swap '0' + store8 swap 1 - swap`. */
  function StoreLine(buffer: Symbol): seq<Plain> {
    [PushSymbol(buffer)] + [Op(Add)] + [Sh(Swap)] + [Lit(48), Op(Add)] + [Intrinsic(Store(1))] + [Sh(Swap)]
    + [Lit(1), Op(Subtract)] + [Sh(Swap)]
  }

  function PutuLoop(buffer: Symbol): Stmt {
    Loop(Line([Sh(Dup)] + [Lit(10), Op(GreaterEq)], Nil), Line(SplitLine() + StoreLine(buffer), Nil))
  }

  /** `'0' + Print_Buffer swap store8 drop Print_Buffer stdout SYS_write syscall3 drop`. */
  function WriteLine(buffer: Symbol): seq<Plain> {
    [Lit(48), Op(Add)] + [PushSymbol(buffer)] + [Sh(Swap)] + [Intrinsic(Store(1))] + [Sh(Drop)]
    + [PushSymbol(buffer)] + [Lit(1)] + [Lit(1)] + [Intrinsic(Syscall(3))] + [Sh(Drop)]
  }

  /** `dup digits10 tuck 1 - swap while … do … end …`, with `digits10` under the given id. */
  function PutuBlock(digits10: nat, buffer: Symbol): Block {
    Line([Sh(Dup)], Seq(Simple(CallSymbol(digits10)), Line([Sh(Tuck)] + [Lit(1), Op(Subtract)] + [Sh(Swap)],
      Seq(PutuLoop(buffer), Line(WriteLine(buffer), Nil)))))
  }

  lemma SplitDoes(env: Env, i: Word, rest: Word, w: World)
    ensures Does(env, SplitLine(), [i, rest], w, [i, rest / 10, rest % 10, i], w)
  {
    hide Does;
    var q, m := rest / 10, rest % 10;
    var a, l1 := [i, rest], [Sh(Over)];
    Overs(env, i, rest, w);
    Swaps(env, rest, i, w);
    Goes(env, l1, [Sh(Swap)], a, w, [i, rest, i], w, [i], [rest, i], [i, rest], [i, i, rest], w);
    var l2 := l1 + [Sh(Swap)];
    Pushes(env, 10, w);
    Goes(env, l2, [Lit(10)], a, w, [i, i, rest], w, [i, i, rest], [], [10], [i, i, rest, 10], w);
    var l3 := l2 + [Lit(10)];
    Divides(env, rest, w);
    Goes(env, l3, [Intrinsic(DivMod)], a, w, [i, i, rest, 10], w, [i, i], [rest, 10], [m, q], [i, i, m, q], w);
    var l4 := l3 + [Intrinsic(DivMod)];
    Swaps(env, m, q, w);
    Goes(env, l4, [Sh(Swap)], a, w, [i, i, m, q], w, [i, i], [m, q], [q, m], [i, i, q, m], w);
    Rots(env, i, q, m, w);
    Goes(env, l4 + [Sh(Swap)], [Sh(Rot)], a, w, [i, i, q, m], w, [i], [i, q, m], [q, m, i], [i, q, m, i], w);
  }

  lemma Divides(env: Env, rest: Word, w: World)
    ensures Does(env, [Intrinsic(DivMod)], [rest, 10], w, [rest % 10, rest / 10], w)
  {
    assert [rest, 10][..0] + [rest % 10, Quotient(rest, 10)] == [rest % 10, rest / 10];
    One(env, Intrinsic(DivMod), [rest, 10], w, [rest % 10, rest / 10], w);
  }

  lemma PushesSymbol(env: Env, symbol: Symbol, w: World)
    ensures Does(env, [PushSymbol(symbol)], [], w, [env.symbol(symbol)], w)
  {
    One(env, PushSymbol(symbol), [], w, [env.symbol(symbol)], w);
  }

  function Put(w: World, address: int, value: int): World {
    w.(memory := w.memory[address := value])
  }

  lemma StoresByte(env: Env, address: Word, value: Word, w: World)
    requires value < 256
    ensures Does(env, [Intrinsic(Store(1))], [address, value], w, [], Put(w, address, value))
  {
    assert StoreBytes(w.memory, address, 1, value)
        == StoreBytes(w.memory[address := value % 256], address + 1, 0, value / 256);
    assert [address, value][..0] == [];
    One(env, Intrinsic(Store(1)), [address, value], w, [], Put(w, address, value));
  }

  /** One digit into the buffer, and on to the position before it. */
  lemma StoreDoes(env: Env, buffer: Symbol, i: Word, q: Word, m: Word, w: World)
    requires m < 10 && i >= 1 && env.symbol(buffer) + i < WORD_SIZE
    ensures Does(env, StoreLine(buffer), [i, q, m, i], w, [i - 1, q], Put(w, env.symbol(buffer) + i, 48 + m))
  {
    hide Does;
    var b := env.symbol(buffer);
    var at, c, w' := b + i, 48 + m, Put(w, b + i, 48 + m);
    var a := [i, q, m, i];
    PushesSymbol(env, buffer, w);
    Nothing(env, a, w);
    Goes(env, [], [PushSymbol(buffer)], a, w, a, w, a, [], [b], [i, q, m, i, b], w);
    var l1 := [PushSymbol(buffer)];
    assert [] + l1 == l1;
    Computes(env, Add, i, b, at, w);
    Goes(env, l1, [Op(Add)], a, w, [i, q, m, i, b], w, [i, q, m], [i, b], [at], [i, q, m, at], w);
    var l2 := l1 + [Op(Add)];
    Swaps(env, m, at, w);
    Goes(env, l2, [Sh(Swap)], a, w, [i, q, m, at], w, [i, q], [m, at], [at, m], [i, q, at, m], w);
    var l3 := l2 + [Sh(Swap)];
    ComputesWith(env, Add, m, 48, c, w);
    Goes(env, l3, [Lit(48), Op(Add)], a, w, [i, q, at, m], w, [i, q, at], [m], [c], [i, q, at, c], w);
    var l4 := l3 + [Lit(48), Op(Add)];
    StoresByte(env, at, c, w);
    Goes(env, l4, [Intrinsic(Store(1))], a, w, [i, q, at, c], w, [i, q], [at, c], [], [i, q], w');
    var l5 := l4 + [Intrinsic(Store(1))];
    Swaps(env, i, q, w');
    Goes(env, l5, [Sh(Swap)], a, w, [i, q], w', [], [i, q], [q, i], [q, i], w');
    ComputesWith(env, Subtract, i, 1, i - 1, w');
    Goes(env, l5 + [Sh(Swap)], [Lit(1), Op(Subtract)], a, w, [q, i], w', [q], [i], [i - 1], [q, i - 1], w');
    Swaps(env, q, i - 1, w');
    Goes(env, l5 + [Sh(Swap)] + [Lit(1), Op(Subtract)], [Sh(Swap)], a, w, [q, i - 1], w', [], [q, i - 1], [i - 1, q],
        [i - 1, q], w');
  }

  /** The last digit, then the buffer handed to `write`. */
  lemma WriteDoes(env: Env, buffer: Symbol, digits: Word, i: Word, rest: Word, w: World)
    requires rest < 10
    ensures var b := env.symbol(buffer);
      var r := env.syscall([digits, b, 1, 1], Put(w, b, 48 + rest));
      Does(env, WriteLine(buffer), [digits, i, rest], w, [], r.1)
  {
    hide Does;
    var b := env.symbol(buffer);
    var c, w' := 48 + rest, Put(w, b, 48 + rest);
    var r := env.syscall([digits, b, 1, 1], w');
    var a := [digits, i, rest];
    Nothing(env, a, w);
    ComputesWith(env, Add, rest, 48, c, w);
    Goes(env, [], [Lit(48), Op(Add)], a, w, a, w, [digits, i], [rest], [c], [digits, i, c], w);
    var l1 := [Lit(48), Op(Add)];
    assert [] + l1 == l1;
    PushesSymbol(env, buffer, w);
    Goes(env, l1, [PushSymbol(buffer)], a, w, [digits, i, c], w, [digits, i, c], [], [b], [digits, i, c, b], w);
    var l2 := l1 + [PushSymbol(buffer)];
    Swaps(env, c, b, w);
    Goes(env, l2, [Sh(Swap)], a, w, [digits, i, c, b], w, [digits, i], [c, b], [b, c], [digits, i, b, c], w);
    var l3 := l2 + [Sh(Swap)];
    StoresByte(env, b, c, w);
    Goes(env, l3, [Intrinsic(Store(1))], a, w, [digits, i, b, c], w, [digits, i], [b, c], [], [digits, i], w');
    var l4 := l3 + [Intrinsic(Store(1))];
    Drops(env, i, w');
    Goes(env, l4, [Sh(Drop)], a, w, [digits, i], w', [digits], [i], [], [digits], w');
    var l5 := l4 + [Sh(Drop)];
    PushesSymbol(env, buffer, w');
    Goes(env, l5, [PushSymbol(buffer)], a, w, [digits], w', [digits], [], [b], [digits, b], w');
    var l6 := l5 + [PushSymbol(buffer)];
    Pushes(env, 1, w');
    Goes(env, l6, [Lit(1)], a, w, [digits, b], w', [digits, b], [], [1], [digits, b, 1], w');
    Goes(env, l6 + [Lit(1)], [Lit(1)], a, w, [digits, b, 1], w', [digits, b, 1], [], [1], [digits, b, 1, 1], w');
    var l8 := l6 + [Lit(1)] + [Lit(1)];
    Writes(env, digits, b, w');
    Goes(env, l8, [Intrinsic(Syscall(3))], a, w, [digits, b, 1, 1], w', [], [digits, b, 1, 1], [r.0], [r.0], r.1);
    Drops(env, r.0, r.1);
    Goes(env, l8 + [Intrinsic(Syscall(3))], [Sh(Drop)], a, w, [r.0], r.1, [], [r.0], [], [], r.1);
  }

  lemma Writes(env: Env, digits: Word, b: Word, w: World)
    ensures var r := env.syscall([digits, b, 1, 1], w);
      Does(env, [Intrinsic(Syscall(3))], [digits, b, 1, 1], w, [r.0], r.1)
  {
    var a, r := [digits, b, 1, 1], env.syscall([digits, b, 1, 1], w);
    assert a[0..] == a && a[..0] + [r.0] == [r.0];
    One(env, Intrinsic(Syscall(3)), a, w, [r.0], r.1);
  }

  function ByteAt(text: seq<Decimal.Byte>, b: int, address: int): Decimal.Byte
    requires b <= address < b + |text|
  {
    text[address - b]
  }

  /** Bytes 1 to `i` of the text in the buffer. */
  function Filled(w: World, b: int, text: seq<Decimal.Byte>, i: nat): World
    requires i < |text|
  {
    w.(memory := w.memory + map a: int | b < a <= b + i :: ByteAt(text, b, a))
  }

  /** All of the text in the buffer, the rest of the memory as it was. */
  function Printed(w: World, b: int, text: seq<Decimal.Byte>): World {
    w.(memory := w.memory + map a: int | b <= a < b + |text| :: ByteAt(text, b, a))
  }

  lemma FilledNext(w: World, b: int, text: seq<Decimal.Byte>, i: nat, c: Decimal.Byte)
    requires 1 <= i < |text| && text[i] == c
    ensures Filled(Put(w, b + i, c), b, text, i - 1) == Filled(w, b, text, i)
  {
    assert Filled(Put(w, b + i, c), b, text, i - 1).memory == Filled(w, b, text, i).memory;
  }

  lemma FilledLast(w: World, b: int, text: seq<Decimal.Byte>)
    requires text != []
    ensures Put(Filled(w, b, text, |text| - 1), b, text[0]) == Printed(w, b, text)
  {
    assert Put(Filled(w, b, text, |text| - 1), b, text[0]).memory == Printed(w, b, text).memory;
  }

  lemma FilledNone(w: World, b: int, text: seq<Decimal.Byte>)
    requires text != []
    ensures Filled(w, b, text, 0) == w
  {
    assert Filled(w, b, text, 0).memory == w.memory;
  }

  lemma TestDoes(env: Env, rest: Word, w: World)
    ensures Does(env, [Sh(Dup)] + [Lit(10), Op(GreaterEq)], [rest], w, [rest, FromBool(rest >= 10)], w)
  {
    hide Does;
    Dups(env, rest, w);
    var v := FromBool(rest >= 10);
    ComputesWith(env, GreaterEq, rest, 10, v, w);
    Goes(env, [Sh(Dup)], [Lit(10), Op(GreaterEq)], [rest], w, [rest, rest], w, [rest], [rest], [v], [rest, v], w);
  }

  lemma TurnDoes(env: Env, buffer: Symbol, i: Word, rest: Word, w: World)
    requires i >= 1 && env.symbol(buffer) + i < WORD_SIZE
    ensures Does(env, SplitLine() + StoreLine(buffer), [i, rest], w, [i - 1, rest / 10],
                 Put(w, env.symbol(buffer) + i, 48 + rest % 10))
  {
    hide Does;
    hide SplitLine;
    hide StoreLine;
    var q, m, w' := rest / 10, rest % 10, Put(w, env.symbol(buffer) + i, 48 + rest % 10);
    SplitDoes(env, i, rest, w);
    StoreDoes(env, buffer, i, q, m, w);
    var mid := [i, q, m, i];
    Goes(env, SplitLine(), StoreLine(buffer), [i, rest], w, mid, w, [], mid, [i - 1, q], [i - 1, q], w');
  }

  /** One turn of the loop. */
  lemma PutuTurn(env: Env, p: StructuredProgram, fuel: nat, buffer: Symbol, st: seq<Word>, i: Word,
      rest: Word, w: World)
    requires fuel > 0 && (rest >= 10 ==> i >= 1 && env.symbol(buffer) + i < WORD_SIZE)
    ensures ExecStmt(env, p, fuel, PutuLoop(buffer), st + [i, rest], w) ==
      if rest < 10 then Next(st + [i, rest], w)
      else ExecStmt(env, p, fuel - 1, PutuLoop(buffer), st + [i - 1, rest / 10],
                    Put(w, env.symbol(buffer) + i, 48 + rest % 10))
  {
    hide Does;
    hide Exec;
    hide Line;
    hide SplitLine;
    hide StoreLine;
    var v := FromBool(rest >= 10);
    TestDoes(env, rest, w);
    assert st + [i, rest] == (st + [i]) + [rest] && (st + [i]) + [rest, v] == (st + [i, rest]) + [v];
    DoesRuns(env, p, fuel, [Sh(Dup)] + [Lit(10), Op(GreaterEq)], Nil, st + [i], [rest], w, [rest, v], w);
    NilRuns(env, p, fuel, (st + [i, rest]) + [v], w);
    assert ((st + [i, rest]) + [v])[..|st| + 2] == st + [i, rest];
    if rest >= 10 {
      var w' := Put(w, env.symbol(buffer) + i, 48 + rest % 10);
      TurnDoes(env, buffer, i, rest, w);
      DoesRuns(env, p, fuel, SplitLine() + StoreLine(buffer), Nil, st, [i, rest], w, [i - 1, rest / 10], w');
      NilRuns(env, p, fuel, st + [i - 1, rest / 10], w');
    }
  }

  lemma NilRuns(env: Env, p: StructuredProgram, fuel: nat, st: seq<Word>, w: World)
    ensures Exec(env, p, fuel, Nil, st, w) == Next(st, w)
  {
  }

  /** The loop fills the buffer from the back, down to the first digit. */
  lemma {:induction false} PutuLoopRuns(env: Env, p: StructuredProgram, fuel: nat, buffer: Symbol, st: seq<Word>,
                                        text: seq<Decimal.Byte>, i: Word, rest: Word, w: World)
    requires fuel > i && i < |text| && text[..i + 1] == Text(rest) && env.symbol(buffer) + i < WORD_SIZE
    ensures 48 <= text[0] <= 57
    ensures ExecStmt(env, p, fuel, PutuLoop(buffer), st + [i, rest], w)
         == Next(st + [0, text[0] - 48], Filled(w, env.symbol(buffer), text, i))
    decreases i
  {
    hide Text;
    hide ExecStmt;
    hide PutuLoop;
    assert |Text(rest)| == i + 1;
    assert text[0] == text[..i + 1][0];
    TextLength(rest, 1);
    assert Pow10(1) == 10 * Pow10(0);
    PutuTurn(env, p, fuel, buffer, st, i, rest, w);
    if rest < 10 {
      OneDigit(rest);
      FilledNone(w, env.symbol(buffer), text);
    } else {
      LastDigit(rest);
      PrefixLast(text, i, Text(rest / 10), 48 + rest % 10);
      FilledNext(w, env.symbol(buffer), text, i, 48 + rest % 10);
      PutuLoopRuns(env, p, fuel - 1, buffer, st, text, i - 1, rest / 10,
          Put(w, env.symbol(buffer) + i, 48 + rest % 10));
    }
  }

  lemma CallRuns(env: Env, p: StructuredProgram, fuel: nat, id: nat, rest: Block, st: seq<Word>, n: Word, w: World)
    requires fuel >= 21 && Function(id) in p && p[Function(id)] == Digits10Block()
    ensures |Text(n)| <= 20
    ensures Exec(env, p, fuel, Seq(Simple(CallSymbol(id)), rest), st + [n], w)
        == Exec(env, p, fuel, rest, st + [|Text(n)|], w)
  {
    hide Text;
    hide Digits10Block;
    Digits10Runs(env, p, fuel - 1, st, n, w);
    assert ExecCall(env, p, fuel, id, st + [n], w) == Next(st + [|Text(n)|], w);
    assert ExecSimple(env, p, fuel, CallSymbol(id), st + [n], w) == ExecCall(env, p, fuel, id, st + [n], w);
    assert ExecStmt(env, p, fuel, Simple(CallSymbol(id)), st + [n], w)
        == ExecSimple(env, p, fuel, CallSymbol(id), st + [n], w);
  }

  lemma HeadDoes(env: Env, n: Word, digits: Word, w: World)
    requires digits >= 1
    ensures Does(env, [Sh(Tuck)] + [Lit(1), Op(Subtract)] + [Sh(Swap)], [n, digits], w, [digits, digits - 1, n], w)
  {
    hide Does;
    var a, l1 := [n, digits], [Sh(Tuck)];
    Tucks(env, n, digits, w);
    ComputesWith(env, Subtract, digits, 1, digits - 1, w);
    var i := digits - 1;
    Goes(env, l1, [Lit(1), Op(Subtract)], a, w, [digits, n, digits], w, [digits, n], [digits], [i], [digits, n, i], w);
    Swaps(env, n, i, w);
    Goes(env, l1 + [Lit(1), Op(Subtract)], [Sh(Swap)], a, w, [digits, n, i], w, [digits], [n, i], [i, n],
        [digits, i, n], w);
  }

  lemma SeqRuns(env: Env, p: StructuredProgram, fuel: nat, s: Stmt, rest: Block, st: seq<Word>, w: World)
    requires ExecStmt(env, p, fuel, s, st, w).Next?
    ensures var r := ExecStmt(env, p, fuel, s, st, w);
      Exec(env, p, fuel, Seq(s, rest), st, w) == Exec(env, p, fuel, rest, r.stack, r.world)
  {
  }

  /** From the loop on. */
  lemma PutuEnds(env: Env, p: StructuredProgram, fuel: nat, buffer: Symbol, st: seq<Word>, n: Word, w: World)
    requires fuel >= 21 && |Text(n)| <= 20 && env.symbol(buffer) + 20 < WORD_SIZE
    ensures var b, digits := env.symbol(buffer), |Text(n)|;
      Exec(env, p, fuel, Seq(PutuLoop(buffer), Line(WriteLine(buffer), Nil)), st + [digits, digits - 1, n], w)
        == Next(st, env.syscall([digits, b, 1, 1], Printed(w, b, Text(n))).1)
  {
    hide Text;
    hide Does;
    hide Line;
    hide WriteLine;
    hide PutuLoop;
    hide Exec;
    hide ExecStmt;
    hide Printed;
    hide Filled;
    hide Put;
    var b, text, last := env.symbol(buffer), Text(n), Line(WriteLine(buffer), Nil);
    var digits: Word := |text|;
    assert st + [digits, digits - 1, n] == (st + [digits]) + [digits - 1, n] && text[..digits] == text;
    PutuLoopRuns(env, p, fuel, buffer, st + [digits], text, digits - 1, n, w);
    SeqRuns(env, p, fuel, PutuLoop(buffer), last, (st + [digits]) + [digits - 1, n], w);
    var w1, rest := Filled(w, b, text, digits - 1), text[0] - 48;
    assert (st + [digits]) + [0, rest] == st + [digits, 0, rest];
    WriteDoes(env, buffer, digits, 0, rest, w1);
    FilledLast(w, b, text);
    var r := env.syscall([digits, b, 1, 1], Put(w1, b, 48 + rest));
    DoesRuns(env, p, fuel, WriteLine(buffer), Nil, st, [digits, 0, rest], w1, [], r.1);
    assert st + [] == st;
    NilRuns(env, p, fuel, st, r.1);
  }

  /**
   The block takes a number off the stack, puts its decimal text into the buffer, touches no other memory, and hands
   exactly that many bytes of the buffer to `write`, whatever `write` does then.
   */
  lemma PutuRuns(env: Env, p: StructuredProgram, fuel: nat, digits10: nat, buffer: Symbol, st: seq<Word>,
      n: Word, w: World)
    requires fuel >= 21 && Function(digits10) in p && p[Function(digits10)] == Digits10Block()
    requires env.symbol(buffer) + 20 < WORD_SIZE
    ensures |Text(n)| <= 20
    ensures var b := env.symbol(buffer);
      Exec(env, p, fuel, PutuBlock(digits10, buffer), st + [n], w)
        == Next(st, env.syscall([|Text(n)|, b, 1, 1], Printed(w, b, Text(n))).1)
  {
    hide Text;
    hide Does;
    hide Line;
    hide WriteLine;
    hide PutuLoop;
    hide Digits10Block;
    hide Exec;
    hide Printed;
    var head := [Sh(Tuck)] + [Lit(1), Op(Subtract)] + [Sh(Swap)];
    var loop := Seq(PutuLoop(buffer), Line(WriteLine(buffer), Nil));
    var tail := Seq(Simple(CallSymbol(digits10)), Line(head, loop));
    CallRuns(env, p, fuel, digits10, Line(head, loop), st + [n], n, w);
    Dups(env, n, w);
    DoesRuns(env, p, fuel, [Sh(Dup)], tail, st, [n], w, [n, n], w);
    assert st + [n, n] == (st + [n]) + [n];
    var digits: Word := |Text(n)|;
    assert (st + [n]) + [digits] == st + [n, digits];
    HeadDoes(env, n, digits, w);
    DoesRuns(env, p, fuel, head, loop, st, [n, digits], w, [digits, digits - 1, n], w);
    PutuEnds(env, p, fuel, buffer, st, n, w);
  }
}
