/**
 `date` as the standard library writes it, run by the structured semantics: hour, minute and day of the month are
 those of the calendar for every 64-bit number of seconds, month and year exactly from March to December.
 */
module LibraryDate {
  import opened Wrappers
  import opened Words
  import opened Operations
  import opened Machine
  import opened MemoryLaws
  import opened Structured
  import opened LibraryWords
  import opened LibraryPrograms
  import opened Calendar

  // ----- the word -----

  function With(y: Word, op: BinaryOp): seq<Plain> {
    [Lit(y), Op(op)]
  }

  /** `over <y> div op`. */
  function OverDiv(y: Word, op: BinaryOp): seq<Plain> {
    [Sh(Over)] + With(y, Div) + [Op(op)]
  }

  /** `dup <y> mod swap <y> div`. */
  function Parts(y: Word): seq<Plain> {
    [Sh(Dup)] + With(y, Mod) + [Sh(Swap)] + With(y, Div)
  }

  /** Seconds to minute, hour and days since the first of March of year 0. */
  function TimeLine(): seq<Plain> {
    With(60, Div) + Parts(60) + Parts(24) + With(719468, Add)
  }

  /** The era into its cell, and the day of the era. */
  function EraLine(era: Symbol): seq<Plain> {
    [Sh(Dup)] + With(146097, Div) + [PushSymbol(era)] + [Sh(Over)] + [Intrinsic(Store(8))] + With(146097, Mul)
        + [Op(Subtract)]
  }

  /** The year of the era. */
  function YearOfEraLine(): seq<Plain> {
    [Sh(Dup)] + OverDiv(1460, Subtract) + OverDiv(36524, Add) + OverDiv(146096, Subtract) + With(365, Div)
  }

  /** The year, in front of the year of the era and the day of the era. */
  function YearLine(era: Symbol): seq<Plain> {
    [Sh(Dup)] + [PushSymbol(era)] + [Intrinsic(Load(8))] + With(400, Mul) + [Op(Add)] + [Sh(Swap)] + [Sh(Rot)]
  }

  /** The day of the year. */
  function DayOfYearLine(): seq<Plain> {
    [Sh(Swap)] + [Sh(Dup)] + With(365, Mul) + OverDiv(4, Add) + OverDiv(100, Subtract)
    + [Sh(Rot)] + [Sh(Swap)] + [Op(Subtract)] + [Sh(Swap)] + [Sh(Drop)]
  }

  /** The month, March first, and the day of the month. */
  function MonthLine(): seq<Plain> {
    [Sh(Dup)] + With(5, Mul) + With(2, Add) + With(153, Div)
  }

  function DayLine(): seq<Plain> {
    [Sh(TwoDup)] + With(153, Mul) + With(2, Add) + With(5, Div) + [Op(Subtract)] + With(1, Add)
    + [Sh(Rot)] + [Sh(Drop)] + [Sh(Swap)]
  }

  /** `rot swap dup 2 <= u64 + swap`. */
  function LastLine(): seq<Plain> {
    [Sh(Rot)] + [Sh(Swap)] + [Sh(Dup)] + With(2, LessEq) + [Cast(Int)] + [Op(Add)] + [Sh(Swap)]
  }

  function DateLine(era: Symbol): seq<Plain> {
    TimeLine() + EraLine(era) + YearOfEraLine() + YearLine(era) + DayOfYearLine() + MonthLine() + DayLine()
  }

  /** `dup 10 < if 3 + else 9 - end`, between two lines. */
  function DateBlock(era: Symbol): Block {
    Line(DateLine(era) + ([Sh(Dup)] + With(10, Less)),
      Seq(IfElse(Line(With(3, Add), Nil), Line(With(9, Subtract), Nil)), Line(LastLine(), Nil)))
  }

  // ----- lines -----

  lemma OverDivides(env: Env, l: Word, op: BinaryOp, x: Word, y: Word, v: Word, w: World)
    requires l > 0 && x / l < WORD_SIZE && MachineBinary(op, y, x / l) == Some(v)
    ensures Does(env, OverDiv(l, op), [x, y], w, [x, v], w)
  {
    hide Does;
    hide MachineBinary;
    var q, a, l1 := x / l, [x, y], [Sh(Over)];
    Overs(env, x, y, w);
    Quotes(l, x);
    ComputesWith(env, Div, x, l, q, w);
    Goes(env, l1, With(l, Div), a, w, [x, y, x], w, [x, y], [x], [q], [x, y, q], w);
    Computes(env, op, y, q, v, w);
    Goes(env, l1 + With(l, Div), [Op(op)], a, w, [x, y, q], w, [x], [y, q], [v], [x, v], w);
  }

  lemma Quotes(l: Word, x: Word)
    requires l > 0 && x / l < WORD_SIZE
    ensures MachineBinary(Div, x, l) == Some(x / l) && MachineBinary(Mod, x, l) == Some(x % l)
  {
  }

  lemma PartsDoes(env: Env, l: Word, x: Word, w: World)
    requires l > 0 && x / l < WORD_SIZE
    ensures Does(env, Parts(l), [x], w, [x % l, x / l], w)
  {
    hide Does;
    hide MachineBinary;
    var q, m, l1 := x / l, x % l, [Sh(Dup)];
    Dups(env, x, w);
    Quotes(l, x);
    ComputesWith(env, Mod, x, l, m, w);
    Goes(env, l1, With(l, Mod), [x], w, [x, x], w, [x], [x], [m], [x, m], w);
    Swaps(env, x, m, w);
    Goes(env, l1 + With(l, Mod), [Sh(Swap)], [x], w, [x, m], w, [], [x, m], [m, x], [m, x], w);
    ComputesWith(env, Div, x, l, q, w);
    Goes(env, l1 + With(l, Mod) + [Sh(Swap)], With(l, Div), [x], w, [m, x], w, [m], [x], [q], [m, q], w);
  }

  lemma TimeDoes(env: Env, s: Word, w: World)
    requires s / 60 / 60 / 24 + 719468 < WORD_SIZE
    ensures Does(env, TimeLine(), [s], w, [s / 60 % 60, s / 60 / 60 % 24, s / 60 / 60 / 24 + 719468], w)
  {
    hide Does;
    hide MachineBinary;
    hide Parts;
    var m0, h0, days := s / 60, s / 60 / 60, s / 60 / 60 / 24;
    var minute, hour, z := m0 % 60, h0 % 24, days + 719468;
    Quotes(60, s);
    ComputesWith(env, Div, s, 60, m0, w);
    PartsDoes(env, 60, m0, w);
    var l1 := With(60, Div);
    Goes(env, l1, Parts(60), [s], w, [m0], w, [], [m0], [minute, h0], [minute, h0], w);
    PartsDoes(env, 24, h0, w);
    Goes(env, l1 + Parts(60), Parts(24), [s], w, [minute, h0], w, [minute], [h0], [hour, days],
        [minute, hour, days], w);
    Sum(days, 719468);
    ComputesWith(env, Add, days, 719468, z, w);
    Goes(env, l1 + Parts(60) + Parts(24), With(719468, Add), [s], w, [minute, hour, days], w,
        [minute, hour], [days], [z],
         [minute, hour, z], w);
  }

  lemma Sum(x: Word, y: Word)
    requires x + y < WORD_SIZE
    ensures MachineBinary(Add, x, y) == Some(x + y)
  {
  }

  lemma Difference(x: Word, y: Word)
    requires y <= x
    ensures MachineBinary(Subtract, x, y) == Some(x - y)
  {
  }

  lemma Product(x: Word, y: Word)
    requires 0 <= x * y < WORD_SIZE
    ensures MachineBinary(Mul, x, y) == Some(x * y)
  {
  }

  // ----- the era's cell -----

  lemma StoresCell(env: Env, address: Word, value: Word, w: World)
    ensures Does(env, [Intrinsic(Store(8))], [address, value], w, [], StoreWord(w, 8, address, value))
  {
    hide StoreWord;
    assert [address, value][..0] == [];
    One(env, Intrinsic(Store(8)), [address, value], w, [], StoreWord(w, 8, address, value));
  }

  lemma LoadsCell(env: Env, address: Word, w: World)
    ensures Does(env, [Intrinsic(Load(8))], [address], w, [LoadWord(w, 8, address)], w)
  {
    hide LoadWord;
    assert [address][..0] + [LoadWord(w, 8, address)] == [LoadWord(w, 8, address)];
    One(env, Intrinsic(Load(8)), [address], w, [LoadWord(w, 8, address)], w);
  }

  lemma EraDoes(env: Env, era: Symbol, z: Word, w: World)
    ensures z / 146097 < WORD_SIZE && 0 <= z % 146097
    ensures Does(env, EraLine(era), [z], w, [z % 146097], StoreWord(w, 8, env.symbol(era), z / 146097))
  {
    hide Does;
    hide MachineBinary;
    hide StoreWord;
    var e, p := z / 146097, env.symbol(era);
    var w', doe := StoreWord(w, 8, p, e), z % 146097;
    assert z - e * 146097 == doe;
    var l1 := [Sh(Dup)];
    Dups(env, z, w);
    Quotes(146097, z);
    ComputesWith(env, Div, z, 146097, e, w);
    Goes(env, l1, With(146097, Div), [z], w, [z, z], w, [z], [z], [e], [z, e], w);
    var l2 := l1 + With(146097, Div);
    PushesSymbol(env, era, w);
    Goes(env, l2, [PushSymbol(era)], [z], w, [z, e], w, [z, e], [], [p], [z, e, p], w);
    var l3 := l2 + [PushSymbol(era)];
    Overs(env, e, p, w);
    Goes(env, l3, [Sh(Over)], [z], w, [z, e, p], w, [z], [e, p], [e, p, e], [z, e, p, e], w);
    var l4 := l3 + [Sh(Over)];
    StoresCell(env, p, e, w);
    Goes(env, l4, [Intrinsic(Store(8))], [z], w, [z, e, p, e], w, [z, e], [p, e], [], [z, e], w');
    var l5 := l4 + [Intrinsic(Store(8))];
    Product(e, 146097);
    ComputesWith(env, Mul, e, 146097, e * 146097, w');
    Goes(env, l5, With(146097, Mul), [z], w, [z, e], w', [z], [e], [e * 146097], [z, e * 146097], w');
    Difference(z, e * 146097);
    Computes(env, Subtract, z, e * 146097, doe, w');
    Goes(env, l5 + With(146097, Mul), [Op(Subtract)], [z], w, [z, e * 146097], w', [], [z, e * 146097],
        [doe], [doe], w');
  }

  lemma YearOfEraDoes(env: Env, doe: Word, w: World)
    requires doe < ERA_DAYS
    ensures 0 <= YearOfEra(doe) < 400
    ensures Does(env, YearOfEraLine(), [doe], w, [doe, YearOfEra(doe)], w)
  {
    hide Does;
    hide MachineBinary;
    hide OverDiv;
    YearOfEraIsCalendarYear(doe);
    var a, b, c := doe - doe / 1460, doe - doe / 1460 + doe / 36524, doe - doe / 1460 + doe / 36524 - doe / 146096;
    var yoe := c / 365;
    Dups(env, doe, w);
    Difference(doe, doe / 1460);
    OverDivides(env, 1460, Subtract, doe, doe, a, w);
    var l1 := [Sh(Dup)];
    Goes(env, l1, OverDiv(1460, Subtract), [doe], w, [doe, doe], w, [], [doe, doe], [doe, a], [doe, a], w);
    var l2 := l1 + OverDiv(1460, Subtract);
    Sum(a, doe / 36524);
    OverDivides(env, 36524, Add, doe, a, b, w);
    Goes(env, l2, OverDiv(36524, Add), [doe], w, [doe, a], w, [], [doe, a], [doe, b], [doe, b], w);
    var l3 := l2 + OverDiv(36524, Add);
    Difference(b, doe / 146096);
    OverDivides(env, 146096, Subtract, doe, b, c, w);
    Goes(env, l3, OverDiv(146096, Subtract), [doe], w, [doe, b], w, [], [doe, b], [doe, c], [doe, c], w);
    Quotes(365, c);
    ComputesWith(env, Div, c, 365, yoe, w);
    Goes(env, l3 + OverDiv(146096, Subtract), With(365, Div), [doe], w, [doe, c], w, [doe], [c], [yoe], [doe, yoe], w);
  }

  lemma YearDoes(env: Env, era: Symbol, doe: Word, yoe: Word, e: Word, w: World)
    requires LoadWord(w, 8, env.symbol(era)) == e && yoe + 400 * e < WORD_SIZE
    ensures Does(env, YearLine(era), [doe, yoe], w, [yoe + 400 * e, yoe, doe], w)
  {
    hide Does;
    hide MachineBinary;
    hide LoadWord;
    var p, y, a, l1 := env.symbol(era), yoe + 400 * e, [doe, yoe], [Sh(Dup)];
    Nothing(env, a, w);
    Dups(env, yoe, w);
    Goes(env, [], l1, a, w, a, w, [doe], [yoe], [yoe, yoe], [doe, yoe, yoe], w);
    assert [] + l1 == l1;
    PushesSymbol(env, era, w);
    Goes(env, l1, [PushSymbol(era)], a, w, [doe, yoe, yoe], w, [doe, yoe, yoe], [], [p], [doe, yoe, yoe, p], w);
    var l2 := l1 + [PushSymbol(era)];
    LoadsCell(env, p, w);
    Goes(env, l2, [Intrinsic(Load(8))], a, w, [doe, yoe, yoe, p], w, [doe, yoe, yoe], [p], [e], [doe, yoe, yoe, e], w);
    var l3 := l2 + [Intrinsic(Load(8))];
    Product(e, 400);
    ComputesWith(env, Mul, e, 400, e * 400, w);
    Goes(env, l3, With(400, Mul), a, w, [doe, yoe, yoe, e], w, [doe, yoe, yoe], [e], [e * 400],
        [doe, yoe, yoe, e * 400], w);
    var l4 := l3 + With(400, Mul);
    Sum(yoe, e * 400);
    Computes(env, Add, yoe, e * 400, y, w);
    Goes(env, l4, [Op(Add)], a, w, [doe, yoe, yoe, e * 400], w, [doe, yoe], [yoe, e * 400], [y], [doe, yoe, y], w);
    var l5 := l4 + [Op(Add)];
    Swaps(env, yoe, y, w);
    Goes(env, l5, [Sh(Swap)], a, w, [doe, yoe, y], w, [doe], [yoe, y], [y, yoe], [doe, y, yoe], w);
    Rots(env, doe, y, yoe, w);
    Goes(env, l5 + [Sh(Swap)], [Sh(Rot)], a, w, [doe, y, yoe], w, [], [doe, y, yoe], [y, yoe, doe], [y, yoe, doe], w);
  }

  lemma DayOfYearDoes(env: Env, yoe: Word, doe: Word, w: World)
    requires yoe <= 399 && YearStart(yoe) <= doe < ERA_DAYS
    ensures Does(env, DayOfYearLine(), [yoe, doe], w, [doe - YearStart(yoe)], w)
  {
    hide Does;
    hide MachineBinary;
    hide OverDiv;
    var x, y, days := yoe * 365, yoe * 365 + yoe / 4, yoe * 365 + yoe / 4 - yoe / 100;
    assert days == YearStart(yoe) && days <= doe;
    var doy, a, l1 := doe - days, [yoe, doe], [Sh(Swap)];
    Swaps(env, yoe, doe, w);
    Dups(env, yoe, w);
    Goes(env, l1, [Sh(Dup)], a, w, [doe, yoe], w, [doe], [yoe], [yoe, yoe], [doe, yoe, yoe], w);
    var l2 := l1 + [Sh(Dup)];
    Product(yoe, 365);
    ComputesWith(env, Mul, yoe, 365, x, w);
    Goes(env, l2, With(365, Mul), a, w, [doe, yoe, yoe], w, [doe, yoe], [yoe], [x], [doe, yoe, x], w);
    var l3 := l2 + With(365, Mul);
    Sum(x, yoe / 4);
    OverDivides(env, 4, Add, yoe, x, y, w);
    Goes(env, l3, OverDiv(4, Add), a, w, [doe, yoe, x], w, [doe], [yoe, x], [yoe, y], [doe, yoe, y], w);
    var l4 := l3 + OverDiv(4, Add);
    Difference(y, yoe / 100);
    OverDivides(env, 100, Subtract, yoe, y, days, w);
    Goes(env, l4, OverDiv(100, Subtract), a, w, [doe, yoe, y], w, [doe], [yoe, y], [yoe, days], [doe, yoe, days], w);
    DayOfYearEnds(env, l4 + OverDiv(100, Subtract), a, yoe, doe, days, w);
  }

  lemma DayOfYearEnds(env: Env, l: seq<Plain>, a: seq<Word>, yoe: Word, doe: Word, days: Word, w: World)
    requires days <= doe && Does(env, l, a, w, [doe, yoe, days], w)
    ensures Does(env, l + [Sh(Rot)] + [Sh(Swap)] + [Op(Subtract)] + [Sh(Swap)] + [Sh(Drop)], a, w, [doe - days], w)
  {
    hide Does;
    hide MachineBinary;
    var doy := doe - days;
    Rots(env, doe, yoe, days, w);
    Goes(env, l, [Sh(Rot)], a, w, [doe, yoe, days], w, [], [doe, yoe, days], [yoe, days, doe], [yoe, days, doe], w);
    var l1 := l + [Sh(Rot)];
    Swaps(env, days, doe, w);
    Goes(env, l1, [Sh(Swap)], a, w, [yoe, days, doe], w, [yoe], [days, doe], [doe, days], [yoe, doe, days], w);
    var l2 := l1 + [Sh(Swap)];
    Difference(doe, days);
    Computes(env, Subtract, doe, days, doy, w);
    Goes(env, l2, [Op(Subtract)], a, w, [yoe, doe, days], w, [yoe], [doe, days], [doy], [yoe, doy], w);
    var l3 := l2 + [Op(Subtract)];
    Swaps(env, yoe, doy, w);
    Goes(env, l3, [Sh(Swap)], a, w, [yoe, doy], w, [], [yoe, doy], [doy, yoe], [doy, yoe], w);
    Drops(env, yoe, w);
    Goes(env, l3 + [Sh(Swap)], [Sh(Drop)], a, w, [doy, yoe], w, [doy], [yoe], [], [doy], w);
  }

  lemma MonthDoes(env: Env, doy: Word, w: World)
    requires doy <= 365
    ensures Does(env, MonthLine(), [doy], w, [doy, (5 * doy + 2) / 153], w)
  {
    hide Does;
    hide MachineBinary;
    var x, y, m, l1 := doy * 5, doy * 5 + 2, (5 * doy + 2) / 153, [Sh(Dup)];
    Dups(env, doy, w);
    Product(doy, 5);
    ComputesWith(env, Mul, doy, 5, x, w);
    Goes(env, l1, With(5, Mul), [doy], w, [doy, doy], w, [doy], [doy], [x], [doy, x], w);
    Sum(x, 2);
    ComputesWith(env, Add, x, 2, y, w);
    Goes(env, l1 + With(5, Mul), With(2, Add), [doy], w, [doy, x], w, [doy], [x], [y], [doy, y], w);
    Quotes(153, y);
    ComputesWith(env, Div, y, 153, m, w);
    Goes(env, l1 + With(5, Mul) + With(2, Add), With(153, Div), [doy], w, [doy, y], w, [doy], [y], [m], [doy, m], w);
  }

  lemma DayDoes(env: Env, doy: Word, m: Word, w: World)
    requires m <= 11 && (153 * m + 2) / 5 <= doy <= 365
    ensures Does(env, DayLine(), [doy, m], w, [doy - (153 * m + 2) / 5 + 1, m], w)
  {
    hide Does;
    hide MachineBinary;
    var x, y, before, a := m * 153, m * 153 + 2, (153 * m + 2) / 5, [doy, m];
    var k, d, l1 := doy - before, doy - before + 1, [Sh(TwoDup)];
    TwoDups(env, doy, m, w);
    Product(m, 153);
    ComputesWith(env, Mul, m, 153, x, w);
    Goes(env, l1, With(153, Mul), a, w, [doy, m, doy, m], w, [doy, m, doy], [m], [x], [doy, m, doy, x], w);
    var l2 := l1 + With(153, Mul);
    Sum(x, 2);
    ComputesWith(env, Add, x, 2, y, w);
    Goes(env, l2, With(2, Add), a, w, [doy, m, doy, x], w, [doy, m, doy], [x], [y], [doy, m, doy, y], w);
    var l3 := l2 + With(2, Add);
    Quotes(5, y);
    ComputesWith(env, Div, y, 5, before, w);
    Goes(env, l3, With(5, Div), a, w, [doy, m, doy, y], w, [doy, m, doy], [y], [before], [doy, m, doy, before], w);
    var l4 := l3 + With(5, Div);
    Difference(doy, before);
    Computes(env, Subtract, doy, before, k, w);
    Goes(env, l4, [Op(Subtract)], a, w, [doy, m, doy, before], w, [doy, m], [doy, before], [k], [doy, m, k], w);
    var l5 := l4 + [Op(Subtract)];
    Sum(k, 1);
    ComputesWith(env, Add, k, 1, d, w);
    Goes(env, l5, With(1, Add), a, w, [doy, m, k], w, [doy, m], [k], [d], [doy, m, d], w);
    var l6 := l5 + With(1, Add);
    Rots(env, doy, m, d, w);
    Goes(env, l6, [Sh(Rot)], a, w, [doy, m, d], w, [], [doy, m, d], [m, d, doy], [m, d, doy], w);
    Drops(env, doy, w);
    Goes(env, l6 + [Sh(Rot)], [Sh(Drop)], a, w, [m, d, doy], w, [m, d], [doy], [], [m, d], w);
    Swaps(env, m, d, w);
    Goes(env, l6 + [Sh(Rot)] + [Sh(Drop)], [Sh(Swap)], a, w, [m, d], w, [], [m, d], [d, m], [d, m], w);
  }

  // ----- what the block leaves -----

  /** The month as the calendar counts it, from the month counted from March. */
  function CivilMonth(m: nat): nat
    requires m <= 11
  {
    if m < 10 then m + 3 else m - 9
  }

  /** The calendar year: January and February belong to the year after the March before them. */
  function CivilYear(y: nat, m: nat): nat {
    if m < 10 then y else y + 1
  }

  /** What `date` leaves for the month: the correction meant for the year is added to the month. */
  function ReportedMonth(m: nat): nat
    requires m <= 11
  {
    CivilMonth(m) + if CivilMonth(m) <= 2 then 1 else 0
  }

  lemma LastDoes(env: Env, y: Word, d: Word, m: nat, w: World)
    requires m <= 11
    ensures Does(env, LastLine(), [y, d, CivilMonth(m)], w, [d, ReportedMonth(m), y], w)
  {
    hide Does;
    hide MachineBinary;
    var c: Word := CivilMonth(m);
    var v, r: Word, a := FromBool(c <= 2), ReportedMonth(m), [y, d, c];
    Rots(env, y, d, c, w);
    var l1 := [Sh(Rot)];
    Swaps(env, c, y, w);
    Goes(env, l1, [Sh(Swap)], a, w, [d, c, y], w, [d], [c, y], [y, c], [d, y, c], w);
    var l2 := l1 + [Sh(Swap)];
    Dups(env, c, w);
    Goes(env, l2, [Sh(Dup)], a, w, [d, y, c], w, [d, y], [c], [c, c], [d, y, c, c], w);
    var l3 := l2 + [Sh(Dup)];
    Compare(c, 2);
    ComputesWith(env, LessEq, c, 2, v, w);
    Goes(env, l3, With(2, LessEq), a, w, [d, y, c, c], w, [d, y, c], [c], [v], [d, y, c, v], w);
    var l4 := l3 + With(2, LessEq);
    One(env, Cast(Int), [], w, [], w);
    Goes(env, l4, [Cast(Int)], a, w, [d, y, c, v], w, [d, y, c, v], [], [], [d, y, c, v], w);
    var l5 := l4 + [Cast(Int)];
    Sum(c, v);
    Computes(env, Add, c, v, r, w);
    Goes(env, l5, [Op(Add)], a, w, [d, y, c, v], w, [d, y], [c, v], [r], [d, y, r], w);
    Swaps(env, y, r, w);
    Goes(env, l5 + [Op(Add)], [Sh(Swap)], a, w, [d, y, r], w, [d], [y, r], [r, y], [d, r, y], w);
  }

  lemma Compare(x: Word, y: Word)
    ensures MachineBinary(LessEq, x, y) == Some(FromBool(x <= y)) && MachineBinary(Less, x, y) == Some(FromBool(x < y))
  {
  }

  /** The date of a day, by the formulas of the word. */
  lemma DateOfDay(z: nat) returns (doe: Word, yoe: Word, y: Word, doy: Word, m: Word, d: Word)
    requires z < 0x1000_0000_0000_0000
    ensures doe == z % 146097 && yoe == YearOfEra(doe) && yoe <= 399 && YearStart(yoe) <= doe < ERA_DAYS
    ensures y == yoe + 400 * (z / 146097) && doy == doe - YearStart(yoe) && doy <= 365
    ensures m == (5 * doy + 2) / 153 && m <= 11 && (153 * m + 2) / 5 <= doy && d == doy - (153 * m + 2) / 5 + 1
    ensures IsDate(y, m, d) && DayNumber(y, m, d) == z
  {
    hide YearStart;
    hide MonthStart;
    hide IsDate;
    hide YearOfEra;
    var e := z / 146097;
    doe := z % 146097;
    YearOfEraIsCalendarYear(doe);
    yoe := YearOfEra(doe);
    YearsFollow(yoe);
    EraYear(e, yoe);
    y := yoe + 400 * e;
    doy := doe - YearStart(yoe);
    assert YearLength(y) <= 366;
    MonthIsCalendarMonth(y, doy);
    MonthBounds(doy);
    m := (5 * doy + 2) / 153;
    d := doy - (153 * m + 2) / 5 + 1;
  }

  /** Up to the month counted from March. */
  lemma DateLineDoes(env: Env, era: Symbol, s: Word, w: World) returns (y: Word, m: Word, d: Word)
    ensures m <= 11 && IsDate(y, m, d) && DayNumber(y, m, d) == s / 60 / 60 / 24 + EPOCH_SHIFT
    ensures Does(env, DateLine(era), [s], w, [s / 60 % 60, s / 60 / 60 % 24, y, d, m],
                 StoreWord(w, 8, env.symbol(era), (s / 60 / 60 / 24 + EPOCH_SHIFT) / 146097))
  {
    hide Does;
    hide IsDate;
    hide DayNumber;
    hide YearStart;
    hide YearOfEra;
    hide StoreWord;
    hide LoadWord;
    hide TimeLine;
    hide EraLine;
    hide YearOfEraLine;
    hide YearLine;
    hide DayOfYearLine;
    hide MonthLine;
    hide DayLine;
    var z, mi, ho := s / 60 / 60 / 24 + 719468, s / 60 % 60, s / 60 / 60 % 24;
    assert z < 0x1000_0000_0000_0000;
    var doe, yoe, doy;
    doe, yoe, y, doy, m, d := DateOfDay(z);
    var e := z / 146097;
    var w' := StoreWord(w, 8, env.symbol(era), e);
    TimeDoes(env, s, w);
    EraDoes(env, era, z, w);
    var l1 := TimeLine();
    Goes(env, l1, EraLine(era), [s], w, [mi, ho, z], w, [mi, ho], [z], [doe], [mi, ho, doe], w');
    var l2 := l1 + EraLine(era);
    YearOfEraDoes(env, doe, w');
    Goes(env, l2, YearOfEraLine(), [s], w, [mi, ho, doe], w', [mi, ho], [doe], [doe, yoe], [mi, ho, doe, yoe], w');
    var l3 := l2 + YearOfEraLine();
    CellHolds(w, env.symbol(era), e);
    YearDoes(env, era, doe, yoe, e, w');
    Goes(env, l3, YearLine(era), [s], w, [mi, ho, doe, yoe], w', [mi, ho], [doe, yoe], [y, yoe, doe],
        [mi, ho, y, yoe, doe], w');
    var l4 := l3 + YearLine(era);
    DayOfYearDoes(env, yoe, doe, w');
    Goes(env, l4, DayOfYearLine(), [s], w, [mi, ho, y, yoe, doe], w', [mi, ho, y], [yoe, doe], [doy],
        [mi, ho, y, doy], w');
    var l5 := l4 + DayOfYearLine();
    MonthDoes(env, doy, w');
    Goes(env, l5, MonthLine(), [s], w, [mi, ho, y, doy], w', [mi, ho, y], [doy], [doy, m], [mi, ho, y, doy, m], w');
    DayDoes(env, doy, m, w');
    Goes(env, l5 + MonthLine(), DayLine(), [s], w, [mi, ho, y, doy, m], w', [mi, ho, y], [doy, m], [d, m],
        [mi, ho, y, d, m], w');
  }

  /** `dup 10 < if 3 + else 9 - end`. */
  lemma MonthBranchRuns(env: Env, p: StructuredProgram, fuel: nat, rest: Block, st: seq<Word>, m: Word, w: World)
    requires m <= 11
    ensures Exec(env, p, fuel, Seq(IfElse(Line(With(3, Add), Nil), Line(With(9, Subtract), Nil)), rest),
        st + [m, FromBool(m < 10)], w)
         == Exec(env, p, fuel, rest, st + [CivilMonth(m)], w)
  {
    hide Does;
    hide Line;
    hide With;
    hide MachineBinary;
    var thn, els := Line(With(3, Add), Nil), Line(With(9, Subtract), Nil);
    var v := FromBool(m < 10);
    assert st + [m, v] == (st + [m]) + [v] && ((st + [m]) + [v])[..|st| + 1] == st + [m];
    if m < 10 {
      Sum(m, 3);
      WithDoes(env, Add, m, 3, m + 3, w);
      DoesRuns(env, p, fuel, With(3, Add), Nil, st, [m], w, [m + 3], w);
      NilRuns(env, p, fuel, st + [m + 3], w);
    } else {
      Difference(m, 9);
      WithDoes(env, Subtract, m, 9, m - 9, w);
      DoesRuns(env, p, fuel, With(9, Subtract), Nil, st, [m], w, [m - 9], w);
      NilRuns(env, p, fuel, st + [m - 9], w);
    }
  }

  lemma WithDoes(env: Env, op: BinaryOp, x: Word, y: Word, v: Word, w: World)
    requires MachineBinary(op, x, y) == Some(v)
    ensures Does(env, With(y, op), [x], w, [v], w)
  {
    hide Does;
    hide MachineBinary;
    ComputesWith(env, op, x, y, v, w);
  }

  /**
   The block replaces a number of seconds by minute, hour, day, month and year of that moment, and leaves the era in
   its cell. Year and month are those of the calendar if and only if the month is not January or February.
   */
  lemma DateRuns(env: Env, p: StructuredProgram, fuel: nat, era: Symbol, st: seq<Word>, s: Word, w: World)
      returns (y: Word, m: Word, d: Word)
    ensures m <= 11 && IsDate(y, m, d) && DayNumber(y, m, d) == s / 86400 + EPOCH_SHIFT
    ensures Exec(env, p, fuel, DateBlock(era), st + [s], w)
         == Next(st + [s / 60 % 60, s / 3600 % 24, d, ReportedMonth(m), y],
                 StoreWord(w, 8, env.symbol(era), DayNumber(y, m, d) / ERA_DAYS))
    ensures ReportedMonth(m) == CivilMonth(m) && y == CivilYear(y, m) <==> CivilMonth(m) >= 3
  {
    hide Does;
    hide IsDate;
    hide DayNumber;
    hide StoreWord;
    hide Line;
    hide DateLine;
    hide LastLine;
    hide Exec;
    Hours(s);
    Days(s);
    y, m, d := DateLineDoes(env, era, s, w);
    var w' := StoreWord(w, 8, env.symbol(era), DayNumber(y, m, d) / ERA_DAYS);
    var mi, ho, v := s / 60 % 60, s / 3600 % 24, FromBool(m < 10);
    var test, last := [Sh(Dup)] + With(10, Less), Line(LastLine(), Nil);
    TestsMonth(env, m, w');
    Goes(env, DateLine(era), test, [s], w, [mi, ho, y, d, m], w', [mi, ho, y, d], [m], [m, v],
        [mi, ho, y, d, m, v], w');
    var tail := Seq(IfElse(Line(With(3, Add), Nil), Line(With(9, Subtract), Nil)), last);
    DoesRuns(env, p, fuel, DateLine(era) + test, tail, st, [s], w, [mi, ho, y, d, m, v], w');
    assert st + [mi, ho, y, d, m, v] == (st + [mi, ho, y, d]) + [m, v];
    MonthBranchRuns(env, p, fuel, last, st + [mi, ho, y, d], m, w');
    var c: Word := CivilMonth(m);
    assert (st + [mi, ho, y, d]) + [c] == (st + [mi, ho]) + [y, d, c];
    LastDoes(env, y, d, m, w');
    var r: Word := ReportedMonth(m);
    DoesRuns(env, p, fuel, LastLine(), Nil, st + [mi, ho], [y, d, c], w', [d, r, y], w');
    assert (st + [mi, ho]) + [d, r, y] == st + [mi, ho, d, r, y];
    NilRuns(env, p, fuel, st + [mi, ho, d, r, y], w');
  }

  lemma TestsMonth(env: Env, m: Word, w: World)
    ensures Does(env, [Sh(Dup)] + With(10, Less), [m], w, [m, FromBool(m < 10)], w)
  {
    hide Does;
    hide MachineBinary;
    var v := FromBool(m < 10);
    Dups(env, m, w);
    Compare(m, 10);
    ComputesWith(env, Less, m, 10, v, w);
    Goes(env, [Sh(Dup)], With(10, Less), [m], w, [m, m], w, [m], [m], [v], [m, v], w);
  }

  /** The first of January 1970 comes out as the first of February 1969. */
  lemma EpochMisdated(env: Env, p: StructuredProgram, fuel: nat, era: Symbol, st: seq<Word>, w: World)
    ensures CivilYear(1969, 10) == 1970 && CivilMonth(10) == 1
    ensures Exec(env, p, fuel, DateBlock(era), st + [0], w)
        == Next(st + [0, 0, 1, 2, 1969], StoreWord(w, 8, env.symbol(era), 4))
  {
    hide Exec;
    hide StoreWord;
    var y, m, d := DateRuns(env, p, fuel, era, st, 0, w);
    EpochDay();
    DateUnique(y, m, d, 1969, 10, 1);
  }

  lemma EpochDay()
    ensures IsDate(1969, 10, 1) && DayNumber(1969, 10, 1) == EPOCH_SHIFT
  {
    MonthTable(1969, 10);
  }
}
