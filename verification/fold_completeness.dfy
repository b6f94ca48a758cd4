/**
 What the folder finds, exactly: it stops at the first place where literals run into an evaluation that C++ leaves
 undefined, or where a run that is more than literals can go no further, and it finds nothing only when there is
 neither anywhere.
 */
module FoldCompleteness {
  import opened Wrappers
  import opened Words
  import opened Operations
  import opened Folding
  import opened FoldCorrectness

  // ----- which operations fold, on which operands -----

  /** The operands on which the folder's arithmetic is undefined. */
  predicate Undefinable(op: BinaryOp, b: SignedWord, a: SignedWord) {
    || (op in {Div, Mod} && (a == 0 || (b == -0x8000_0000_0000_0000 && a == -1)))
    || (op in {LeftShift, RightShift} && !(0 <= a < 64))
  }

  /** How many literals an operation needs to be folded; none for operations that never are. */
  function Needs(op: Operation): Option<nat> {
    match op.kind
    case Plain(PushInt(_, _)) => Some(0)
    case Plain(Intrinsic(Binary(o))) => if o == BooleanAnd || o == BooleanOr then None else Some(2)
    case Plain(Intrinsic(Shuffle(s))) =>
      if s in {Drop, Dup} then Some(1) else if s in {TwoDup, Over, Swap, Tuck} then Some(2)
      else if s == Rot then Some(3) else None
    case _ => None
  }

  /** An operation is taken in exactly when its operands are there, and is undefined exactly on these. */
  lemma FoldsWhen(st: seq<SignedWord>, op: Operation)
    ensures FoldOperation(st, op) == Blocked <==> Needs(op).None? || |st| < Needs(op).value
    ensures FoldOperation(st, op) == Undefined <==>
      && op.kind.Plain? && op.kind.plain.Intrinsic? && op.kind.plain.intrinsic.Binary? && Needs(op).Some?
      && |st| >= 2 && Undefinable(op.kind.plain.intrinsic.op, st[|st|-2], st[|st|-1])
  {
  }

  // ----- events -----

  predicate Reaches(body: seq<Operation>, a: nat, i: nat) {
    a < i <= |body| && FoldRun(body[a..i]).Folded?
  }

  /** No run that starts before `s` reaches `i`. */
  ghost predicate NoneReach(body: seq<Operation>, s: nat, i: nat) {
    forall a :: 0 <= a < s ==> !Reaches(body, a, i)
  }

  predicate Literals(body: seq<Operation>, a: nat, i: nat)
    requires i <= |body|
  {
    forall k :: a <= k < i ==> IsPushInt(body[k])
  }

  predicate BreaksFrom(body: seq<Operation>, a: nat, i: nat) {
    Reaches(body, a, i) && i < |body| && FoldOperation(FoldRun(body[a..i]).stack, body[i]) == Undefined
  }

  /** Literals run into an undefined evaluation at `i`. */
  ghost predicate Breaks(body: seq<Operation>, i: nat) {
    exists a :: 0 <= a < i && BreaksFrom(body, a, i)
  }

  ghost predicate GoesOn(body: seq<Operation>, i: nat) {
    exists a :: 0 <= a < i && TakesIn(body, a, i)
  }

  ghost predicate Worth(body: seq<Operation>, a: nat, i: nat) {
    Reaches(body, a, i) && !Literals(body, a, i)
  }

  /** A run that is more than literals ends right before `i`. */
  ghost predicate Ends(body: seq<Operation>, i: nat) {
    !Breaks(body, i) && !GoesOn(body, i) && exists a :: 0 <= a < i && Worth(body, a, i)
  }

  // ----- runs that share their end -----

  lemma UndefinedFramed(base: seq<SignedWord>, st: seq<SignedWord>, op: Operation)
    requires FoldOperation(st, op) == Undefined
    ensures FoldOperation(base + st, op) == Undefined
  {
    hide FoldOperation;
    FoldsWhen(st, op);
    FoldsWhen(base + st, op);
    var all := base + st;
    assert |st| >= 2 ==> all[|all|-2] == st[|st|-2] && all[|all|-1] == st[|st|-1];
  }

  /** A run that starts earlier has the later one's stack on top of its own. */
  lemma SharedEnd(body: seq<Operation>, s: nat, a: nat, i: nat)
    requires s <= a && Reaches(body, s, i) && Reaches(body, a, i)
    ensures exists base :: FoldRun(body[s..i]).stack == base + FoldRun(body[a..i]).stack
  {
    hide FoldRun;
    PrefixFolds(body[s..i], a - s);
    assert body[s..i][..a - s] == body[s..a] && body[s..a] + body[a..i] == body[s..i];
    SuffixFolds(body[s..a], body[a..i]);
  }

  lemma EarlierBreaks(body: seq<Operation>, s: nat, a: nat, i: nat)
    requires s <= a && Reaches(body, s, i) && BreaksFrom(body, a, i)
    ensures FoldOperation(FoldRun(body[s..i]).stack, body[i]) == Undefined
  {
    hide FoldRun;
    hide FoldOperation;
    SharedEnd(body, s, a, i);
    var base :| FoldRun(body[s..i]).stack == base + FoldRun(body[a..i]).stack;
    UndefinedFramed(base, FoldRun(body[a..i]).stack, body[i]);
  }

  lemma TakenFrom(body: seq<Operation>, a: nat, i: nat)
    requires a < i < |body|
    ensures TakesIn(body, a, i) <==> Reaches(body, a, i) && FoldOperation(FoldRun(body[a..i]).stack, body[i]).Folded?
  {
    hide FoldOperation;
    assert body[a..i + 1] == body[a..i] + [body[i]];
    FoldRunSnoc(body[a..i], body[i]);
  }

  lemma EarlierTakes(body: seq<Operation>, s: nat, a: nat, i: nat)
    requires s <= a < i && Reaches(body, s, i) && TakesIn(body, a, i)
    ensures FoldOperation(FoldRun(body[s..i]).stack, body[i]).Folded?
  {
    hide FoldRun;
    hide FoldOperation;
    TakenFrom(body, a, i);
    SharedEnd(body, s, a, i);
    var base :| FoldRun(body[s..i]).stack == base + FoldRun(body[a..i]).stack;
    OperationFramed(base, FoldRun(body[a..i]).stack, body[i]);
  }

  // ----- the scan -----

  /** The scan's run is the longest that reaches `i`, and it has none exactly when there is none. */
  ghost predicate Leftmost(body: seq<Operation>, i: nat, start: Option<nat>, st: seq<SignedWord>) {
    match start
    case None => st == [] && NoneReach(body, i, i)
    case Some(s) => IsRun(body, s, i, st) && NoneReach(body, s, i)
  }

  lemma LiteralsSettle(body: seq<Operation>, s: nat, i: nat, st: seq<SignedWord>)
    requires IsRun(body, s, i, st)
    ensures AlreadyFolded(body, s, i, st) <==> Literals(body, s, i)
  {
    hide FoldRun;
    if Literals(body, s, i) {
      LiteralsFoldToThemselves(body[s..i]);
    }
    if AlreadyFolded(body, s, i, st) && s + 1 != i {
      forall k | s <= k < i
        ensures IsPushInt(body[k])
      {
        var v := st[k - s];
      }
    }
  }

  /** Nothing happens at `i` while the run goes on. */
  lemma RunGoesOn(body: seq<Operation>, s: nat, i: nat, st: seq<SignedWord>)
    requires i < |body| && Leftmost(body, i, Some(s), st) && FoldOperation(st, body[i]).Folded?
    ensures !Breaks(body, i) && !Ends(body, i)
  {
    hide FoldRun;
    hide FoldOperation;
    TakenFrom(body, s, i);
    if a :| 0 <= a < i && BreaksFrom(body, a, i) {
      EarlierBreaks(body, s, a, i);
    }
  }

  lemma RunBlocked(body: seq<Operation>, s: nat, i: nat, st: seq<SignedWord>)
    requires i < |body| && Leftmost(body, i, Some(s), st) && FoldOperation(st, body[i]) == Blocked
    ensures !Breaks(body, i) && !GoesOn(body, i) && (Ends(body, i) <==> !Literals(body, s, i))
  {
    hide FoldRun;
    hide FoldOperation;
    if a :| 0 <= a < i && BreaksFrom(body, a, i) {
      EarlierBreaks(body, s, a, i);
    }
    if a :| 0 <= a < i && TakesIn(body, a, i) {
      TakenFrom(body, a, i);
      EarlierTakes(body, s, a, i);
    }
    if !Literals(body, s, i) {
      assert Worth(body, s, i);
    } else {
      AllLiteral(body, s, i);
    }
  }

  lemma AllLiteral(body: seq<Operation>, s: nat, i: nat)
    requires i <= |body| && Literals(body, s, i) && NoneReach(body, s, i)
    ensures forall a :: 0 <= a < i ==> !Worth(body, a, i)
  {
    hide FoldRun;
    forall a | 0 <= a < i
      ensures !Worth(body, a, i)
    {
    }
  }

  lemma NoRun(body: seq<Operation>, i: nat)
    requires i <= |body| && NoneReach(body, i, i)
    ensures !Breaks(body, i) && !Ends(body, i)
  {
    hide FoldRun;
    hide FoldOperation;
    assert !exists a :: 0 <= a < i && Worth(body, a, i);
  }

  lemma OneFolds(op: Operation)
    ensures FoldRun([op]).Folded? <==> IsPushInt(op)
  {
    FoldRunSnoc([], op);
    assert [] + [op] == [op];
    FoldsWhen([], op);
  }

  /** Without a run up to `i`, one up to `i + 1` can only be the literal there. */
  lemma NextStart(body: seq<Operation>, i: nat)
    requires i < |body| && forall a :: 0 <= a < i ==> !TakesIn(body, a, i)
    ensures NoneReach(body, i, i + 1)
    ensures Reaches(body, i, i + 1) <==> IsPushInt(body[i])
  {
    hide FoldRun;
    assert body[i..i + 1] == [body[i]];
    OneFolds(body[i]);
    var next := i + 1;
    forall a | 0 <= a < i
      ensures !Reaches(body, a, next)
    {
      assert !TakesIn(body, a, i);
    }
  }

  lemma NotReached(body: seq<Operation>, i: nat)
    requires i < |body| && NoneReach(body, i, i)
    ensures forall a :: 0 <= a < i ==> !TakesIn(body, a, i)
  {
    hide FoldRun;
    forall a | 0 <= a < i
      ensures !TakesIn(body, a, i)
    {
      TakenFrom(body, a, i);
    }
  }

  lemma StillLeftmost(body: seq<Operation>, s: nat, i: nat, st: seq<SignedWord>)
    requires i < |body| && Leftmost(body, i, Some(s), st) && FoldOperation(st, body[i]).Folded?
    ensures Leftmost(body, i + 1, Some(s), FoldOperation(st, body[i]).stack)
  {
    hide FoldRun;
    hide FoldOperation;
    ExtendRun(body, s, i, st);
    var next := i + 1;
    forall a | 0 <= a < s
      ensures !Reaches(body, a, next)
    {
      TakenFrom(body, a, i);
      assert !Reaches(body, a, i);
    }
  }

  lemma StartsLeftmost(body: seq<Operation>, i: nat)
    requires i < |body| && Leftmost(body, i, None, []) && IsPushInt(body[i])
    ensures FoldOperation([], body[i]).Folded? && Leftmost(body, i + 1, Some(i), FoldOperation([], body[i]).stack)
  {
    hide FoldRun;
    FoldsWhen([], body[i]);
    hide FoldOperation;
    ExtendRun(body, i, i, []);
    NotReached(body, i);
    NextStart(body, i);
  }

  /** Nothing of interest before `k`. */
  ghost predicate QuietUntil(body: seq<Operation>, i: nat, k: nat) {
    forall j :: i <= j < k ==> !Breaks(body, j) && !Ends(body, j)
  }

  /** The scan stops at the first event, and finds nothing only if there is none. */
  ghost predicate StopsRight(body: seq<Operation>, i: nat, r: Scan) {
    match r
    case Crash => exists k :: i <= k < |body| && Breaks(body, k) && QuietUntil(body, i, k)
    case Found(a, b, st) =>
      i <= b <= |body| && Ends(body, b) && QuietUntil(body, i, b) && Leftmost(body, b, Some(a), st)
    case Nothing => QuietUntil(body, i, |body| + 1)
  }

  lemma QuietStep(body: seq<Operation>, i: nat, r: Scan)
    requires i < |body| && !Breaks(body, i) && !Ends(body, i) && StopsRight(body, i + 1, r)
    ensures StopsRight(body, i, r)
  {
    hide Breaks;
    hide Ends;
    hide Leftmost;
    if r.Crash? {
      var k :| i + 1 <= k < |body| && Breaks(body, k) && QuietUntil(body, i + 1, k);
      assert QuietUntil(body, i, k);
    }
  }

  lemma {:induction false} ScanStopsRight(body: seq<Operation>, i: nat, start: Option<nat>, st: seq<SignedWord>)
    requires i <= |body| && Leftmost(body, i, start, st) && (start.Some? ==> start.value <= i)
    ensures StopsRight(body, i, ScanFrom(body, i, start, st))
    decreases |body| - i
  {
    hide FoldRun;
    hide FoldOperation;
    hide Breaks;
    hide Ends;
    if start.None? {
      NoRun(body, i);
      if i < |body| {
        if IsPushInt(body[i]) {
          StartsLeftmost(body, i);
          ScanStopsRight(body, i + 1, Some(i), FoldOperation([], body[i]).stack);
        } else {
          NotReached(body, i);
          NextStart(body, i);
          ScanStopsRight(body, i + 1, None, []);
        }
        QuietStep(body, i, ScanFrom(body, i, start, st));
      }
    } else {
      ScanInRun(body, i, start.value, st);
    }
  }

  lemma {:induction false} ScanInRun(body: seq<Operation>, i: nat, s: nat, st: seq<SignedWord>)
    requires s <= i <= |body| && Leftmost(body, i, Some(s), st)
    ensures StopsRight(body, i, ScanFrom(body, i, Some(s), st))
    decreases |body| - i, 0
  {
    hide FoldRun;
    hide FoldOperation;
    LiteralsSettle(body, s, i, st);
    if i == |body| {
      RunAtEnd(body, s, st);
    } else {
      match FoldOperation(st, body[i])
      case Folded(st') =>
        RunGoesOn(body, s, i, st);
        StillLeftmost(body, s, i, st);
        ScanStopsRight(body, i + 1, Some(s), st');
        QuietStep(body, i, ScanFrom(body, i, Some(s), st));
      case Undefined =>
        assert BreaksFrom(body, s, i);
        assert Breaks(body, i) && QuietUntil(body, i, i);
      case Blocked =>
        RunBlocked(body, s, i, st);
        if Literals(body, s, i) {
          AfterBlocked(body, i, st);
          ScanStopsRight(body, i + 1, None, []);
          QuietStep(body, i, ScanFrom(body, i, Some(s), st));
        }
    }
  }

  lemma AfterBlocked(body: seq<Operation>, i: nat, st: seq<SignedWord>)
    requires i < |body| && FoldOperation(st, body[i]) == Blocked && !GoesOn(body, i)
    ensures Leftmost(body, i + 1, None, [])
  {
    hide FoldRun;
    FoldsWhen(st, body[i]);
    NextStart(body, i);
  }

  lemma RunAtEnd(body: seq<Operation>, s: nat, st: seq<SignedWord>)
    requires Leftmost(body, |body|, Some(s), st)
    ensures !Breaks(body, |body|) && (Ends(body, |body|) <==> !Literals(body, s, |body|))
  {
    hide FoldRun;
    var n := |body|;
    if !Literals(body, s, n) {
      assert Worth(body, s, n);
    } else {
      AllLiteral(body, s, n);
    }
  }

  // ----- the pass -----

  /** No run anywhere is worth folding. */
  ghost predicate OnlyLiterals(body: seq<Operation>) {
    forall a, b :: 0 <= a < b <= |body| && Reaches(body, a, b) ==> Literals(body, a, b)
  }

  lemma BeforeIsQuiet(body: seq<Operation>)
    ensures Leftmost(body, 0, None, [])
  {
  }

  /** A run worth folding ends somewhere, or breaks. */
  lemma {:induction false} WorthEnds(body: seq<Operation>, a: nat, i: nat)
    requires a < i <= |body| && Worth(body, a, i)
    ensures exists k :: i <= k <= |body| && (Breaks(body, k) || Ends(body, k))
    decreases |body| - i
  {
    hide FoldRun;
    hide FoldOperation;
    if !Breaks(body, i) && GoesOn(body, i) {
      var b :| 0 <= b < i && TakesIn(body, b, i);
      TakenFrom(body, b, i);
      if a <= b {
        EarlierTakes(body, a, b, i);
        TakenFrom(body, a, i);
        assert Worth(body, a, i + 1);
        WorthEnds(body, a, i + 1);
      } else {
        assert Worth(body, b, i + 1);
        WorthEnds(body, b, i + 1);
      }
    } else {
      assert Breaks(body, i) || Ends(body, i);
    }
  }

  /**
   `Unchanged` exactly when every run anywhere consists of literals and none breaks, `Crashed` exactly when a run
   breaks before one worth folding ends, `Changed` exactly when one worth folding ends first.
   */
  lemma FoldsExactly(body: seq<Operation>)
    ensures FoldBody(body) == FoldOutcome.Unchanged <==>
      OnlyLiterals(body) && forall k :: 0 <= k < |body| ==> !Breaks(body, k)
    ensures FoldBody(body) == Crashed <==> exists k :: 0 <= k < |body| && Breaks(body, k) && QuietUntil(body, 0, k)
    ensures FoldBody(body).Changed? <==> exists k :: 0 <= k <= |body| && Ends(body, k) && QuietUntil(body, 0, k)
  {
    hide FoldRun;
    hide Splice;
    hide ScanFrom;
    hide Breaks;
    hide Ends;
    hide Leftmost;
    hide Worth;
    BeforeIsQuiet(body);
    ScanStopsRight(body, 0, None, []);
    ScanInRange(body, 0, None, []);
    var r := ScanFrom(body, 0, None, []);
    if r.Nothing? {
      NothingWorth(body);
    } else {
      EventApart(body, if r.Found? then r.end
          else var k :| 0 <= k < |body| && Breaks(body, k) && QuietUntil(body, 0, k); k);
    }
  }

  lemma NothingWorth(body: seq<Operation>)
    requires QuietUntil(body, 0, |body| + 1)
    ensures OnlyLiterals(body) && forall k :: 0 <= k < |body| ==> !Breaks(body, k)
  {
    hide Breaks;
    hide Ends;
    hide Reaches;
    forall a, b | 0 <= a < b <= |body| && Reaches(body, a, b)
      ensures Literals(body, a, b)
    {
      if !Literals(body, a, b) {
        WorthEnds(body, a, b);
      }
    }
  }

  /** An event is of one kind only, and none without a run worth folding or one that breaks. */
  lemma EventApart(body: seq<Operation>, k: nat)
    requires k <= |body| && (Ends(body, k) || Breaks(body, k))
    ensures !(Ends(body, k) && Breaks(body, k))
    ensures Ends(body, k) ==> !OnlyLiterals(body)
  {
    hide Breaks;
    hide GoesOn;
    hide Reaches;
    if Ends(body, k) {
      var a :| 0 <= a < k && Worth(body, a, k);
    }
  }

  // ----- what is never left -----

  /** Once nothing is left to fold, no operation stands behind as many literals as it needs. */
  lemma NothingLeft(body: seq<Operation>, a: nat, k: nat)
    requires FoldBody(body) == FoldOutcome.Unchanged && a < k < |body| && Literals(body, a, k)
    requires Needs(body[k]).Some? && Needs(body[k]).value <= k - a
    ensures IsPushInt(body[k])
  {
    hide FoldRun;
    hide FoldOperation;
    hide FoldBody;
    LiteralsFoldToThemselves(body[a..k]);
    assert Reaches(body, a, k);
    FoldsWhen(FoldRun(body[a..k]).stack, body[k]);
    FoldsExactly(body);
    TakenFrom(body, a, k);
    assert !Breaks(body, k);
    assert !BreaksFrom(body, a, k);
    assert TakesIn(body, a, k) && Reaches(body, a, k + 1);
    assert Literals(body, a, k + 1);
  }
}
