/**
 Conditions that literals decide. Folding neither decides a condition nor undoes that one is decided; once folding
 has nothing left to do, the literal stands right before the branch, where the condition pass looks for it.
 */
module UndecidedConditions {
  import opened Wrappers
  import opened Words
  import opened FoldArithmetic
  import opened Operations
  import opened Folding
  import opened FoldCorrectness
  import opened Conditions

  predicate Branches(k: Kind) {
    k == If || k == Do
  }

  /** The operations from `a` up to the branch at `k` fold, to a stack with something for the branch to take. */
  predicate DecidedFrom(body: seq<Operation>, a: nat, k: nat) {
    a < k <= |body| && FoldRun(body[a..k]).Folded? && FoldRun(body[a..k]).stack != []
  }

  predicate Decided(body: seq<Operation>, k: nat) {
    exists a :: 0 <= a < k && DecidedFrom(body, a, k)
  }

  /** No `if` and no `do` has a condition that the folder can compute. */
  predicate Undecided(body: seq<Operation>) {
    forall k :: 0 <= k < |body| && Branches(body[k].kind) ==> !Decided(body, k)
  }

  // ----- conditions to check at a glance -----

  /** The operation before a branch is none the folder handles. */
  predicate Unfed(body: seq<Operation>) {
    forall k :: 1 <= k < |body| && Branches(body[k].kind) ==> !Foldable(body[k - 1])
  }

  lemma UnfedIsUndecided(body: seq<Operation>)
    requires Unfed(body)
    ensures Undecided(body)
  {
    hide FoldRun;
    hide Foldable;
    forall k | 0 <= k < |body| && Branches(body[k].kind)
      ensures !Decided(body, k)
    {
      if Decided(body, k) {
        var a :| 0 <= a < k && DecidedFrom(body, a, k);
        LastFoldable(body[a..k]);
      }
    }
  }

  predicate Compares(op: Operation) {
    op.kind.Plain? && op.kind.plain.Intrinsic? && op.kind.plain.intrinsic.Binary?
    && op.kind.plain.intrinsic.op in {Equal, NotEqual, Less, LessEq, Greater, GreaterEq}
  }

  /** A comparison with a literal is decided exactly when its other operand is. */
  lemma ComparisonDecided(body: seq<Operation>, k: nat)
    requires 2 <= k <= |body| && IsPushInt(body[k - 2]) && Compares(body[k - 1])
    ensures Decided(body, k) <==> Decided(body, k - 2)
  {
    hide FoldRun;
    forall a | 0 <= a < k
      ensures DecidedFrom(body, a, k) <==> DecidedFrom(body, a, k - 2)
    {
      ComparisonDecidedFrom(body, a, k);
    }
    if Decided(body, k - 2) {
      var a :| 0 <= a < k - 2 && DecidedFrom(body, a, k - 2);
      assert DecidedFrom(body, a, k);
    }
  }

  lemma ComparisonDecidedFrom(body: seq<Operation>, a: nat, k: nat)
    requires a < k && 2 <= k <= |body| && IsPushInt(body[k - 2]) && Compares(body[k - 1])
    ensures DecidedFrom(body, a, k) <==> DecidedFrom(body, a, k - 2)
  {
    hide FoldRun;
    hide FoldBinary;
    assert FoldRun([]) == Folded([]) by {
      NothingFolds();
    }
    if a <= k - 2 {
      var x := body[a..k - 2];
      assert body[a..k] == x + [body[k - 2]] + [body[k - 1]];
      FoldRunSnoc(x, body[k - 2]);
      FoldRunSnoc(x + [body[k - 2]], body[k - 1]);
      if FoldRun(x).Folded? {
        Comparison(FoldRun(x).stack, body[k - 2], body[k - 1]);
      }
      assert a == k - 2 ==> x == [];
    } else {
      assert body[a..k] == [] + [body[k - 1]];
      FoldRunSnoc([], body[k - 1]);
    }
  }

  lemma NothingFolds()
    ensures FoldRun([]) == Folded([])
  {
  }

  lemma Comparison(st: seq<SignedWord>, literal: Operation, op: Operation)
    requires IsPushInt(literal) && Compares(op)
    ensures FoldOperation(st, literal).Folded?
    ensures var r := FoldOperation(FoldOperation(st, literal).stack, op);
      if st == [] then r == Blocked else r.Folded? && r.stack != []
  {
  }

  // ----- the condition pass -----

  lemma ConditionIsDecided(body: seq<Operation>, k: nat)
    requires 1 <= k < |body| && IsCondition(body, k)
    ensures Branches(body[k].kind) && Decided(body, k)
  {
    assert body[k - 1..k] == [] + [body[k - 1]];
    FoldRunSnoc([], body[k - 1]);
    assert DecidedFrom(body, k - 1, k);
  }

  /** The condition pass leaves an undecided body alone. */
  lemma {:induction false} NothingConstant(body: seq<Operation>, branch: nat, changed: bool)
    requires branch >= 1 && Undecided(body)
    ensures ConditionsFrom(body, branch, changed) == if changed then ConditionOutcome.Changed(body)
        else ConditionOutcome.Unchanged
    decreases |body| - branch
  {
    hide Decided;
    if branch < |body| {
      assert !IsCondition(body, branch) by {
        if IsCondition(body, branch) {
          ConditionIsDecided(body, branch);
        }
      }
      NothingConstant(body, branch + 1, changed);
    }
  }

  // ----- folding -----

  lemma BranchOutside(body: seq<Operation>, a: nat, b: nat, st: seq<SignedWord>, k: nat)
    requires IsRun(body, a, b, st) && k < |body| && Branches(body[k].kind)
    ensures k < a || b <= k
  {
    hide FoldRun;
  }

  /** A splice decides nothing new. */
  lemma SpliceDecides(body: seq<Operation>, a: nat, b: nat, st: seq<SignedWord>, k: nat, x: nat)
    requires IsRun(body, a, b, st) && (k < a || b <= k) && k <= |body|
    requires x < Moved(a, b, st, k) && DecidedFrom(Splice(body, a, b, st), x, Moved(a, b, st, k))
    ensures Decided(body, k)
  {
    hide FoldRun;
    hide Splice;
    NewPushes(body, a, b, st);
    var delta := |st| - (b - a);
    if k < a {
      SliceBefore(body, a, b, st, x, k);
      assert DecidedFrom(body, x, k);
    } else if x <= a {
      SliceAcross(body, a, b, st, x, k);
      assert DecidedFrom(body, x, k);
    } else if x < a + |st| {
      SliceAmong(body, a, b, st, x - a, k);
      assert DecidedFrom(body, a, k);
    } else {
      SliceBehind(body, a, b, st, x - delta, k);
      assert DecidedFrom(body, x - delta, k);
    }
  }

  /** And leaves decided what was. */
  lemma SpliceLeaves(body: seq<Operation>, a: nat, b: nat, st: seq<SignedWord>, k: nat, x: nat)
    requires IsRun(body, a, b, st) && (k < a || b <= k) && k <= |body|
    requires x < k && DecidedFrom(body, x, k)
    ensures Decided(Splice(body, a, b, st), Moved(a, b, st, k))
  {
    hide FoldRun;
    hide Splice;
    NewPushes(body, a, b, st);
    var r, k' := Splice(body, a, b, st), Moved(a, b, st, k);
    if k < a {
      SliceBefore(body, a, b, st, x, k);
      assert DecidedFrom(r, x, k');
    } else if x <= a {
      SliceAcross(body, a, b, st, x, k);
      NotEmpty(r, x, k');
      assert DecidedFrom(r, x, k');
    } else if x < b {
      FromTheStart(body, a, b, st, x, k);
      SliceAcross(body, a, b, st, a, k);
      NotEmpty(r, a, k');
      assert DecidedFrom(r, a, k');
    } else {
      SliceBehind(body, a, b, st, x, k);
      assert DecidedFrom(r, Moved(a, b, st, x), k');
    }
  }

  lemma NotEmpty(r: seq<Operation>, x: nat, k: nat)
    requires x <= k <= |r| && FoldRun(r[x..k]).Folded? && FoldRun(r[x..k]).stack != []
    ensures x < k
  {
  }

  /** What a run's tail decides, the whole run decides. */
  lemma FromTheStart(body: seq<Operation>, a: nat, b: nat, st: seq<SignedWord>, x: nat, k: nat)
    requires IsRun(body, a, b, st) && a < x < b <= k <= |body| && DecidedFrom(body, x, k)
    ensures DecidedFrom(body, a, k)
  {
    hide FoldRun;
    PrefixFolds(body[a..b], x - a);
    assert body[a..b][..x - a] == body[a..x];
    SuffixFolds(body[a..x], body[x..k]);
    assert body[a..x] + body[x..k] == body[a..k];
  }

  lemma SpliceDecidedExactly(body: seq<Operation>, a: nat, b: nat, st: seq<SignedWord>, k: nat)
    requires IsRun(body, a, b, st) && (k < a || b <= k) && k <= |body|
    ensures Decided(Splice(body, a, b, st), Moved(a, b, st, k)) <==> Decided(body, k)
  {
    hide FoldRun;
    hide Splice;
    var r, k' := Splice(body, a, b, st), Moved(a, b, st, k);
    if Decided(r, k') {
      var x :| 0 <= x < k' && DecidedFrom(r, x, k');
      SpliceDecides(body, a, b, st, k, x);
    }
    if Decided(body, k) {
      var x :| 0 <= x < k && DecidedFrom(body, x, k);
      SpliceLeaves(body, a, b, st, k, x);
    }
  }

  lemma SpliceUndecided(body: seq<Operation>, a: nat, b: nat, st: seq<SignedWord>)
    requires IsRun(body, a, b, st)
    ensures Undecided(Splice(body, a, b, st)) <==> Undecided(body)
  {
    hide FoldRun;
    hide Splice;
    hide Decided;
    NewPushes(body, a, b, st);
    var r, delta := Splice(body, a, b, st), |st| - (b - a);
    forall k | 0 <= k < |body| && Branches(body[k].kind)
      ensures Undecided(r) ==> !Decided(body, k)
    {
      BranchOutside(body, a, b, st, k);
      SpliceAt(body, a, b, st, k);
      SpliceDecidedExactly(body, a, b, st, k);
    }
    forall j | 0 <= j < |r| && Branches(r[j].kind)
      ensures Undecided(body) ==> !Decided(r, j)
    {
      if a <= j < a + |st| {
        SplicePush(body, a, b, st, j - a);
      } else {
        var k := if j < a then j else j - delta;
        SpliceAt(body, a, b, st, k);
        SpliceDecidedExactly(body, a, b, st, k);
      }
    }
  }

  lemma FoldUndecided(body: seq<Operation>)
    requires FoldBody(body).Changed?
    ensures Undecided(FoldBody(body).body) <==> Undecided(body)
  {
    hide Splice;
    hide FoldRun;
    hide Undecided;
    ScanFindsRun(body, 0, None, []);
    var r := ScanFrom(body, 0, None, []);
    SpliceUndecided(body, r.start, r.end, r.stack);
  }

  // ----- when folding is done -----

  /** From the start of decided operations the scan gets to their branch. */
  lemma {:induction false} ScanReaches(body: seq<Operation>, a: nat, start: Option<nat>, st: seq<SignedWord>, j: nat)
    requires a < j <= |body| && (start.Some? ==> start.value <= a) && (start.None? ==> st == [])
    requires FoldRun(body[a..j]).Folded?
    ensures IsPushInt(body[a])
    ensures ScanFrom(body, a, start, st)
         == ScanFrom(body, j, Some(if start.Some? then start.value else a), st + FoldRun(body[a..j]).stack)
    decreases j
  {
    hide FoldOperation;
    hide FoldRun;
    hide ScanFrom;
    if j == a + 1 {
      ScanStarts(body, a, start, st);
    } else {
      assert body[a..j] == body[a..j - 1] + [body[j - 1]];
      FoldRunSnoc(body[a..j - 1], body[j - 1]);
      ScanReaches(body, a, start, st, j - 1);
      ScanGoesOn(body, j - 1, if start.Some? then start.value else a, st, FoldRun(body[a..j - 1]).stack);
    }
  }

  lemma ScanStarts(body: seq<Operation>, a: nat, start: Option<nat>, st: seq<SignedWord>)
    requires a < |body| && (start.Some? ==> start.value <= a) && (start.None? ==> st == [])
    requires FoldRun(body[a..a + 1]).Folded?
    ensures IsPushInt(body[a])
    ensures ScanFrom(body, a, start, st)
         == ScanFrom(body, a + 1, Some(if start.Some? then start.value else a), st + FoldRun(body[a..a + 1]).stack)
  {
    hide ScanFrom;
    assert body[a..a + 1] == [] + [body[a]];
    FoldRunSnoc([], body[a]);
    assert IsPushInt(body[a]);
    hide FoldOperation;
    assert FoldRun([]) == Folded([]);
    hide FoldRun;
    if start.None? {
      ScanOpens(body, a);
    } else {
      ScanGoesOn(body, a, start.value, st, []);
      assert st + [] == st;
    }
  }

  lemma ScanOpens(body: seq<Operation>, a: nat)
    requires a < |body| && IsPushInt(body[a]) && FoldOperation([], body[a]).Folded?
    ensures ScanFrom(body, a, None, []) == ScanFrom(body, a + 1, Some(a), [] + FoldOperation([], body[a]).stack)
  {
    hide FoldOperation;
    assert [] + FoldOperation([], body[a]).stack == FoldOperation([], body[a]).stack;
  }

  lemma ScanGoesOn(body: seq<Operation>, i: nat, s: nat, base: seq<SignedWord>, st: seq<SignedWord>)
    requires s <= i < |body| && FoldOperation(st, body[i]).Folded?
    ensures ScanFrom(body, i, Some(s), base + st)
        == ScanFrom(body, i + 1, Some(s), base + FoldOperation(st, body[i]).stack)
  {
    hide FoldOperation;
    OperationFramed(base, st, body[i]);
  }

  lemma LastIsLiteral(body: seq<Operation>, s: nat, k: nat, st: seq<SignedWord>)
    requires s < k <= |body| && IsPushInt(body[s]) && AlreadyFolded(body, s, k, st)
    ensures IsPushInt(body[k - 1])
  {
    if s + 1 != k {
      var last := st[k - 1 - s];
    }
  }

  /** A scan that finds nothing has passed decided operations only as literals. */
  lemma {:induction false} ScanPasses(body: seq<Operation>, i: nat, start: Option<nat>, st: seq<SignedWord>,
      a: nat, k: nat)
    requires i <= a < k < |body| && (start.Some? ==> start.value <= i && IsPushInt(body[start.value]))
    requires (start.None? ==> st == [])
    requires ScanFrom(body, i, start, st) == Nothing && FoldRun(body[a..k]).Folded? && Branches(body[k].kind)
    ensures IsPushInt(body[k - 1])
    decreases a - i
  {
    hide FoldRun;
    if i == a {
      ScanReaches(body, a, start, st, k);
      var s, st' := if start.Some? then start.value else a, st + FoldRun(body[a..k]).stack;
      assert FoldOperation(st', body[k]) == Blocked;
      LastIsLiteral(body, s, k, st');
    } else if start.None? && !IsPushInt(body[i]) {
      ScanPasses(body, i + 1, None, [], a, k);
    } else {
      hide FoldOperation;
      var s := if start.Some? then start.value else i;
      match FoldOperation(st, body[i])
      case Folded(st') => ScanPasses(body, i + 1, Some(s), st', a, k);
      case Blocked => ScanPasses(body, i + 1, None, [], a, k);
    }
  }

  lemma SettledConditions(body: seq<Operation>, k: nat)
    requires FoldBody(body) == FoldOutcome.Unchanged && 1 <= k < |body| && Branches(body[k].kind)
    ensures IsCondition(body, k) <==> Decided(body, k)
  {
    hide FoldRun;
    if IsCondition(body, k) {
      ConditionIsDecided(body, k);
    }
    if Decided(body, k) {
      var a :| 0 <= a < k && DecidedFrom(body, a, k);
      ScanPasses(body, 0, None, [], a, k);
    }
  }

  lemma {:induction false} SettledChanges(body: seq<Operation>, branch: nat, k: nat)
    requires 1 <= branch <= k < |body| && IsCondition(body, k)
    ensures ConditionsFrom(body, branch, false) != ConditionOutcome.Unchanged
    decreases k - branch
  {
    if IsCondition(body, branch) {
      if RewriteCondition(body, branch).Some? {
        RewriteShrinks(body, branch);
        ConditionsShrink(RewriteCondition(body, branch).value, branch, true);
      }
    } else {
      SettledChanges(body, branch + 1, k);
    }
  }

  lemma {:induction false} NoneFound(body: seq<Operation>, branch: nat)
    requires branch >= 1 && forall k :: branch <= k < |body| ==> !(IsPushInt(body[k - 1]) && Branches(body[k].kind))
    ensures ConditionsFrom(body, branch, false) == ConditionOutcome.Unchanged
    decreases |body| - branch
  {
    if branch < |body| {
      NoneFound(body, branch + 1);
    }
  }

  /** The condition pass leaves a body alone exactly when no `if` and no `do` stands right behind a literal. */
  lemma ConditionsFound(body: seq<Operation>)
    ensures ConditionsBody(body) == ConditionOutcome.Unchanged
       <==> forall k :: 1 <= k < |body| ==> !(IsPushInt(body[k - 1]) && (body[k].kind == If || body[k].kind == Do))
  {
    hide ConditionsFrom;
    if k :| 1 <= k < |body| && IsPushInt(body[k - 1]) && (body[k].kind == If || body[k].kind == Do) {
      SettledChanges(body, 1, k);
    } else {
      NoneFound(body, 1);
    }
  }

  /**
   However many rounds it takes: once folding has nothing left to do, the condition pass finds nothing either if
   and only if no condition of the body it all started with was decided.
   */
  lemma {:induction false} UndecidedExactly(body: seq<Operation>, n: nat)
    requires FoldBody(FoldRounds(body, n)) == FoldOutcome.Unchanged
    ensures ConditionsBody(FoldRounds(body, n)) == ConditionOutcome.Unchanged <==> Undecided(body)
    decreases n
  {
    hide Undecided;
    hide FoldBody;
    if n > 0 && FoldBody(body).Changed? {
      FoldUndecided(body);
      UndecidedExactly(FoldBody(body).body, n - 1);
    } else {
      SettledUndecided(body);
    }
  }

  lemma SettledUndecided(body: seq<Operation>)
    requires FoldBody(body) == FoldOutcome.Unchanged
    ensures ConditionsBody(body) == ConditionOutcome.Unchanged <==> Undecided(body)
  {
    hide Decided;
    hide FoldBody;
    hide ConditionsFrom;
    if Undecided(body) {
      NothingConstant(body, 1, false);
    } else {
      var k :| 0 <= k < |body| && Branches(body[k].kind) && Decided(body, k);
      NotAtStart(body, k);
      SettledConditions(body, k);
      SettledChanges(body, 1, k);
    }
  }

  lemma NotAtStart(body: seq<Operation>, k: nat)
    requires Decided(body, k)
    ensures k >= 1
  {
  }

  // ----- literals that stand alone -----

  /** A literal whose successor the folder cannot apply to it alone. */
  predicate Alone(x: Operation, y: Operation) {
    IsPushInt(x) ==> FoldOperation([ToSigned(x.kind.plain.value)], y) == Blocked
  }

  /** And whose successor does not branch on it. */
  predicate Quiet(x: Operation, y: Operation) {
    Alone(x, y) && (IsPushInt(x) ==> !Branches(y.kind))
  }

  predicate AloneThroughout(ops: seq<Operation>) {
    forall i :: 0 <= i < |ops| - 1 ==> Alone(ops[i], ops[i + 1])
  }

  predicate QuietThroughout(ops: seq<Operation>) {
    forall i :: 0 <= i < |ops| - 1 ==> Quiet(ops[i], ops[i + 1])
  }

  /** Where literals stand alone there is nothing to fold. */
  lemma {:induction false} AloneSettled(body: seq<Operation>, i: nat)
    requires i <= |body| && AloneThroughout(body)
    ensures ScanFrom(body, i, None, []) == Nothing
    decreases |body| - i
  {
    if i < |body| {
      if !IsPushInt(body[i]) {
        AloneSettled(body, i + 1);
      } else if i + 1 == |body| {
        assert FoldOperation([], body[i]) == Folded([ToSigned(body[i].kind.plain.value)]);
      } else {
        assert FoldOperation([], body[i]) == Folded([ToSigned(body[i].kind.plain.value)]);
        assert Alone(body[i], body[i + 1]);
        AloneSettled(body, i + 2);
      }
    }
  }

  /** And where no branch follows one, nothing is decided. */
  lemma QuietUndecided(body: seq<Operation>)
    requires QuietThroughout(body)
    ensures Undecided(body)
  {
    hide FoldRun;
    forall k | 0 <= k < |body| && Branches(body[k].kind)
      ensures !Decided(body, k)
    {
      if Decided(body, k) {
        var a :| 0 <= a < k && DecidedFrom(body, a, k);
        OnlyLiteral(body, a, k);
      }
    }
  }

  lemma OnlyLiteral(body: seq<Operation>, a: nat, k: nat)
    requires QuietThroughout(body) && k <= |body| && DecidedFrom(body, a, k)
    ensures k == a + 1 && IsPushInt(body[a])
  {
    hide QuietThroughout;
    PrefixFolds(body[a..k], 1);
    assert body[a..k][..1] == [] + [body[a]];
    FoldRunSnoc([], body[a]);
    if k > a + 1 {
      PrefixFolds(body[a..k], 2);
      assert body[a..k][..2] == [] + [body[a]] + [body[a + 1]];
      FoldRunSnoc([] + [body[a]], body[a + 1]);
      assert Quiet(body[a], body[a + 1]) by {
        QuietPair(body, a);
      }
    }
  }

  lemma QuietPair(body: seq<Operation>, a: nat)
    requires QuietThroughout(body) && a + 1 < |body|
    ensures Quiet(body[a], body[a + 1])
  {
  }

  lemma QuietConcat(a: seq<Operation>, b: seq<Operation>)
    requires QuietThroughout(a) && QuietThroughout(b) && (a != [] && b != [] ==> Quiet(a[|a|-1], b[0]))
    ensures QuietThroughout(a + b)
  {
    hide Quiet;
    var all := a + b;
    forall i | 0 <= i < |all| - 1
      ensures Quiet(all[i], all[i + 1])
    {
      if i < |a| - 1 {
        assert Quiet(a[i], a[i + 1]);
      } else if i >= |a| {
        var j := i - |a|;
        assert Quiet(b[j], b[j + 1]);
      }
    }
  }
}
