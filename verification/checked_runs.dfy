/**
 Conditions to check on a program before the optimizer runs, under which every step of every run is sound: no
 condition that literals decide (or one pass of right rewrites that leaves none), no function that shares its id and
 refers to something, and no operation on which the sign of the operands matters.
 */
module CheckedRuns {
  import opened Wrappers
  import opened Operations
  import opened Folding
  import opened FoldCorrectness
  import opened Conditions
  import opened UnusedWords
  import opened Optimizer
  import opened FoldSchedules
  import opened UndecidedConditions
  import opened ConditionPasses
  import opened OptimizerRuns

  // ----- shared ids -----

  lemma {:induction false} KeptPair(words: Dictionary, used: set<nat>, j: nat, k: nat) returns (j': nat, k': nat)
    requires j < k < |KeepWords(words, used)|
    ensures j' < k' < |words| && words[j'] == KeepWords(words, used)[j] && words[k'] == KeepWords(words, used)[k]
    decreases |words|
  {
    var n := |words| - 1;
    var r := KeepWords(words[..n], used);
    if k < |r| {
      j', k' := KeptPair(words[..n], used, j, k);
    } else {
      KeptFrom(words[..n], used, j);
      var i :| 0 <= i < n && words[..n][i] == r[j] && Stays(words[..n][i], used);
      j', k' := i, n;
    }
  }

  lemma RemovalStaysClosed(s: Stage, s': Stage)
    requires SharersClosed(s.words) && Removes(s, s')
    ensures SharersClosed(s'.words)
  {
    hide Reachable;
    hide KeepsStrings;
    hide RefersToNothing;
    var used :| UsedExactly(s.words, s.main, used) && s'.words == KeepWords(s.words, used);
    var words, words' := s.words, s'.words;
    forall j, k | 0 <= j < |words'| && 0 <= k < |words'| && j != k && IsFunction(words', k)
        && words'[j].id == words'[k].id
      ensures RefersToNothing(words'[k].def.body)
    {
      if j < k {
        var x, y := KeptPair(words, used, j, k);
        assert IsFunction(words, y);
      } else {
        var x, y := KeptPair(words, used, k, j);
        assert IsFunction(words, x);
      }
    }
  }

  predicate NoReference(k: Kind) {
    match k
    case Plain(CallSymbol(_)) => false
    case Plain(PushSymbol(_)) => false
    case _ => true
  }

  lemma ReferenceKinds(body: seq<Operation>)
    ensures RefersToNothing(body) <==> BodyKinds(NoReference, body)
  {
    if RefersToNothing(body) {
      forall k | 0 <= k < |body|
        ensures NoReference(body[k].kind)
      {
        assert WordRef(body[k]).None? && StringRef(body[k]).None?;
      }
    }
    if BodyKinds(NoReference, body) {
      forall k | 0 <= k < |body|
        ensures WordRef(body[k]).None? && StringRef(body[k]).None?
      {
        assert NoReference(body[k].kind);
      }
    }
  }

  lemma SweepStaysClosed(pass: Pass, words: Dictionary)
    requires SharersClosed(words)
    ensures SharersClosed(AfterAll(pass, words))
  {
    hide PassResult;
    hide RefersToNothing;
    var words' := AfterAll(pass, words);
    forall j, k | 0 <= j < |words'| && 0 <= k < |words'| && j != k && IsFunction(words', k)
        && words'[j].id == words'[k].id
      ensures RefersToNothing(words'[k].def.body)
    {
      assert IsFunction(words, k) && words[j].id == words[k].id;
      ReferenceKinds(words[k].def.body);
      AfterKeepsKinds(NoReference, pass, words[k].def.body);
      ReferenceKinds(words'[k].def.body);
    }
  }

  lemma StaysClosed(s: Stage, s': Stage)
    requires SharersClosed(s.words) && StageStep(s, s')
    ensures SharersClosed(s'.words)
  {
    hide SharersClosed;
    hide Removes;
    hide AfterAll;
    hide Aborts;
    hide PassResult;
    if Removes(s, s') {
      RemovalStaysClosed(s, s');
    } else if Sweeps(KnownConditions, s, s') {
      SweepStaysClosed(KnownConditions, s.words);
    } else {
      SweepStaysClosed(ConstantFolding, s.words);
    }
  }

  // ----- open conditions -----

  /** No condition is decided, or right rewrites, with nothing to fold before them, leave none that is. */
  ghost predicate OpenBody(body: seq<Operation>) {
    || Undecided(body)
    || (RightPass(body) && FoldBody(body) == FoldOutcome.Unchanged && Undecided(After(KnownConditions, body)))
  }

  ghost predicate OpenStage(s: Stage) {
    && OpenBody(s.main)
    && forall k :: 0 <= k < |s.words| && IsFunction(s.words, k) ==> OpenBody(s.words[k].def.body)
  }

  lemma OpenIsRight(body: seq<Operation>)
    requires OpenBody(body)
    ensures RightPass(body)
  {
    hide Undecided;
    hide RightFrom;
    hide After;
    if Undecided(body) {
      UndecidedIsRight(body, 1);
    }
  }

  lemma OpenStays(pass: Pass, body: seq<Operation>)
    requires OpenBody(body)
    ensures OpenBody(After(pass, body))
  {
    hide Undecided;
    hide RightFrom;
    hide FoldBody;
    if Undecided(body) {
      NothingConstant(body, 1, false);
      if FoldBody(body).Changed? {
        FoldUndecided(body);
      }
    }
  }

  lemma OpenStep(s: Stage, s': Stage)
    requires OpenStage(s) && StageStep(s, s')
    ensures OpenStage(s') && SoundSweep(KnownConditions, s)
  {
    hide OpenBody;
    hide RightPass;
    hide PassResult;
    hide Removes;
    OpenIsRight(s.main);
    forall k | 0 <= k < |s.words| && IsFunction(s.words, k)
      ensures RightPass(s.words[k].def.body)
    {
      OpenIsRight(s.words[k].def.body);
    }
    if Removes(s, s') {
      RemovesMain(s, s');
      forall k | 0 <= k < |s'.words| && IsFunction(s'.words, k)
        ensures OpenBody(s'.words[k].def.body)
      {
        var j := RemovedFrom(s, s', k);
        assert IsFunction(s.words, j);
      }
    } else {
      var pass := if Sweeps(KnownConditions, s, s') then KnownConditions else ConstantFolding;
      OpenStays(pass, s.main);
      forall k | 0 <= k < |s'.words| && IsFunction(s'.words, k)
        ensures OpenBody(s'.words[k].def.body)
      {
        assert IsFunction(s.words, k);
        OpenStays(pass, s.words[k].def.body);
      }
    }
  }

  // ----- faithful folds -----

  ghost predicate FaithfulStep(s: Stage, s': Stage) {
    Sweeps(ConstantFolding, s, s') ==> SoundSweep(ConstantFolding, s)
  }

  ghost predicate FaithfulTrace(trace: seq<Stage>) {
    forall k :: 0 <= k < |trace| - 1 ==> FaithfulStep(trace[k], trace[k + 1])
  }

  lemma FaithfulRest(trace: seq<Stage>)
    requires FaithfulTrace(trace) && |trace| > 1
    ensures FaithfulStep(trace[0], trace[1]) && FaithfulTrace(trace[1..])
  {
    hide FaithfulStep;
    var rest := trace[1..];
    assert FaithfulStep(trace[0], trace[0 + 1]);
    forall k | 0 <= k < |rest| - 1
      ensures FaithfulStep(rest[k], rest[k + 1])
    {
      assert FaithfulStep(trace[k + 1], trace[k + 1 + 1]);
    }
  }

  lemma FaithfulExtends(trace: seq<Stage>)
    requires |trace| > 1 && FaithfulStep(trace[0], trace[1]) && FaithfulTrace(trace[1..])
    ensures FaithfulTrace(trace)
  {
    hide FaithfulStep;
    forall k | 0 <= k < |trace| - 1
      ensures FaithfulStep(trace[k], trace[k + 1])
    {
      if k > 0 {
        assert FaithfulStep(trace[1..][k - 1], trace[1..][k - 1 + 1]);
      }
    }
  }

  lemma SignBlindStep(s: Stage, s': Stage)
    requires AllKinds(SignBlind, s) && StageStep(s, s')
    ensures FaithfulStep(s, s') && AllKinds(SignBlind, s')
  {
    hide StageStep;
    hide FaithfulBody;
    hide BodyKinds;
    StepKeepsKinds(SignBlind, s, s');
    SignBlindFaithfulBody(s.main);
    forall k | 0 <= k < |s.words| && IsFunction(s.words, k)
      ensures FaithfulBody(s.words[k].def.body)
    {
      SignBlindFaithfulBody(s.words[k].def.body);
    }
  }

  lemma SignBlindFaithfulBody(body: seq<Operation>)
    requires BodyKinds(SignBlind, body)
    ensures FaithfulBody(body)
  {
    hide FaithfulBody;
    SignBlindRound(body);
  }

  /** Without division, ordered comparison, min and max every fold of every run is faithful. */
  lemma {:induction false} SignBlindRun(trace: seq<Stage>)
    requires IsTrace(trace) && AllKinds(SignBlind, trace[0])
    ensures FaithfulTrace(trace)
    decreases |trace|
  {
    hide StageStep;
    hide FaithfulStep;
    hide AllKinds;
    if |trace| > 1 {
      TraceRest(trace);
      SignBlindStep(trace[0], trace[1]);
      SignBlindRun(trace[1..]);
      FaithfulExtends(trace);
    }
  }

  // ----- whole runs -----

  lemma CheckedStep(s: Stage, s': Stage)
    requires StageStep(s, s') && OpenStage(s) && SharersClosed(s.words) && FaithfulStep(s, s')
    ensures SoundStep(s, s') && ClearStep(s, s') && OpenStage(s') && SharersClosed(s'.words)
  {
    hide OpenStage;
    hide SharersClosed;
    hide SoundSweep;
    hide Removes;
    hide Sweeps;
    hide NothingMissed;
    hide NoStringMissed;
    OpenStep(s, s');
    StaysClosed(s, s');
    ClosedMissesNothing(s.words, s.main);
  }

  lemma SoundExtends(trace: seq<Stage>)
    requires |trace| > 1 && SoundStep(trace[0], trace[1]) && SoundTrace(trace[1..])
    requires ClearStep(trace[0], trace[1]) && ClearTrace(trace[1..])
    ensures SoundTrace(trace) && ClearTrace(trace)
  {
    hide SoundStep;
    hide ClearStep;
    forall k | 0 <= k < |trace| - 1
      ensures SoundStep(trace[k], trace[k + 1]) && ClearStep(trace[k], trace[k + 1])
    {
      if k > 0 {
        assert SoundStep(trace[1..][k - 1], trace[1..][k - 1 + 1]);
        assert ClearStep(trace[1..][k - 1], trace[1..][k - 1 + 1]);
      }
    }
  }

  /** Every run from a program with open conditions and closed sharers is sound, if it folds faithfully. */
  lemma {:induction false} CheckedRun(trace: seq<Stage>)
    requires IsTrace(trace) && OpenStage(trace[0]) && SharersClosed(trace[0].words) && FaithfulTrace(trace)
    ensures SoundTrace(trace) && ClearTrace(trace)
    decreases |trace|
  {
    hide StageStep;
    hide FaithfulStep;
    hide OpenStage;
    hide SharersClosed;
    hide SoundStep;
    hide ClearStep;
    if |trace| > 1 {
      TraceRest(trace);
      FaithfulRest(trace);
      CheckedStep(trace[0], trace[1]);
      CheckedRun(trace[1..]);
      SoundExtends(trace);
    }
  }

  // ----- signs -----

  /** Literals alone never reach a word on which the sign of the operands matters. */
  predicate SignsOpen(body: seq<Operation>) {
    forall t :: 0 <= t < |body| && !SignBlind(body[t].kind) ==> Landing(body, t)
  }

  lemma SignsFaithful(body: seq<Operation>)
    requires SignsOpen(body)
    ensures FaithfulBody(body)
  {
    hide Splice;
    hide FoldRun;
    hide Landing;
    hide SignBlind;
    if FoldBody(body).Changed? {
      ScanFindsRun(body, 0, None, []);
      var r := ScanFrom(body, 0, None, []);
      var run := body[r.start..r.end];
      forall k | 0 <= k < |run|
        ensures SignBlind(run[k].kind)
      {
        if !SignBlind(body[r.start + k].kind) {
          LandingOutside(body, r.start, r.end, r.stack, r.start + k);
          LiteralBlind(body[r.start]);
        }
      }
      SignBlindFaithful(run);
    }
  }

  lemma LiteralBlind(op: Operation)
    requires IsPushInt(op)
    ensures SignBlind(op.kind)
  {
  }

  lemma SignsStayOpen(body: seq<Operation>)
    requires SignsOpen(body) && FoldBody(body).Changed?
    ensures SignsOpen(FoldBody(body).body)
  {
    hide Splice;
    hide FoldRun;
    hide Landing;
    hide SignBlind;
    ScanFindsRun(body, 0, None, []);
    var s := ScanFrom(body, 0, None, []);
    var a, b, st := s.start, s.end, s.stack;
    var r, delta := Splice(body, a, b, st), |st| - (b - a);
    NewPushes(body, a, b, st);
    forall j | 0 <= j < |r| && !SignBlind(r[j].kind)
      ensures Landing(r, j)
    {
      if a <= j < a + |st| {
        SplicePush(body, a, b, st, j - a);
        LiteralBlind(r[j]);
      } else {
        var k := if j < a then j else j - delta;
        SpliceAt(body, a, b, st, k);
        LandingMoves(body, a, b, st, k);
      }
    }
  }

  /** Open conditions, and signs open before any fold and after any rewrite. */
  ghost predicate CalmBody(body: seq<Operation>) {
    && OpenBody(body) && SignsOpen(After(KnownConditions, body))
    && (SignsOpen(body) || FoldBody(body) == FoldOutcome.Unchanged)
  }

  ghost predicate CalmStage(s: Stage) {
    && CalmBody(s.main)
    && forall k :: 0 <= k < |s.words| && IsFunction(s.words, k) ==> CalmBody(s.words[k].def.body)
  }

  /** For an undecided body that is all: no literals reach a sign. */
  lemma UndecidedCalm(body: seq<Operation>)
    requires Undecided(body)
    ensures After(KnownConditions, body) == body && (CalmBody(body) <==> SignsOpen(body))
  {
    hide Undecided;
    hide SignsOpen;
    hide FoldBody;
    NothingConstant(body, 1, false);
  }

  lemma CalmFaithful(body: seq<Operation>)
    requires CalmBody(body)
    ensures FaithfulBody(body)
  {
    hide OpenBody;
    hide After;
    if SignsOpen(body) {
      SignsFaithful(body);
    }
  }

  lemma CalmStays(pass: Pass, body: seq<Operation>)
    requires CalmBody(body)
    ensures CalmBody(After(pass, body))
  {
    hide Undecided;
    hide RightPass;
    hide SignsOpen;
    hide FoldBody;
    if Undecided(body) {
      UndecidedCalm(body);
      if FoldBody(body).Changed? {
        FoldUndecided(body);
        SignsStayOpen(body);
        UndecidedCalm(FoldBody(body).body);
      }
    } else if pass == KnownConditions {
      UndecidedCalm(After(pass, body));
    }
  }

  lemma CalmStep(s: Stage, s': Stage)
    requires CalmStage(s) && StageStep(s, s')
    ensures CalmStage(s') && FaithfulStep(s, s')
  {
    hide CalmBody;
    hide FaithfulBody;
    hide PassResult;
    hide Removes;
    CalmFaithful(s.main);
    forall k | 0 <= k < |s.words| && IsFunction(s.words, k)
      ensures FaithfulBody(s.words[k].def.body)
    {
      CalmFaithful(s.words[k].def.body);
    }
    if Removes(s, s') {
      RemovesMain(s, s');
      forall k | 0 <= k < |s'.words| && IsFunction(s'.words, k)
        ensures CalmBody(s'.words[k].def.body)
      {
        var j := RemovedFrom(s, s', k);
        assert IsFunction(s.words, j);
      }
    } else {
      var pass := if Sweeps(KnownConditions, s, s') then KnownConditions else ConstantFolding;
      CalmStays(pass, s.main);
      forall k | 0 <= k < |s'.words| && IsFunction(s'.words, k)
        ensures CalmBody(s'.words[k].def.body)
      {
        assert IsFunction(s.words, k);
        CalmStays(pass, s.words[k].def.body);
      }
    }
  }

  lemma {:induction false} CalmFolds(trace: seq<Stage>)
    requires IsTrace(trace) && CalmStage(trace[0])
    ensures FaithfulTrace(trace)
    decreases |trace|
  {
    hide StageStep;
    hide FaithfulStep;
    hide CalmStage;
    if |trace| > 1 {
      TraceRest(trace);
      CalmStep(trace[0], trace[1]);
      CalmFolds(trace[1..]);
      FaithfulExtends(trace);
    }
  }

  lemma CalmIsOpen(s: Stage)
    requires CalmStage(s)
    ensures OpenStage(s)
  {
    hide OpenBody;
    hide SignsOpen;
    assert CalmBody(s.main);
    forall k | 0 <= k < |s.words| && IsFunction(s.words, k)
      ensures OpenBody(s.words[k].def.body)
    {
      assert CalmBody(s.words[k].def.body);
    }
  }

  /** Every run whatever from a calm program with closed sharers is sound: all of it is checked before the run. */
  lemma CalmRun(trace: seq<Stage>)
    requires IsTrace(trace) && CalmStage(trace[0]) && SharersClosed(trace[0].words)
    ensures SoundTrace(trace) && ClearTrace(trace)
  {
    hide CalmStage;
    hide OpenStage;
    hide SharersClosed;
    hide StageStep;
    hide FaithfulTrace;
    CalmIsOpen(trace[0]);
    CalmFolds(trace);
    CheckedRun(trace);
  }
}
