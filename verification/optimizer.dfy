/** `optimizer::optimize`: the passes over a whole program, repeated until none of them changes anything. */
module Optimizer {
  import opened Wrappers
  import opened Operations
  import opened UnusedWords
  import Folding
  import opened FoldCorrectness
  import Conditions

  // ----- passes over one body -----

  datatype Pass = KnownConditions | ConstantFolding

  /** `Aborted`: the compiler crashes, or erases outside the body. */
  datatype PassOutcome = Same | Rewritten(body: seq<Operation>) | Aborted

  function PassResult(pass: Pass, body: seq<Operation>): PassOutcome {
    match pass
    case KnownConditions =>
      (match Conditions.ConditionsBody(body)
       case Unchanged => Same
       case Changed(r) => Rewritten(r)
       case Undefined => Aborted)
    case ConstantFolding =>
      (match Folding.FoldBody(body)
       case Unchanged => Same
       case Changed(r) => Rewritten(r)
       case Crashed => Aborted)
  }

  method RunPass(pass: Pass, body: seq<Operation>) returns (r: PassOutcome)
    ensures r == PassResult(pass, body)
  {
    match pass {
      case KnownConditions =>
        var o := Conditions.OptimizeConditions(body);
        r := match o case Unchanged => Same case Changed(b) => Rewritten(b) case Undefined => Aborted;
      case ConstantFolding =>
        var o := Folding.ConstantFolding(body);
        r := match o case Unchanged => Same case Changed(b) => Rewritten(b) case Crashed => Aborted;
    }
  }

  function After(pass: Pass, body: seq<Operation>): seq<Operation> {
    match PassResult(pass, body)
    case Rewritten(r) => r
    case _ => body
  }

  function AfterWord(pass: Pass, d: WordDef): WordDef {
    if d.FunctionWord? then FunctionWord(After(pass, d.body)) else d
  }

  predicate RewritesWord(pass: Pass, d: WordDef) {
    d.FunctionWord? && PassResult(pass, d.body).Rewritten?
  }

  predicate AbortsWord(pass: Pass, d: WordDef) {
    d.FunctionWord? && PassResult(pass, d.body).Aborted?
  }

  /** Rewriting strictly lowers (operations that are not literals, length), lexicographically. */
  lemma PassProgresses(pass: Pass, body: seq<Operation>)
    requires PassResult(pass, body).Rewritten?
    ensures var r := After(pass, body);
      && KindsFrom(r, body)
      && (pass == ConstantFolding ==> Work(r) < Work(body))
      && (pass == KnownConditions ==> Work(r) <= Work(body) && |r| < |body|)
  {
    match pass
    case KnownConditions => Conditions.ConditionsProgress(body);
    case ConstantFolding =>
      FoldingProgresses(body);
      FoldingKeepsKinds(body);
  }

  lemma AfterKinds(pass: Pass, body: seq<Operation>)
    ensures KindsFrom(After(pass, body), body)
  {
    if PassResult(pass, body).Rewritten? {
      PassProgresses(pass, body);
    } else {
      forall k | 0 <= k < |body|
        ensures HasKind(body, body[k].kind)
      {
      }
    }
  }

  // ----- totals over all functions -----

  function WordWork(d: WordDef): nat {
    if d.FunctionWord? then Work(d.body) else 0
  }

  function WordSize(d: WordDef): nat {
    if d.FunctionWord? then |d.body| else 0
  }

  /** Sum of a measure over all words. */
  function Total(words: Dictionary, f: WordDef -> nat): nat {
    if words == [] then 0 else Total(words[..|words|-1], f) + f(words[|words|-1].def)
  }

  function TotalWork(main: seq<Operation>, words: Dictionary): nat {
    Work(main) + Total(words, WordWork)
  }

  function TotalSize(main: seq<Operation>, words: Dictionary): nat {
    |main| + Total(words, WordSize)
  }

  lemma {:induction false} TotalMonotone(words: Dictionary, words': Dictionary, f: WordDef -> nat)
    requires |words'| == |words| && forall k :: 0 <= k < |words| ==> f(words'[k].def) <= f(words[k].def)
    ensures Total(words', f) <= Total(words, f)
    ensures (exists k :: 0 <= k < |words| && f(words'[k].def) < f(words[k].def)) ==> Total(words', f) < Total(words, f)
    decreases |words|
  {
    if words != [] {
      var n := |words| - 1;
      TotalMonotone(words[..n], words'[..n], f);
      if k :| 0 <= k < |words| && f(words'[k].def) < f(words[k].def) {
        if k < n {
          assert f(words'[..n][k].def) < f(words[..n][k].def);
        }
      }
    }
  }

  function AfterEntry(pass: Pass, e: Entry): Entry {
    e.(def := AfterWord(pass, e.def))
  }

  function AfterAll(pass: Pass, words: Dictionary): (r: Dictionary)
    ensures |r| == |words|
  {
    seq(|words|, k requires 0 <= k < |words| => AfterEntry(pass, words[k]))
  }

  ghost predicate Rewrites(pass: Pass, main: seq<Operation>, words: Dictionary) {
    PassResult(pass, main).Rewritten? || exists k :: 0 <= k < |words| && RewritesWord(pass, words[k].def)
  }

  ghost predicate Aborts(pass: Pass, main: seq<Operation>, words: Dictionary) {
    PassResult(pass, main).Aborted? || exists k :: 0 <= k < |words| && AbortsWord(pass, words[k].def)
  }

  /** The pass leaves this program alone. */
  ghost predicate Settled(pass: Pass, main: seq<Operation>, words: Dictionary) {
    !Rewrites(pass, main, words) && !Aborts(pass, main, words)
  }

  lemma WordProgresses(pass: Pass, d: WordDef)
    ensures WordWork(AfterWord(pass, d)) <= WordWork(d)
    ensures pass == KnownConditions ==> WordSize(AfterWord(pass, d)) <= WordSize(d)
    ensures RewritesWord(pass, d) && pass == ConstantFolding ==> WordWork(AfterWord(pass, d)) < WordWork(d)
    ensures RewritesWord(pass, d) && pass == KnownConditions ==> WordSize(AfterWord(pass, d)) < WordSize(d)
  {
    hide PassResult;
    if RewritesWord(pass, d) {
      PassProgresses(pass, d.body);
    }
  }

  /** One sweep over all functions that changes anything lowers the totals. */
  lemma SweepProgresses(pass: Pass, main: seq<Operation>, words: Dictionary)
    requires Rewrites(pass, main, words)
    ensures var main', words' := After(pass, main), AfterAll(pass, words);
      || TotalWork(main', words') < TotalWork(main, words)
      || (TotalWork(main', words') == TotalWork(main, words) && TotalSize(main', words') < TotalSize(main, words))
  {
    hide PassResult;
    hide Work;
    hide Total;
    var main', words' := After(pass, main), AfterAll(pass, words);
    if PassResult(pass, main).Rewritten? {
      PassProgresses(pass, main);
    }
    forall k | 0 <= k < |words|
      ensures WordWork(words'[k].def) <= WordWork(words[k].def)
      ensures pass == KnownConditions ==> WordSize(words'[k].def) <= WordSize(words[k].def)
      ensures RewritesWord(pass, words[k].def) && pass == ConstantFolding ==>
          WordWork(words'[k].def) < WordWork(words[k].def)
      ensures RewritesWord(pass, words[k].def) && pass == KnownConditions ==>
          WordSize(words'[k].def) < WordSize(words[k].def)
    {
      WordProgresses(pass, words[k].def);
    }
    TotalMonotone(words, words', WordWork);
    if pass == KnownConditions {
      TotalMonotone(words, words', WordSize);
    }
  }

  // ----- references stay known -----

  lemma KindsKeepReferences(r: seq<Operation>, body: seq<Operation>, id: nat)
    requires KindsFrom(r, body) && Refers(r, id)
    ensures Refers(body, id)
  {
    var k :| 0 <= k < |r| && WordRef(r[k]) == Some(id);
    var j :| 0 <= j < |body| && body[j].kind == r[k].kind;
    assert WordRef(body[j]) == Some(id);
  }

  lemma SweepFinds(pass: Pass, words: Dictionary, id: nat)
    ensures Ids(AfterAll(pass, words)) == Ids(words)
    ensures First(AfterAll(pass, words), id) == First(words, id)
    ensures BodyOf(AfterAll(pass, words), id) == []
        || BodyOf(AfterAll(pass, words), id) == After(pass, BodyOf(words, id))
  {
    hide PassResult;
    hide First;
    var words' := AfterAll(pass, words);
    assert forall k :: 0 <= k < |words| ==> words'[k].id == words[k].id;
    SameIds(words, words');
  }

  lemma SameIds(words: Dictionary, words': Dictionary)
    requires |words'| == |words| && forall k :: 0 <= k < |words| ==> words'[k].id == words[k].id
    ensures Ids(words') == Ids(words)
  {
    forall id | id in Ids(words)
      ensures id in Ids(words')
    {
      var k :| 0 <= k < |words| && words[k].id == id;
      assert words'[k].id == id;
    }
  }

  lemma SweepStaysWalkable(pass: Pass, main: seq<Operation>, words: Dictionary)
    requires Walkable(words, main)
    ensures Walkable(AfterAll(pass, words), After(pass, main))
  {
    hide PassResult;
    hide BodyOf;
    hide Ids;
    hide AfterAll;
    var words' := AfterAll(pass, words);
    forall id: nat | Refers(After(pass, main), id)
      ensures id in Ids(words')
    {
      AfterKinds(pass, main);
      KindsKeepReferences(After(pass, main), main, id);
      SweepFinds(pass, words, id);
    }
    forall x: nat, id: nat | Refers(BodyOf(words', x), id)
      ensures id in Ids(words')
    {
      SweepFinds(pass, words, x);
      NoReferences(id);
      AfterKinds(pass, BodyOf(words, x));
      KindsKeepReferences(After(pass, BodyOf(words, x)), BodyOf(words, x), id);
    }
  }

  // ----- the driver -----

  datatype Stage = Stage(main: seq<Operation>, words: Dictionary, strings: Strings)

  ghost predicate Removes(s: Stage, s': Stage) {
    s'.main == s.main && Removed(s.words, s.strings, s.main, s'.words, s'.strings)
  }

  ghost predicate Sweeps(pass: Pass, s: Stage, s': Stage) {
    !Aborts(pass, s.main, s.words) && s' == Stage(After(pass, s.main), AfterAll(pass, s.words), s.strings)
  }

  ghost predicate StageStep(s: Stage, s': Stage) {
    Removes(s, s') || Sweeps(KnownConditions, s, s') || Sweeps(ConstantFolding, s, s')
  }

  /** What the driver does to a program: removals and sweeps, one after the other. */
  ghost predicate IsTrace(trace: seq<Stage>) {
    |trace| > 0 && forall k :: 0 <= k < |trace| - 1 ==> StageStep(trace[k], trace[k + 1])
  }

  lemma TraceExtends(trace: seq<Stage>, s: Stage)
    requires IsTrace(trace) && StageStep(trace[|trace| - 1], s)
    ensures IsTrace(trace + [s])
  {
    hide StageStep;
  }

  class GenerationInfo {
    var main: seq<Operation>
    var words: Dictionary
    var strings: Strings

    constructor (main: seq<Operation>, words: Dictionary, strings: Strings)
      ensures this.main == main && this.words == words && this.strings == strings
    {
      this.main := main;
      this.words := words;
      this.strings := strings;
    }

    method RemoveUnusedWordsAndStrings() returns (changed: bool)
      requires Walkable(words, main)
      modifies this`words, this`strings
      ensures Removed(old(words), old(strings), main, words, strings) && Walkable(words, main)
      ensures changed <==> |words| + |strings| < old(|words| + |strings|)
      ensures !changed ==> words == old(words) && strings == old(strings)
    {
      var words', strings';
      words', strings', changed := RemoveUnused(words, strings, main);
      words, strings := words', strings';
    }

    /** `for_all_functions`: `main` first, then every function; stops at the first abort. */
    method ForAllFunctions(pass: Pass) returns (changed: bool, aborted: bool)
      modifies this`main, this`words
      ensures aborted <==> Aborts(pass, old(main), old(words))
      ensures !aborted ==> main == After(pass, old(main)) && words == AfterAll(pass, old(words))
      ensures !aborted ==> (changed <==> Rewrites(pass, old(main), old(words)))
    {
      hide PassResult;
      changed, aborted := false, false;
      var o := RunPass(pass, main);
      if o.Aborted? {
        return false, true;
      }
      if o.Rewritten? {
        main, changed := o.body, true;
      }
      ghost var before := words;
      for i := 0 to |words|
        invariant |words| == |before|
        invariant main == After(pass, old(main)) && !PassResult(pass, old(main)).Aborted?
        invariant forall k :: i <= k < |before| ==> words[k] == before[k]
        invariant forall k :: 0 <= k < i ==> words[k] == AfterEntry(pass, before[k]) && !AbortsWord(pass, before[k].def)
        invariant changed <==> (PassResult(pass, old(main)).Rewritten? ||
                                 exists k :: 0 <= k < i && RewritesWord(pass, before[k].def))
      {
        if words[i].def.FunctionWord? {
          o := RunPass(pass, words[i].def.body);
          if o.Aborted? {
            assert AbortsWord(pass, before[i].def);
            return false, true;
          }
          if o.Rewritten? {
            assert RewritesWord(pass, before[i].def);
            words, changed := words[i := words[i].(def := FunctionWord(o.body))], true;
          }
        }
      }
    }

    /**
     Repeats the passes until none of them changes anything. It always stops: either aborted, or at a
     fixpoint of all three, reached by removals and sweeps alone.
     */
    method Optimize() returns (aborted: bool, ghost trace: seq<Stage>)
      requires Walkable(words, main)
      modifies this
      ensures !aborted ==> IsTrace(trace) && trace[0] == Stage(old(main), old(words), old(strings))
      ensures !aborted ==> trace[|trace| - 1] == Stage(main, words, strings)
      ensures !aborted ==> Walkable(words, main)
      ensures !aborted ==> Settled(KnownConditions, main, words) && Settled(ConstantFolding, main, words)
      ensures !aborted ==> forall k :: 0 <= k < |words| && Erasable(words[k].def) ==>
          Reachable(words, main, words[k].id)
      ensures !aborted ==> forall s :: s in strings ==> StringFound(words, main, strings[s])
    {
      hide PassResult;
      hide Rewrites;
      hide Aborts;
      hide Walkable;
      hide TotalWork;
      hide TotalSize;
      hide AfterAll;
      hide IsTrace;
      trace := [Stage(main, words, strings)];
      TraceStarts(Stage(main, words, strings));
      while true
        invariant Walkable(words, main)
        invariant IsTrace(trace) && |trace| > 0 && trace[0] == Stage(old(main), old(words), old(strings))
        invariant trace[|trace| - 1] == Stage(main, words, strings)
        decreases |words| + |strings|, TotalWork(main, words), TotalSize(main, words)
      {
        var changed := RemoveUnusedWordsAndStrings();
        TraceExtends(trace, Stage(main, words, strings));
        trace := trace + [Stage(main, words, strings)];
        if changed {
          continue;
        }
        AllReachable(main, words, strings);
        SweepStaysWalkable(KnownConditions, main, words);
        assert Rewrites(KnownConditions, main, words) ==>
          var main', words' := After(KnownConditions, main), AfterAll(KnownConditions, words);
          || TotalWork(main', words') < TotalWork(main, words)
          || (TotalWork(main', words') == TotalWork(main, words)
              && TotalSize(main', words') < TotalSize(main, words)) by {
          if Rewrites(KnownConditions, main, words) {
            SweepProgresses(KnownConditions, main, words);
          }
        }
        ghost var main0, words0 := main, words;
        changed, aborted := ForAllFunctions(KnownConditions);
        if aborted {
          return;
        }
        TraceExtends(trace, Stage(main, words, strings));
        trace := trace + [Stage(main, words, strings)];
        if changed {
          continue;
        }
        UnchangedSweep(KnownConditions, main0, words0);
        SweepStaysWalkable(ConstantFolding, main, words);
        if Rewrites(ConstantFolding, main, words) {
          SweepProgresses(ConstantFolding, main, words);
        }
        changed, aborted := ForAllFunctions(ConstantFolding);
        if aborted {
          return;
        }
        TraceExtends(trace, Stage(main, words, strings));
        trace := trace + [Stage(main, words, strings)];
        if !changed {
          UnchangedSweep(ConstantFolding, main0, words0);
          return;
        }
      }
    }
  }

  lemma TraceStarts(s: Stage)
    ensures IsTrace([s])
  {
  }

  lemma AllReachable(main: seq<Operation>, words: Dictionary, strings: Strings)
    requires Removed(words, strings, main, words, strings)
    ensures forall k :: 0 <= k < |words| && Erasable(words[k].def) ==> Reachable(words, main, words[k].id)
    ensures forall s :: s in strings ==> StringFound(words, main, strings[s])
  {
    hide Reachable;
    hide KeepsExactly;
    hide StringFound;
    forall k | 0 <= k < |words| && Erasable(words[k].def)
      ensures Reachable(words, main, words[k].id)
    {
      KeptEntries(words, main, words, words[k]);
    }
  }

  lemma UnchangedSweep(pass: Pass, main: seq<Operation>, words: Dictionary)
    requires !Rewrites(pass, main, words)
    ensures After(pass, main) == main && AfterAll(pass, words) == words
  {
    forall k | 0 <= k < |words|
      ensures AfterEntry(pass, words[k]) == words[k]
    {
      assert !RewritesWord(pass, words[k].def);
    }
  }
}
