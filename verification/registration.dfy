/**
 `register_definitions`: one pass over the tokens gives every function, constant and array its word and its id, before
 anything is read. What it leaves: ids that no two words share, every definition known, and no word that calls without
 a definition.
 */
module Registration {
  import opened Wrappers
  import opened Operations
  import opened Parsing
  import opened RecoveredSource
  import opened SourceMeaning
  import F = ForwardTranslation

  /** The words so far, the next id, the next number of an anonymous function, and the tokens. */
  datatype Registry = Registry(words: Dictionary, count: nat, lambdas: nat, tokens: seq<Token>)

  predicate IsInteger(words: Dictionary, t: Token) {
    t.Integer? || (t.Name? && Named(t.name) in words && words[Named(t.name)].kind.IntegerWord?)
  }

  /** A word gets the next id. */
  function Enlist(r: Registry, key: Key, kind: EntryKind): Registry {
    r.(words := r.words[key := Entry(r.count, kind)], count := r.count + 1)
  }

  /** The token at `i`; `None` where the source reports an error. */
  function RegisterAt(r: Registry, i: nat): Option<Registry>
    requires i < |r.tokens|
  {
    var ts := r.tokens;
    match ts[i]
    case FunctionToken => if i >= 1 && ts[i-1].Name? then Some(Enlist(r, Named(ts[i-1].name), FunctionWord)) else None
    case LambdaToken(_) =>
      Some(Enlist(r.(tokens := ts[i := LambdaToken(r.lambdas)], lambdas := r.lambdas + 1), Anonymous(r.lambdas),
                  FunctionWord))
    case ConstantToken =>
      if i >= 2 && ts[i-2].Name? && ts[i-1].Integer?
      then Some(Enlist(r, Named(ts[i-2].name), IntegerWord(ts[i-1].value))) else None
    case ArrayToken =>
      if i >= 2 && ts[i-2].Name? && IsInteger(r.words, ts[i-1])
      then Some(Enlist(r, Named(ts[i-2].name), ArrayWord)) else None
    case _ => Some(r)
  }

  // ----- what holds on the way -----

  predicate Enlisted(words: Dictionary, key: Key) {
    key in words && !words[key].kind.IntrinsicWord?
  }

  /** No two words share an id, intrinsics apart. */
  ghost predicate Apart(words: Dictionary, count: nat) {
    && (forall key :: Enlisted(words, key) ==> words[key].id < count)
    && forall key, other :: Enlisted(words, key) && Enlisted(words, other) && words[key].id == words[other].id ==>
        key == other
  }

  predicate DefinesAt(ts: seq<Token>, j: nat, key: Key) {
    j < |ts| &&
    match key
    case Named(name) => ts[j].FunctionToken? && j >= 1 && ts[j-1] == Name(name)
    case Anonymous(number) => ts[j] == LambdaToken(number)
  }

  ghost predicate DefinedBefore(ts: seq<Token>, i: nat, key: Key) {
    exists j :: 0 <= j < i && DefinesAt(ts, j, key)
  }

  ghost predicate Kept(r: Registry, i: nat) {
    && i <= |r.tokens| && Apart(r.words, r.count)
    && (forall key :: DefinedBefore(r.tokens, i, key) ==> Enlisted(r.words, key))
    && (forall key :: key in r.words && r.words[key].kind.FunctionWord? ==> DefinedBefore(r.tokens, i, key))
    && (forall j :: 0 <= j < i && r.tokens[j].FunctionToken? ==> j >= 1 && r.tokens[j-1].Name?)
    && (forall j :: 0 <= j < i && (r.tokens[j].ArrayToken? || r.tokens[j].ConstantToken?) ==> ShapedAt(r.tokens, j))
    && (forall j :: 0 <= j < i && r.tokens[j].LambdaToken? ==> r.tokens[j].number < r.lambdas)
    && (forall j, k :: 0 <= j < k < i && r.tokens[j].LambdaToken? && r.tokens[k].LambdaToken?
                       ==> r.tokens[j].number < r.tokens[k].number)
    && (forall key :: key in r.words && key.Anonymous? ==> key.number < r.lambdas)
  }

  lemma EnlistApart(r: Registry, key: Key, kind: EntryKind)
    requires Apart(r.words, r.count) && !kind.IntrinsicWord?
    ensures var r' := Enlist(r, key, kind); Apart(r'.words, r'.count)
  {
    var r' := Enlist(r, key, kind);
    forall a, b | Enlisted(r'.words, a) && Enlisted(r'.words, b) && r'.words[a].id == r'.words[b].id
      ensures a == b
    {
      if a != key {
        assert Enlisted(r.words, a);
      }
      if b != key {
        assert Enlisted(r.words, b);
      }
    }
    forall a | Enlisted(r'.words, a)
      ensures r'.words[a].id < r'.count
    {
      if a != key {
        assert Enlisted(r.words, a);
      }
    }
  }

  /** Definitions up to `i + 1` are those up to `i` and what stands at `i`. */
  lemma DefinedNext(ts: seq<Token>, ts': seq<Token>, i: nat, key: Key)
    requires i < |ts| == |ts'| && forall j :: 0 <= j < |ts| && j != i ==> ts'[j] == ts[j]
    ensures DefinedBefore(ts', i + 1, key) <==> DefinedBefore(ts, i, key) || DefinesAt(ts', i, key)
  {
    if DefinedBefore(ts', i + 1, key) {
      var j :| 0 <= j < i + 1 && DefinesAt(ts', j, key);
      if j < i {
        assert DefinesAt(ts, j, key);
      }
    }
    if DefinedBefore(ts, i, key) {
      var j :| 0 <= j < i && DefinesAt(ts, j, key);
      assert DefinesAt(ts', j, key);
    }
  }

  /** The step of a function, ids apart. */
  lemma FunctionKept(r: Registry, i: nat)
    requires i < |r.tokens| && Kept(r, i) && RegisterAt(r, i).Some?
    requires r.tokens[i].LambdaToken? || r.tokens[i].FunctionToken?
    ensures var r' := RegisterAt(r, i).value;
      && (forall key :: DefinedBefore(r'.tokens, i + 1, key) ==> Enlisted(r'.words, key))
      && (forall key :: key in r'.words && r'.words[key].kind.FunctionWord? ==> DefinedBefore(r'.tokens, i + 1, key))
      && (forall j :: 0 <= j < i + 1 && (r'.tokens[j].ArrayToken? || r'.tokens[j].ConstantToken?)
                      ==> ShapedAt(r'.tokens, j))
      && (forall j, k :: 0 <= j < k < i + 1 && r'.tokens[j].LambdaToken? && r'.tokens[k].LambdaToken?
                         ==> r'.tokens[j].number < r'.tokens[k].number)
  {
    hide Apart;
    hide DefinedBefore;
    var r' := RegisterAt(r, i).value;
    var ts, ts' := r.tokens, r'.tokens;
    var own := if ts[i].LambdaToken? then Anonymous(r.lambdas) else Named(ts[i-1].name);
    assert DefinesAt(ts', i, own);
    assert forall j :: 0 <= j < |ts| && j != i ==> ts'[j] == ts[j];
    forall key | DefinedBefore(ts', i + 1, key)
      ensures Enlisted(r'.words, key)
    {
      DefinedNext(ts, ts', i, key);
      if key != own {
        assert !DefinesAt(ts', i, key);
        assert Enlisted(r.words, key);
      }
    }
    forall key | key in r'.words && r'.words[key].kind.FunctionWord?
      ensures DefinedBefore(ts', i + 1, key)
    {
      DefinedNext(ts, ts', i, key);
    }
    forall j | 0 <= j < i + 1 && (ts'[j].ArrayToken? || ts'[j].ConstantToken?)
      ensures ShapedAt(ts', j)
    {
      assert ts'[j] == ts[j] && ShapedAt(ts, j);
    }
  }

  /** The step of an array or a constant. */
  lemma DataKept(r: Registry, i: nat)
    requires i < |r.tokens| && Kept(r, i) && RegisterAt(r, i).Some?
    requires r.tokens[i].ArrayToken? || r.tokens[i].ConstantToken?
    ensures Kept(RegisterAt(r, i).value, i + 1)
  {
    hide Apart;
    hide DefinedBefore;
    var r' := RegisterAt(r, i).value;
    var ts := r.tokens;
    var own := Named(ts[i-2].name);
    EnlistApart(r, own, r'.words[own].kind);
    forall key: Key
      ensures DefinedBefore(ts, i + 1, key) <==> DefinedBefore(ts, i, key)
    {
      DefinedNext(ts, ts, i, key);
      assert !DefinesAt(ts, i, key);
    }
    forall key | DefinedBefore(ts, i, key)
      ensures Enlisted(r'.words, key)
    {
      assert Enlisted(r.words, key);
    }
    assert ShapedAt(ts, i);
  }

  lemma PlainKept(r: Registry, i: nat)
    requires i < |r.tokens| && Kept(r, i)
    requires var t := r.tokens[i]; !t.ArrayToken? && !t.ConstantToken? && !t.LambdaToken? && !t.FunctionToken?
    ensures Kept(r, i + 1)
  {
    hide Apart;
    hide DefinedBefore;
    forall key: Key
      ensures DefinedBefore(r.tokens, i + 1, key) <==> DefinedBefore(r.tokens, i, key)
    {
      DefinedNext(r.tokens, r.tokens, i, key);
      assert !DefinesAt(r.tokens, i, key);
    }
  }

  lemma StepKept(r: Registry, i: nat)
    requires i < |r.tokens| && Kept(r, i) && RegisterAt(r, i).Some?
    ensures Kept(RegisterAt(r, i).value, i + 1) && |RegisterAt(r, i).value.tokens| == |r.tokens|
  {
    hide Apart;
    hide DefinedBefore;
    var ts := r.tokens;
    match ts[i]
    case FunctionToken =>
      EnlistApart(r, Named(ts[i-1].name), FunctionWord);
      FunctionKept(r, i);
    case LambdaToken(_) =>
      EnlistApart(r, Anonymous(r.lambdas), FunctionWord);
      FunctionKept(r, i);
    case ConstantToken => DataKept(r, i);
    case ArrayToken => DataKept(r, i);
    case _ => PlainKept(r, i);
  }

  // ----- the last definition counts -----

  /** The word a token defines, and what kind of word that is. */
  function Made(ts: seq<Token>, j: nat): Option<(Key, EntryKind)> {
    if j >= |ts| then None
    else if ts[j].LambdaToken? then Some((Anonymous(ts[j].number), FunctionWord))
    else if ts[j].FunctionToken? && j > 0 && ts[j-1].Name? then Some((Named(ts[j-1].name), FunctionWord))
    else if ts[j].ConstantToken? && j > 1 && ts[j-2].Name? && ts[j-1].Integer?
    then Some((Named(ts[j-2].name), IntegerWord(ts[j-1].value)))
    else if ts[j].ArrayToken? && j > 1 && ts[j-2].Name? then Some((Named(ts[j-2].name), ArrayWord))
    else None
  }

  predicate MadeAt(ts: seq<Token>, j: nat, key: Key) {
    Made(ts, j).Some? && Made(ts, j).value.0 == key
  }

  /** Among the first `i` tokens this one is the last that defines the word. */
  ghost predicate LastMade(ts: seq<Token>, i: nat, key: Key, j: nat) {
    MadeAt(ts, j, key) && j < i && forall k :: j < k < i ==> !MadeAt(ts, k, key)
  }

  ghost predicate LatestFor(first: Dictionary, words: Dictionary, ts: seq<Token>, i: nat, key: Key) {
    || (key in words && exists j: nat :: LastMade(ts, i, key, j) && Made(ts, j) == Some((key, words[key].kind)))
    || (&& (forall j: nat :: j < i ==> !MadeAt(ts, j, key)) && (key in words <==> key in first)
        && (key in words ==> words[key] == first[key]))
  }

  /** Every word is what its last definition makes it, and the others are what they were. */
  ghost predicate Latest(first: Dictionary, words: Dictionary, ts: seq<Token>, i: nat) {
    forall key :: LatestFor(first, words, ts, i, key)
  }

  lemma LatestStep(first: Dictionary, r: Registry, i: nat)
    requires i < |r.tokens| && Latest(first, r.words, r.tokens, i) && RegisterAt(r, i).Some?
    ensures var r' := RegisterAt(r, i).value; Latest(first, r'.words, r'.tokens, i + 1)
  {
    hide LatestFor;
    var r', next := RegisterAt(r, i).value, i + 1;
    forall key: Key
      ensures LatestFor(first, r'.words, r'.tokens, next, key)
    {
      assert LatestFor(first, r.words, r.tokens, i, key);
      if MadeAt(r'.tokens, i, key) {
        LatestHere(first, r, i, key);
      } else {
        LatestElsewhere(first, r, i, key);
      }
    }
  }

  lemma LatestHere(first: Dictionary, r: Registry, i: nat, key: Key)
    requires i < |r.tokens| && RegisterAt(r, i).Some? && MadeAt(RegisterAt(r, i).value.tokens, i, key)
    ensures var r' := RegisterAt(r, i).value; LatestFor(first, r'.words, r'.tokens, i + 1, key)
  {
    var r' := RegisterAt(r, i).value;
    assert LastMade(r'.tokens, i + 1, key, i);
    assert key in r'.words && r'.words[key].kind == Made(r'.tokens, i).value.1;
  }

  lemma LatestElsewhere(first: Dictionary, r: Registry, i: nat, key: Key)
    requires i < |r.tokens| && RegisterAt(r, i).Some? && !MadeAt(RegisterAt(r, i).value.tokens, i, key)
    requires LatestFor(first, r.words, r.tokens, i, key)
    ensures var r' := RegisterAt(r, i).value; LatestFor(first, r'.words, r'.tokens, i + 1, key)
  {
    hide RegisterAt;
    hide Made;
    var r' := RegisterAt(r, i).value;
    OtherWordsStay(r, i, key);
    forall j: nat | j < i
      ensures Made(r'.tokens, j) == Made(r.tokens, j)
      ensures MadeAt(r'.tokens, j, key) <==> MadeAt(r.tokens, j, key)
    {
      MadeStays(r, i, j);
    }
    if exists j: nat :: j < i && MadeAt(r.tokens, j, key) {
      var j: nat :| LastMade(r.tokens, i, key, j) && Made(r.tokens, j) == Some((key, r.words[key].kind));
      assert LastMade(r'.tokens, i + 1, key, j);
    }
  }

  lemma OtherWordsStay(r: Registry, i: nat, key: Key)
    requires i < |r.tokens| && RegisterAt(r, i).Some? && !MadeAt(RegisterAt(r, i).value.tokens, i, key)
    ensures var r' := RegisterAt(r, i).value;
      (key in r'.words <==> key in r.words) && (key in r.words ==> r'.words[key] == r.words[key])
  {
  }

  lemma MadeStays(r: Registry, i: nat, j: nat)
    requires i < |r.tokens| && RegisterAt(r, i).Some? && j < i
    ensures Made(RegisterAt(r, i).value.tokens, j) == Made(r.tokens, j)
  {
    OthersStay(r, i);
  }

  // ----- the pass -----

  ghost predicate OnlyIntrinsics(words: Dictionary) {
    forall key :: key in words ==> key.Named? && words[key].kind.IntrinsicWord?
  }

  lemma StartsKept(words: Dictionary, ts: seq<Token>)
    requires OnlyIntrinsics(words)
    ensures Kept(Registry(words, 0, 0, ts), 0)
  {
  }

  lemma StartsLatest(words: Dictionary, ts: seq<Token>)
    ensures Latest(words, words, ts, 0)
  {
  }

  function RegisterFrom(r: Registry, i: nat): Option<Registry>
    requires i <= |r.tokens|
    decreases |r.tokens| - i
  {
    if i == |r.tokens| then Some(r)
    else
      match RegisterAt(r, i)
      case None => None
      case Some(next) => RegisterFrom(next, i + 1)
  }

  /** `register_definitions` on the tokens of a program and the intrinsics. */
  method RegisterDefinitions(words: Dictionary, ts: seq<Token>) returns (r: Option<Registry>)
    requires OnlyIntrinsics(words)
    ensures r == RegisterFrom(Registry(words, 0, 0, ts), 0)
    ensures r.Some? ==> |r.value.tokens| == |ts| && Kept(r.value, |ts|)
    ensures r.Some? ==> Latest(words, r.value.words, r.value.tokens, |ts|)
    ensures r.Some? ==> forall j :: 0 <= j < |ts| && !ts[j].LambdaToken? ==> r.value.tokens[j] == ts[j]
  {
    hide Kept;
    hide Latest;
    hide RegisterAt;
    var q := Registry(words, 0, 0, ts);
    StartsKept(words, ts);
    StartsLatest(words, ts);
    for i := 0 to |ts|
      invariant |q.tokens| == |ts| && Kept(q, i) && Latest(words, q.words, q.tokens, i)
      invariant RegisterFrom(q, i) == RegisterFrom(Registry(words, 0, 0, ts), 0)
      invariant forall j :: 0 <= j < |ts| && !ts[j].LambdaToken? ==> q.tokens[j] == ts[j]
      invariant forall j :: i <= j < |ts| ==> q.tokens[j] == ts[j]
    {
      var next := RegisterAt(q, i);
      if next.None? {
        return None;
      }
      StepKept(q, i);
      LatestStep(words, q, i);
      OthersStay(q, i);
      q := next.value;
    }
    r := Some(q);
  }

  lemma OthersStay(r: Registry, i: nat)
    requires i < |r.tokens| && RegisterAt(r, i).Some?
    ensures var ts' := RegisterAt(r, i).value.tokens;
      |ts'| == |r.tokens| && (forall j :: 0 <= j < |ts'| && j != i ==> ts'[j] == r.tokens[j])
      && (!r.tokens[i].LambdaToken? ==> ts'[i] == r.tokens[i])
  {
  }

  // ----- what it leaves -----

  /** The tokens of definitions are as reading takes them to be. */
  lemma RegisteredShaped(r: Registry)
    requires Kept(r, |r.tokens|)
    ensures Shaped(r.tokens)
  {
    hide Apart;
    hide DefinedBefore;
  }

  // ----- definitions in printed source -----

  predicate OpenerAt(ts: seq<Token>, j: nat, defs: Definitions)
    requires j < |ts|
  {
    && (ts[j].FunctionToken? ==> j > 0 && ts[j-1].Name? && Named(ts[j-1].name) in defs)
    && (ts[j].LambdaToken? ==> Anonymous(ts[j].number) in defs)
  }

  /** Every opener of a function in the tokens belongs to one of these. */
  ghost predicate OpenersOf(ts: seq<Token>, defs: Definitions) {
    forall j :: 0 <= j < |ts| ==> OpenerAt(ts, j, defs)
  }

  lemma OpenersConcat(a: seq<Token>, b: seq<Token>, defs: Definitions)
    requires OpenersOf(a, defs) && OpenersOf(b, defs)
    ensures OpenersOf(a + b, defs)
  {
    var all := a + b;
    forall j | 0 <= j < |all|
      ensures OpenerAt(all, j, defs)
    {
      if j < |a| {
        assert OpenerAt(a, j, defs) && all[j] == a[j];
      } else {
        assert OpenerAt(b, j - |a|, defs) && all[j] == b[j - |a|];
      }
    }
  }

  lemma FlatOpeners(ts: seq<Token>, defs: Definitions)
    requires forall j :: 0 <= j < |ts| ==> !Opens(ts[j])
    ensures OpenersOf(ts, defs)
  {
  }

  lemma OpeningOpeners(key: Key, defs: Definitions)
    requires key in defs
    ensures OpenersOf(F.Opening(key), defs)
  {
  }

  lemma {:induction false} PrintedOpeners(words: Dictionary, level: Level, source: F.Source, defs: Definitions)
    requires F.Formed(words, level, source) && DefinitionsOf(source).Keys <= defs.Keys
    ensures OpenersOf(F.Print(source), defs)
    decreases source, 0
  {
    hide OpenersOf;
    match source
    case Empty => FlatOpeners([], defs);
    case Then(item, rest) =>
      assert DefinedIn(item).Keys <= DefinitionsOf(source).Keys
          && DefinitionsOf(rest).Keys <= DefinitionsOf(source).Keys;
      ItemOpeners(words, level, item, defs);
      PrintedOpeners(words, level, rest, defs);
      OpenersConcat(F.PrintItem(item), F.Print(rest), defs);
  }

  lemma {:induction false} ItemOpeners(words: Dictionary, level: Level, item: F.Item, defs: Definitions)
    requires F.ItemFormed(words, level, item) && DefinedIn(item).Keys <= defs.Keys
    ensures OpenersOf(F.PrintItem(item), defs)
    decreases item, 1
  {
    hide OpenersOf;
    match item
    case Leaf(t) =>
      F.WordTranslates(words, t);
      FlatOpeners([t], defs);
    case Block(open, inside) =>
      BranchOpeners(open, defs);
      PrintedOpeners(words, level, inside, defs);
      FlatOpeners([EndToken], defs);
      OpenersConcat([open], F.Print(inside), defs);
      OpenersConcat([open] + F.Print(inside), [EndToken], defs);
    case Fun(key, h, body) =>
      assert key in defs && DefinitionsOf(body).Keys <= defs.Keys;
      OpeningOpeners(key, defs);
      F.HeaderFlat(h);
      FlatOpeners(F.PrintHeader(h), defs);
      PrintedOpeners(words, Inside, body, defs);
      FlatOpeners([EndToken], defs);
      OpenersConcat(F.PrintHeader(h), F.Print(body), defs);
      OpenersConcat(F.Opening(key), F.PrintHeader(h) + F.Print(body), defs);
      OpenersConcat(F.Opening(key) + (F.PrintHeader(h) + F.Print(body)), [EndToken], defs);
    case Define(name, size, what) => FlatOpeners([Name(name), size, what], defs);
  }

  lemma BranchOpeners(open: Token, defs: Definitions)
    requires open == IfToken || open == WhileToken
    ensures OpenersOf([open], defs)
  {
  }

  ghost predicate Occurs(ts: seq<Token>, key: Key) {
    exists j :: 0 <= j < |ts| && DefinesAt(ts, j, key)
  }

  lemma OccursConcat(a: seq<Token>, b: seq<Token>, key: Key)
    requires Occurs(a, key) || Occurs(b, key)
    ensures Occurs(a + b, key)
  {
    if Occurs(a, key) {
      var j :| 0 <= j < |a| && DefinesAt(a, j, key);
      assert DefinesAt(a + b, j, key);
    } else {
      var j :| 0 <= j < |b| && DefinesAt(b, j, key);
      assert DefinesAt(a + b, |a| + j, key);
    }
  }

  lemma {:induction false} DefinitionsOccur(source: F.Source, key: Key)
    requires key in DefinitionsOf(source)
    ensures Occurs(F.Print(source), key)
    decreases source, 0
  {
    hide Occurs;
    match source
    case Then(item, rest) =>
      if key in DefinedIn(item) {
        ItemOccurs(item, key);
      } else {
        DefinitionsOccur(rest, key);
      }
      OccursConcat(F.PrintItem(item), F.Print(rest), key);
  }

  lemma {:induction false} ItemOccurs(item: F.Item, key: Key)
    requires key in DefinedIn(item)
    ensures Occurs(F.PrintItem(item), key)
    decreases item, 1
  {
    hide Occurs;
    match item
    case Block(open, inside) =>
      DefinitionsOccur(inside, key);
      OccursConcat([open], F.Print(inside), key);
      OccursConcat([open] + F.Print(inside), [EndToken], key);
    case Fun(own, h, body) =>
      var inner := F.PrintHeader(h) + F.Print(body);
      if key == own {
        OpeningOccurs(key);
      } else {
        DefinitionsOccur(body, key);
        OccursConcat(F.PrintHeader(h), F.Print(body), key);
      }
      OccursConcat(F.Opening(own), inner, key);
      OccursConcat(F.Opening(own) + inner, [EndToken], key);
  }

  lemma OpeningOccurs(key: Key)
    ensures Occurs(F.Opening(key), key)
  {
    assert DefinesAt(F.Opening(key), |F.Opening(key)| - 1, key);
  }

  /** A program read from registered tokens: ids are apart, and every word that calls has its definition. */
  lemma RegisteredSource(r: Registry, source: F.Source)
    requires Kept(r, |r.tokens|) && r.tokens == F.Print(source) && F.Formed(r.words, Global, source)
    ensures IdsApart(r.words, DefinitionsOf(source))
    ensures forall key :: key in r.words && r.words[key].kind.FunctionWord? ==> key in DefinitionsOf(source)
  {
    hide Shaped;
    hide F.Print;
    hide F.Formed;
    hide DefinitionsOf;
    var defs := DefinitionsOf(source);
    forall key | key in defs
      ensures Enlisted(r.words, key)
    {
      DefinitionsOccur(source, key);
      assert DefinedBefore(r.tokens, |r.tokens|, key);
    }
    PrintedOpeners(r.words, Global, source, defs);
    forall key | key in r.words && r.words[key].kind.FunctionWord?
      ensures key in defs
    {
      assert DefinedBefore(r.tokens, |r.tokens|, key);
      var j :| 0 <= j < |r.tokens| && DefinesAt(r.tokens, j, key);
      assert OpenerAt(r.tokens, j, defs);
    }
    forall key, other | key in defs && key in r.words && other in r.words && r.words[other].id == r.words[key].id
      ensures other in defs || r.words[other].kind.FunctionWord? ==> other == key
    {
      assert Enlisted(r.words, key);
      if other in defs || r.words[other].kind.FunctionWord? {
        assert Enlisted(r.words, other);
      }
    }
  }
}
