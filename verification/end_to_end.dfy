/**
 The compiler from any tokens: what registers and reads is well-nested source, and the code generated for it does what
 that source means.
 */
module EndToEnd {
  import opened Wrappers
  import opened Words
  import opened Operations
  import opened Machine
  import opened Structured
  import opened Parsing
  import opened RecoveredSource
  import opened SourceMeaning
  import opened Registration
  import opened FrontEnd
  import opened Pipeline
  import opened Optimizer
  import opened Processor
  import opened CodegenCorrectness
  import F = ForwardTranslation
  import C = Crossreferencing

  // ----- no function defined twice -----

  /** No two definitions of one function. */
  ghost predicate Once(ts: seq<Token>) {
    forall j: nat, k: nat, key :: DefinesAt(ts, j, key) && DefinesAt(ts, k, key) ==> j == k
  }

  lemma OnceFront(a: seq<Token>, b: seq<Token>)
    requires Once(a + b)
    ensures Once(a)
  {
    forall j: nat, k: nat, key | DefinesAt(a, j, key) && DefinesAt(a, k, key)
      ensures j == k
    {
      assert DefinesAt(a + b, j, key) && DefinesAt(a + b, k, key);
    }
  }

  lemma OnceBack(a: seq<Token>, b: seq<Token>)
    requires Once(a + b)
    ensures Once(b)
  {
    forall j: nat, k: nat, key | DefinesAt(b, j, key) && DefinesAt(b, k, key)
      ensures j == k
    {
      assert DefinesAt(a + b, |a| + j, key) && DefinesAt(a + b, |a| + k, key);
    }
  }

  lemma OnceApart(a: seq<Token>, b: seq<Token>, key: Key)
    requires Once(a + b) && Occurs(a, key)
    ensures !Occurs(b, key)
  {
    if Occurs(b, key) {
      var j: nat :| j < |a| && DefinesAt(a, j, key);
      var k: nat :| k < |b| && DefinesAt(b, k, key);
      assert DefinesAt(a + b, j, key) && DefinesAt(a + b, |a| + k, key);
    }
  }

  lemma {:induction false} OnceIsDistinct(words: Dictionary, source: F.Source)
    requires Once(F.Print(source))
    ensures F.Distinct(words, source)
    decreases source, 0
  {
    hide Once;
    hide Occurs;
    hide F.Print;
    hide F.FunctionsOf;
    match source
    case Empty =>
    case Then(item, rest) =>
      PrintThen(item, rest);
      OnceFront(F.PrintItem(item), F.Print(rest));
      OnceBack(F.PrintItem(item), F.Print(rest));
      OnceItem(words, item);
      OnceIsDistinct(words, rest);
      ItemTranslates(words, item);
      DefinitionsTranslate(words, rest);
      forall key | key in DefinedIn(item)
        ensures key !in DefinitionsOf(rest)
      {
        ItemOccurs(item, key);
        OnceApart(F.PrintItem(item), F.Print(rest), key);
        if key in DefinitionsOf(rest) {
          DefinitionsOccur(rest, key);
        }
      }
  }

  lemma PrintThen(item: F.Item, rest: F.Source)
    ensures F.Print(F.Then(item, rest)) == F.PrintItem(item) + F.Print(rest)
  {
  }

  lemma {:induction false} OnceItem(words: Dictionary, item: F.Item)
    requires Once(F.PrintItem(item))
    ensures F.ItemDistinct(words, item)
    decreases item, 1
  {
    hide Once;
    hide Occurs;
    match item
    case Block(open, inside) =>
      OnceFront([open] + F.Print(inside), [EndToken]);
      OnceBack([open], F.Print(inside));
      OnceIsDistinct(words, inside);
    case Fun(key, h, body) =>
      var inner := F.PrintHeader(h) + F.Print(body);
      OnceFront(F.Opening(key) + inner, [EndToken]);
      OnceBack(F.Opening(key), inner);
      OnceBack(F.PrintHeader(h), F.Print(body));
      OnceIsDistinct(words, body);
      DefinitionsTranslate(words, body);
      if key in DefinitionsOf(body) {
        OpeningOccurs(key);
        OnceApart(F.Opening(key), inner, key);
        DefinitionsOccur(body, key);
        OccursConcat(F.PrintHeader(h), F.Print(body), key);
      }
    case _ =>
  }

  /** No name is given to two functions. */
  ghost predicate NamesOnce(ts: seq<Token>) {
    forall j, k :: 0 < j < k < |ts| && ts[j].FunctionToken? && ts[k].FunctionToken? ==> ts[j-1] != ts[k-1]
  }

  /** Anonymous functions are numbered apart. */
  lemma DefinedTwice(r: Registry, j: nat, k: nat, key: Key)
    requires Kept(r, |r.tokens|) && NamesOnce(r.tokens) && j < k
    ensures !DefinesAt(r.tokens, j, key) || !DefinesAt(r.tokens, k, key)
  {
    hide Apart;
    hide DefinedBefore;
    hide Enlisted;
  }

  lemma RegisteredOnce(r: Registry)
    requires Kept(r, |r.tokens|) && NamesOnce(r.tokens)
    ensures Once(r.tokens)
  {
    hide Kept;
    hide NamesOnce;
    forall j: nat, k: nat, key | DefinesAt(r.tokens, j, key) && DefinesAt(r.tokens, k, key)
      ensures j == k
    {
      if j < k {
        DefinedTwice(r, j, k, key);
      } else if k < j {
        DefinedTwice(r, k, j, key);
      }
    }
  }

  // ----- what crossreferences is balanced -----

  lemma {:induction false} BlockBalanced(b: Block)
    ensures Surplus(Flatten(b)) == 0
  {
    hide Surplus;
    match b
    case Nil => NoSurplus();
    case Seq(s, rest) =>
      StmtBalanced(s);
      BlockBalanced(rest);
      SurplusConcat(FlattenStmt(s), Flatten(rest));
  }

  lemma SurplusWrap(open: Kind, a: seq<Kind>)
    requires open == If || open == While
    ensures Surplus([open] + a + [End]) == Surplus(a)
  {
    hide Surplus;
    SurplusOne(open);
    SurplusConcat([open], a);
    SurplusSnoc([open] + a, End);
  }

  lemma SurplusParts(a: seq<Kind>, k: Kind, b: seq<Kind>)
    requires k == Else || k == Do
    ensures Surplus(a + [k] + b) == Surplus(a) + Surplus(b)
  {
    hide Surplus;
    SurplusSnoc(a, k);
    SurplusConcat(a + [k], b);
  }

  lemma {:induction false} StmtBalanced(s: Stmt)
    ensures Surplus(FlattenStmt(s)) == 0
  {
    hide Surplus;
    hide Flatten;
    match s
    case Simple(p) => SurplusOne(Plain(p));
    case IfThen(t) =>
      BlockBalanced(t);
      SurplusWrap(If, Flatten(t));
    case IfElse(t, e) =>
      BlockBalanced(t);
      BlockBalanced(e);
      SurplusParts(Flatten(t), Else, Flatten(e));
      SurplusWrap(If, Flatten(t) + [Else] + Flatten(e));
      assert FlattenStmt(s) == [If] + (Flatten(t) + [Else] + Flatten(e)) + [End];
    case Loop(c, b) =>
      BlockBalanced(c);
      BlockBalanced(b);
      SurplusParts(Flatten(c), Do, Flatten(b));
      SurplusWrap(While, Flatten(c) + [Do] + Flatten(b));
      assert FlattenStmt(s) == [While] + (Flatten(c) + [Do] + Flatten(b)) + [End];
  }

  lemma AcceptedBalanced(kinds: seq<Kind>)
    requires C.ParseFlaw(kinds) == None
    ensures Surplus(kinds) == 0
  {
    hide Surplus;
    hide Flatten;
    C.AcceptedExactlyBlocks(kinds);
    var b :| Flatten(b) == kinds;
    BlockBalanced(b);
  }

  // ----- registered and read -----

  /** `register_definitions` from the intrinsics on. */
  ghost predicate Registered(intrinsics: Dictionary, ts: seq<Token>, r: Registry) {
    && OnlyIntrinsics(intrinsics) && RegisterFrom(Registry(intrinsics, 0, 0, ts), 0) == Some(r)
    && forall key :: key in intrinsics && intrinsics[key].kind.intrinsic.Syscall? ==>
         intrinsics[key].kind.intrinsic.count <= 6
  }

  /** The program that reading the registered tokens and crossreferencing the bodies leaves. */
  ghost predicate ReadAs(r: Registry, q: Program) {
    ParsedAs(r.words, Backward(r.words, Global, r.tokens, Progress([], map[], false, None)), q)
  }

  /** Whatever registers, reads and crossreferences is the print of well-formed source. */
  lemma AcceptedTokens(r: Registry, q: Program) returns (source: F.Source)
    requires Kept(r, |r.tokens|) && ReadAs(r, q)
    ensures r.tokens == F.Print(source) && F.Formed(r.words, Global, source)
  {
    hide Kept;
    hide Backward;
    hide Surplus;
    RegisteredShaped(r);
    AcceptedBalanced(Backward(r.words, Global, r.tokens, Progress([], map[], false, None)).progress.body);
    source := AcceptedIsSource(r.words, r.tokens);
  }

  lemma {:induction false} RegistersFrom(first: Dictionary, r: Registry, i: nat)
    requires i <= |r.tokens| && Kept(r, i) && Latest(first, r.words, r.tokens, i) && RegisterFrom(r, i).Some?
    ensures var r' := RegisterFrom(r, i).value; Kept(r', |r'.tokens|) && Latest(first, r'.words, r'.tokens, |r'.tokens|)
    decreases |r.tokens| - i
  {
    hide Kept;
    hide Latest;
    hide RegisterAt;
    if i < |r.tokens| {
      StepKept(r, i);
      LatestStep(first, r, i);
      RegistersFrom(first, RegisterAt(r, i).value, i + 1);
    }
  }

  ghost predicate WordsComplete(words: Dictionary, defs: Definitions) {
    forall key :: key in words ==>
      && (words[key].kind.FunctionWord? ==> key in defs)
      && (words[key].kind.IntrinsicWord? && words[key].kind.intrinsic.Syscall? ==> words[key].kind.intrinsic.count <= 6)
  }

  lemma RegisteredComplete(intrinsics: Dictionary, ts: seq<Token>, r: Registry, source: F.Source)
    requires Registered(intrinsics, ts, r) && r.tokens == F.Print(source) && F.Formed(r.words, Global, source)
    requires Kept(r, |r.tokens|) && Latest(intrinsics, r.words, r.tokens, |r.tokens|)
    ensures WordsComplete(r.words, DefinitionsOf(source))
  {
    hide Kept;
    hide F.Formed;
    hide DefinitionsOf;
    hide RegisterFrom;
    hide LastMade;
    RegisteredSource(r, source);
    forall key | key in r.words && r.words[key].kind.IntrinsicWord?
      ensures key in intrinsics && intrinsics[key] == r.words[key]
    {
      assert LatestFor(intrinsics, r.words, r.tokens, |r.tokens|, key);
    }
  }

  lemma {:induction false} CompleteByWords(words: Dictionary, defs: Definitions, source: F.Source)
    requires WordsComplete(words, defs)
    ensures Complete(words, defs, source)
    decreases source, 0
  {
    match source
    case Empty =>
    case Then(item, rest) =>
      if item.Block? {
        CompleteByWords(words, defs, item.inside);
      }
      CompleteByWords(words, defs, rest);
  }

  /** Registered tokens that read are source as the compiler's theorem takes it. */
  lemma RegisteredReads(intrinsics: Dictionary, ts: seq<Token>, r: Registry, q: Program) returns (source: F.Source)
    requires Registered(intrinsics, ts, r) && NamesOnce(r.tokens) && ReadAs(r, q)
    ensures r.tokens == F.Print(source) && F.Formed(r.words, Global, source) && F.Distinct(r.words, source)
    ensures IdsApart(r.words, DefinitionsOf(source)) && AllComplete(r.words, source)
    ensures ParsedAs(r.words, Reading(r.words, source), q)
  {
    hide Kept;
    hide Latest;
    hide Once;
    hide NamesOnce;
    hide IdsApart;
    hide ParsedAs;
    hide RegisterFrom;
    hide WordsComplete;
    hide DefinitionsOf;
    StartsKept(intrinsics, ts);
    StartsLatest(intrinsics, ts);
    RegistersFrom(intrinsics, Registry(intrinsics, 0, 0, ts), 0);
    source := AcceptedTokens(r, q);
    RegisteredOnce(r);
    OnceIsDistinct(r.words, source);
    RegisteredSource(r, source);
    RegisteredComplete(intrinsics, ts, r, source);
    var defs := DefinitionsOf(source);
    CompleteByWords(r.words, defs, source);
    forall key | key in defs
      ensures Complete(r.words, defs, defs[key])
    {
      CompleteByWords(r.words, defs, defs[key]);
    }
  }

  /**
   The compiler on any tokens. Where they register, read and crossreference, no name is given to two functions and
   every optimizer step is sound, the tokens are source, and the process generated from them exits or stops exactly as
   that source does.
   */
  lemma CompiledTokens(env: Env, layout: Layout, intrinsics: Dictionary, ts: seq<Token>, r: Registry, q: Program,
      trace: seq<Stage>, stack: seq<Word>, world: World, a: Asm, why: Stop, st: seq<Word>, end: World)
    returns (source: F.Source)
    requires Registered(intrinsics, ts, r) && NamesOnce(r.tokens) && ReadAs(r, q) && OptimizerRun(q, trace)
    requires Loaded(env, layout, Optimized(trace), stack, world, a)
    requires TameForever(env, Optimized(trace), Start(stack, world))
    ensures r.tokens == F.Print(source) && AllNested(source) && Generable(Optimized(trace))
    ensures SourceEnds(env, r.words, source, stack, world, Exit, st, end)
       <==> CodeExits(env, layout, GeneratedCode(Optimized(trace)), a, st, end)
    ensures SourceEndsFor(env, r.words, source, stack, world, why, end)
       <==> CodeEnds(env, layout, GeneratedCode(Optimized(trace)), a, why, end)
  {
    hide *;
    source := RegisteredReads(intrinsics, ts, r, q);
    FrontEndExact(r.words, source, q);
    CompilerExact(env, layout, r.words, source, q, trace, stack, world, a, why, st, end);
  }
}
