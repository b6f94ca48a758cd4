/** From tokens to linked jump code: reading backwards, splitting out functions and crossreferencing each body. */
module FrontEnd {
  import opened Wrappers
  import opened Words
  import opened Operations
  import opened Machine
  import opened Structured
  import opened Compilation
  import opened FoldCorrectness
  import opened FoldSchedules
  import opened Contexts
  import opened SourceMeaning
  import P = Parsing
  import F = ForwardTranslation
  import C = Crossreferencing
  import T = Types
  import R = TypeRules
  import K = Typechecker

  // ----- linked source -----

  ghost predicate SourceReady(p: StructuredProgram) {
    Main in p && forall f, k :: f in p && 0 <= k < Size(p[f]) ==> KindReady(p.Keys, Flatten(p[f])[k])
  }

  lemma {:induction false} LinkKinds(b: Block, at: nat)
    ensures Kinds(Link(b, at)) == Flatten(b)
  {
    match b
    case Nil =>
    case Seq(s, rest) =>
      hide LinkStmt;
      hide FlattenStmt;
      hide Kinds;
      LinkStmtKinds(s, at);
      LinkKinds(rest, at + StmtSize(s));
      KindsAppend(LinkStmt(s, at), Link(rest, at + StmtSize(s)));
  }

  lemma KindsWrap(x: Operation, a: seq<Operation>, z: Operation)
    ensures Kinds([x] + a + [z]) == [x.kind] + Kinds(a) + [z.kind]
  {
  }

  lemma KindsWrapTwo(x: Operation, a: seq<Operation>, y: Operation, b: seq<Operation>, z: Operation)
    ensures Kinds([x] + a + [y] + b + [z]) == [x.kind] + Kinds(a) + [y.kind] + Kinds(b) + [z.kind]
  {
    KindsWrap(x, a, y);
    KindsAppend([x] + a + [y], b);
  }

  lemma KindsOne(op: Operation)
    ensures Kinds([op]) == [op.kind]
  {
  }

  lemma {:induction false} LinkStmtKinds(s: Stmt, at: nat)
    ensures Kinds(LinkStmt(s, at)) == FlattenStmt(s)
  {
    hide Kinds;
    hide Link;
    hide Flatten;
    match s
    case Simple(q) => KindsOne(Operation(Plain(q), NoJump));
    case IfThen(t) =>
      LinkKinds(t, at + 1);
      KindsWrap(Operation(If, To(at + 1 + Size(t))), Link(t, at + 1), Operation(End, To(at + 2 + Size(t))));
    case IfElse(t, e) =>
      var els := at + 1 + Size(t);
      var end := els + 1 + Size(e);
      LinkKinds(t, at + 1);
      LinkKinds(e, els + 1);
      KindsWrapTwo(Operation(If, To(els + 1)), Link(t, at + 1), Operation(Else, To(end)), Link(e, els + 1),
          Operation(End, To(end + 1)));
    case Loop(c, b) =>
      var do := at + 1 + Size(c);
      var end := do + 1 + Size(b);
      LinkKinds(c, at + 1);
      LinkKinds(b, do + 1);
      KindsWrapTwo(Operation(While, NoJump), Link(c, at + 1), Operation(Do, To(end + 1)), Link(b, do + 1),
          Operation(End, To(at)));
  }

  lemma SourceLinksReady(p: StructuredProgram)
    requires SourceReady(p)
    ensures AllReady(LinkProgram(p))
  {
    hide Link;
    hide Flatten;
    hide Guarded;
    hide KindReady;
    var q := LinkProgram(p);
    forall f | f in q
      ensures Ready(q.Keys, q[f])
    {
      LinkGuarded(p[f]);
      LinkSetsJumps(p[f], 0);
      LinkKinds(p[f], 0);
      forall k | 0 <= k < |q[f]|
        ensures KindReady(q.Keys, q[f][k].kind)
      {
        assert Kinds(q[f])[k] == Flatten(p[f])[k];
      }
    }
  }

  // ----- from tokens -----

  /** What `crossreference` makes of a body it accepts. */
  ghost predicate Linked(kinds: seq<Kind>, ops: seq<Operation>) {
    C.ParseFlaw(kinds) == None && forall b :: Flatten(b) == kinds ==> ops == Link(b, 0)
  }

  ghost function Ids(words: P.Dictionary, functions: P.Functions): set<FunctionRef> {
    set key | key in functions && key in words :: Function(words[key].id)
  }

  /** The program the parser leaves: each body crossreferenced, under the id of its word. */
  ghost predicate ParsedAs(words: P.Dictionary, r: P.Parsed, q: Program) {
    && r.Done? && q.Keys == {Main} + Ids(words, r.progress.functions) && Linked(r.progress.body, q[Main])
    && forall key :: key in r.progress.functions ==>
         && key in words && Function(words[key].id) in q
         && Linked(r.progress.functions[key].body, q[Function(words[key].id)])
  }

  ghost function Reading(words: P.Dictionary, source: F.Source): P.Parsed {
    P.Backward(words, P.Global, F.Print(source), P.Progress([], map[], false, None))
  }

  /** A body that crossreferences comes from nested source, and is linked as its blocks are. */
  lemma BodyLinked(words: P.Dictionary, level: P.Level, source: F.Source, ops: seq<Operation>)
    requires F.Formed(words, level, source) && Linked(F.BodyOf(words, source), ops)
    ensures Nested(source) && ops == Link(Blocks(words, source), 0)
  {
    hide Link;
    hide Flatten;
    hide F.BodyOf;
    hide F.Formed;
    hide C.ParseFlaw;
    hide Nested;
    hide Blocks;
    NestedExactly(words, level, source);
    BlocksSpell(words, level, source);
  }

  /**
   Reading the tokens of well-formed source and crossreferencing the bodies succeeds only on well-nested source, and
   gives the linked blocks of main and of every function.
   */
  lemma {:induction false} FrontEndExact(words: P.Dictionary, source: F.Source, q: Program)
    requires F.Formed(words, P.Global, source) && F.Distinct(words, source)
    requires IdsApart(words, DefinitionsOf(source)) && ParsedAs(words, Reading(words, source), q)
    ensures AllNested(source) && q == LinkProgram(ProgramBlocks(words, source))
  {
    hide Link;
    hide Linked;
    hide F.BodyOf;
    hide F.FunctionsOf;
    hide F.Formed;
    hide DefinitionsOf;
    hide P.Backward;
    hide Nested;
    hide Blocks;
    F.BackwardIsForward(words, source);
    var functions, defs := F.FunctionsOf(words, source), DefinitionsOf(source);
    DefinitionsTranslate(words, source);
    DefinitionsFormed(words, P.Global, source);
    BodyLinked(words, P.Global, source, q[Main]);
    forall key | key in defs
      ensures Nested(defs[key]) && q[Function(words[key].id)] == Link(Blocks(words, defs[key]), 0)
    {
      BodyLinked(words, P.Inside, defs[key], q[Function(words[key].id)]);
    }
    ProgramRepresents(words, source);
    SameProgram(words, source, q);
  }

  lemma SameProgram(words: P.Dictionary, source: F.Source, q: Program)
    requires Represented(words, DefinitionsOf(source), ProgramBlocks(words, source))
    requires q.Keys == {Main} + FunctionIds(words, DefinitionsOf(source)) && q[Main] == Link(Blocks(words, source), 0)
    requires forall key :: key in DefinitionsOf(source) ==>
      && key in words && Function(words[key].id) in q
      && q[Function(words[key].id)] == Link(Blocks(words, DefinitionsOf(source)[key]), 0)
    ensures q == LinkProgram(ProgramBlocks(words, source))
  {
    hide Link;
    hide DefinitionsOf;
    hide Blocks;
    var p := ProgramBlocks(words, source);
    var l := LinkProgram(p);
    forall f | f in q
      ensures l[f] == q[f]
    {
      if f != Main {
        var key :| key in DefinitionsOf(source) && key in words && Function(words[key].id) == f;
        assert p[f] == Blocks(words, DefinitionsOf(source)[key]);
      }
    }
  }

  // ----- complete source -----

  predicate TokenComplete(words: P.Dictionary, defs: Definitions, t: P.Token) {
    t.Name? && P.Named(t.name) in words ==>
      match words[P.Named(t.name)].kind
      case FunctionWord => P.Named(t.name) in defs
      case IntrinsicWord(i) => i.Syscall? ==> i.count <= 6
      case _ => true
  }

  predicate ItemComplete(words: P.Dictionary, defs: Definitions, item: F.Item) {
    match item
    case Leaf(t) => TokenComplete(words, defs, t)
    case Block(_, inside) => Complete(words, defs, inside)
    case _ => true
  }

  /** Whatever is called is defined, and system calls take six arguments at most. */
  predicate Complete(words: P.Dictionary, defs: Definitions, source: F.Source) {
    match source
    case Empty => true
    case Then(item, rest) => ItemComplete(words, defs, item) && Complete(words, defs, rest)
  }

  ghost predicate AllComplete(words: P.Dictionary, source: F.Source) {
    var defs := DefinitionsOf(source);
    Complete(words, defs, source) && forall key :: key in defs ==> Complete(words, defs, defs[key])
  }

  ghost predicate KindsReady(functions: set<FunctionRef>, kinds: seq<Kind>) {
    forall k :: 0 <= k < |kinds| ==> KindReady(functions, kinds[k])
  }

  lemma ReadyConcat(functions: set<FunctionRef>, a: seq<Kind>, b: seq<Kind>)
    requires KindsReady(functions, a) && KindsReady(functions, b)
    ensures KindsReady(functions, a + b)
  {
  }

  lemma {:induction false} CompleteKinds(words: P.Dictionary, level: P.Level, defs: Definitions, source: F.Source,
                                         functions: set<FunctionRef>)
    requires F.Formed(words, level, source) && Complete(words, defs, source)
    requires forall key :: key in defs ==> key in words && Function(words[key].id) in functions
    ensures KindsReady(functions, F.BodyOf(words, source))
    decreases source, 0
  {
    hide KindsReady;
    match source
    case Empty => NothingReady(functions);
    case Then(item, rest) =>
      ItemKinds(words, level, defs, item, functions);
      CompleteKinds(words, level, defs, rest, functions);
      ReadyConcat(functions, F.BodyOfItem(words, item), F.BodyOf(words, rest));
  }

  lemma NothingReady(functions: set<FunctionRef>)
    ensures KindsReady(functions, [])
  {
  }

  lemma OneReady(functions: set<FunctionRef>, k: Kind)
    requires KindReady(functions, k)
    ensures KindsReady(functions, [k])
  {
  }

  lemma {:induction false} ItemKinds(words: P.Dictionary, level: P.Level, defs: Definitions, item: F.Item,
                                     functions: set<FunctionRef>)
    requires F.ItemFormed(words, level, item) && ItemComplete(words, defs, item)
    requires forall key :: key in defs ==> key in words && Function(words[key].id) in functions
    ensures KindsReady(functions, F.BodyOfItem(words, item))
    decreases item, 1
  {
    hide KindsReady;
    NothingReady(functions);
    match item
    case Leaf(t) =>
      F.WordTranslates(words, t);
      OneReady(functions, P.Translate(words, t).value);
    case Block(open, inside) =>
      CompleteKinds(words, level, defs, inside, functions);
      OneReady(functions, P.Translate(words, open).value);
      OneReady(functions, End);
      ReadyConcat(functions, [P.Translate(words, open).value], F.BodyOf(words, inside));
      ReadyConcat(functions, [P.Translate(words, open).value] + F.BodyOf(words, inside), [End]);
    case Fun(key, _, _) =>
      if key.Anonymous? {
        OneReady(functions, Plain(PushSymbol(FunctionSymbol(words[key].id))));
      }
    case Define(_, _, _) =>
  }

  lemma CompleteIsReady(words: P.Dictionary, source: F.Source)
    requires F.Formed(words, P.Global, source) && AllNested(source) && IdsApart(words, DefinitionsOf(source))
    requires AllComplete(words, source)
    ensures SourceReady(ProgramBlocks(words, source))
  {
    hide Blocks;
    hide Flatten;
    hide DefinitionsOf;
    hide Complete;
    hide Nested;
    hide F.Formed;
    hide F.BodyOf;
    hide KindReady;
    var p, defs := ProgramBlocks(words, source), DefinitionsOf(source);
    ProgramRepresents(words, source);
    DefinitionsFormed(words, P.Global, source);
    forall f | f in p
      ensures KindsReady(p.Keys, Flatten(p[f]))
    {
      if f == Main {
        CompleteKinds(words, P.Global, defs, source, p.Keys);
        BlocksSpell(words, P.Global, source);
      } else {
        var key :| key in defs && key in words && Function(words[key].id) == f;
        CompleteKinds(words, P.Inside, defs, defs[key], p.Keys);
        BlocksSpell(words, P.Inside, defs[key]);
      }
    }
  }

  // ----- meaning -----

  /** The source ends, run from its tokens, as the blocks of its program end. */
  lemma SourceIsBlocks(env: Env, words: P.Dictionary, source: F.Source, st: seq<Word>, w: World, why: Stop,
                       st': seq<Word>, w': World)
    requires F.Formed(words, P.Global, source) && AllNested(source) && IdsApart(words, DefinitionsOf(source))
    ensures SourceEnds(env, words, source, st, w, why, st', w')
       <==> Ends(env, ProgramBlocks(words, source), st, w, why, st', w')
  {
    hide Blocks;
    hide DefinitionsOf;
    hide RunSource;
    hide Exec;
    hide F.Formed;
    var p := ProgramBlocks(words, source);
    ProgramRepresents(words, source);
    forall fuel: nat
      ensures SourceEndsWithin(env, words, source, fuel, st, w, why, st', w')
         <==> EndsWithin(env, p, fuel, st, w, why, st', w')
    {
      SourceMeans(env, words, P.Global, DefinitionsOf(source), p, fuel, source, st, w);
    }
  }

  // ----- types of words -----

  /** What a word does to the types on the stack, read off its token. */
  ghost predicate TypesAs(words: P.Dictionary, decls: T.Declarations, t: P.Token, st: seq<Type>, r: Option<seq<Type>>) {
    match t
    case Integer(_) => r == Some(st + [Int])
    case Boolean(_) => r == Some(st + [Bool])
    case Text(_) => r == Some(st + [Pointer])
    case AddressOf(_) => r == Some(st + [Pointer])
    case Typename(ty) => r == if |st| < 1 then None else Some(st[..|st|-1] + [ty])
    case Name(name) =>
      P.Named(name) in words &&
      (match words[P.Named(name)].kind
       case IntegerWord(_) => r == Some(st + [Int])
       case ArrayWord => r == Some(st + [Pointer])
       case IntrinsicWord(i) => r == R.IntrinsicRule(i, st)
       case FunctionWord =>
         var id := words[P.Named(name)].id;
         forall out :: r == Some(out)
           <==> id in decls && decls[id].effect.Some? && exists g :: R.Called(g, decls[id].effect.value, st, out))
    case _ => false
  }

  /**
   Numbers are `u64`, truth values `bool`, addresses `ptr`; a type name says what the top is; names as they are used.
   */
  lemma WordTyped(words: P.Dictionary, decls: T.Declarations, t: P.Token, st: seq<Type>)
    requires F.IsWord(words, t) && t != P.ReturnToken && t != P.ElseToken && t != P.DoToken && K.ConcreteStack(st)
    requires t.Typename? ==> !t.ty.Variable?
    ensures var k := P.Translate(words, t);
      && k.Some? && k.value.Plain? && !k.value.plain.Return?
      && TypesAs(words, decls, t, st, T.CheckPlain(decls, k.value.plain, st))
  {
    hide T.CheckPlain;
    hide R.IntrinsicRule;
    hide R.Called;
    var p := P.Translate(words, t).value.plain;
    if p.CallSymbol? {
      forall out: seq<Type>
        ensures T.CheckPlain(decls, p, st) == Some(out)
           <==> p.id in decls && decls[p.id].effect.Some? && exists g :: R.Called(g, decls[p.id].effect.value, st, out)
      {
        R.CallExact(decls, p.id, st, out);
      }
    } else {
      R.RuleExact(decls, p, st);
    }
  }
}
