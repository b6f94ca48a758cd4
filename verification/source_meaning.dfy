/**
 What nested source means, read off its tokens: literals push, names call or apply, blocks branch and repeat. No
 operation, no jump and no translation occurs in it. Source is well nested exactly when `crossreference` accepts what
 the parser makes of it, and then the blocks it spells mean the same.
 */
module SourceMeaning {
  import opened Wrappers
  import opened Words
  import opened Operations
  import opened Machine
  import opened Structured
  import opened Parsing
  import F = ForwardTranslation
  import C = Crossreferencing

  // ----- where blocks are cut -----

  function Weight(source: F.Source): nat {
    match source
    case Empty => 0
    case Then(item, rest) => ItemWeight(item) + Weight(rest)
  }

  function ItemWeight(item: F.Item): nat {
    match item
    case Block(_, inside) => 2 + Weight(inside)
    case _ => 1
  }

  /** What stands before and behind the first `mark` that is not inside another block. */
  function CutAt(source: F.Source, mark: Token): (r: Option<(F.Source, F.Source)>)
    ensures r.Some? ==> Weight(r.value.0) + Weight(r.value.1) < Weight(source)
  {
    match source
    case Empty => None
    case Then(item, rest) =>
      if item == F.Leaf(mark) then Some((F.Empty, rest))
      else
        match CutAt(rest, mark)
        case None => None
        case Some((a, b)) => Some((F.Then(item, a), b))
  }

  // ----- meaning -----

  /** The functions of a program, by the names they are defined under. */
  type Definitions = map<Key, F.Source>

  ghost function RunSource(env: Env, words: Dictionary, defs: Definitions, fuel: nat, source: F.Source, st: seq<Word>,
                           w: World): Outcome
    decreases fuel, 1, Weight(source), 1
  {
    match source
    case Empty => Next(st, w)
    case Then(item, rest) =>
      ItemCounts(item);
      var r := RunItem(env, words, defs, fuel, item, st, w);
      if r.Next? then RunSource(env, words, defs, fuel, rest, r.stack, r.world) else r
  }

  lemma ItemCounts(item: F.Item)
    ensures ItemWeight(item) > 0
  {
  }

  ghost function RunItem(env: Env, words: Dictionary, defs: Definitions, fuel: nat, item: F.Item, st: seq<Word>,
                         w: World): Outcome
    decreases fuel, 1, ItemWeight(item), 0
  {
    match item
    case Leaf(t) => RunToken(env, words, defs, fuel, t, st, w)
    case Block(open, inside) =>
      if open == IfToken then RunIf(env, words, defs, fuel, inside, st, w)
      else RunWhile(env, words, defs, fuel, inside, st, w)
    case Fun(key, _, _) =>
      if key.Anonymous? && key in words then Next(st + [env.symbol(FunctionSymbol(words[key].id))], w) else Next(st, w)
    case Define(_, _, _) => Next(st, w)
  }

  /** `if … else … end`, or without `else`: a flag is taken, and decides. */
  ghost function RunIf(env: Env, words: Dictionary, defs: Definitions, fuel: nat, inside: F.Source, st: seq<Word>,
                       w: World): Outcome
    decreases fuel, 1, Weight(inside) + 1, 0
  {
    var n := |st|;
    if n < 1 then Aborted(Underflow, st, w)
    else
      match CutAt(inside, ElseToken)
      case None =>
        if st[n-1] == 0 then Next(st[..n-1], w) else RunSource(env, words, defs, fuel, inside, st[..n-1], w)
      case Some((thn, els)) => RunSource(env, words, defs, fuel, if st[n-1] == 0 then els else thn, st[..n-1], w)
  }

  /** `while … do … end`: the condition leaves a flag, which decides whether the rest runs and it all begins again. */
  ghost function RunWhile(env: Env, words: Dictionary, defs: Definitions, fuel: nat, inside: F.Source, st: seq<Word>,
                          w: World): Outcome
    decreases fuel, 1, Weight(inside) + 1, 0
  {
    match CutAt(inside, DoToken)
    case None => Aborted(BadJump, st, w)
    case Some((cond, body)) =>
      if fuel == 0 then OutOfFuel
      else
        var r := RunSource(env, words, defs, fuel, cond, st, w);
        if !r.Next? then r
        else if |r.stack| < 1 then Aborted(Underflow, r.stack, r.world)
        else if r.stack[|r.stack|-1] == 0 then Next(r.stack[..|r.stack|-1], r.world)
        else
          var r' := RunSource(env, words, defs, fuel, body, r.stack[..|r.stack|-1], r.world);
          if r'.Next? then RunWhile(env, words, defs, fuel - 1, inside, r'.stack, r'.world) else r'
  }

  ghost function RunToken(env: Env, words: Dictionary, defs: Definitions, fuel: nat, t: Token, st: seq<Word>,
                          w: World): Outcome
    decreases fuel, 0, 1, 0
  {
    match t
    case Integer(v) => Next(st + [v], w)
    case Boolean(b) => Next(st + [if b then 1 else 0], w)
    case Text(id) => Next(st + [env.symbol(StringSymbol(id))], w)
    case Typename(_) => Next(st, w)
    case ReturnToken => Returned(st, w)
    case AddressOf(name) =>
      if Named(name) in words then Next(st + [env.symbol(FunctionSymbol(words[Named(name)].id))], w)
      else Aborted(BadCall, st, w)
    case Name(name) =>
      if Named(name) in words then RunName(env, words, defs, fuel, Named(name), st, w) else Aborted(BadCall, st, w)
    case _ => Aborted(BadJump, st, w)
  }

  /** A name: a constant's value, an array's address, a call, or an intrinsic. */
  ghost function RunName(env: Env, words: Dictionary, defs: Definitions, fuel: nat, key: Key, st: seq<Word>,
                         w: World): Outcome
    requires key in words
    decreases fuel, 0, 0, 1
  {
    var n := |st|;
    match words[key].kind
    case IntegerWord(v) => Next(st + [v], w)
    case ArrayWord => Next(st + [env.symbol(ArraySymbol(words[key].id))], w)
    case FunctionWord => RunCall(env, words, defs, fuel, key, st, w)
    case IntrinsicWord(i) =>
      if i == Call then
        if n < 1 then Aborted(Underflow, st, w)
        else
          match env.resolve(st[n-1])
          case None => Aborted(BadCall, st, w)
          case Some(id) =>
            (match At(words, defs, id)
             case None => Aborted(BadCall, st[..n-1], w)
             case Some(callee) => RunCall(env, words, defs, fuel, callee, st[..n-1], w))
      else
        match ApplyIntrinsic(env, i, st, w)
        case Fault(why) => Aborted(why, st, w)
        case Continue(st', w') => Next(st', w')
  }

  /** The function whose code an address of this number is. */
  ghost function At(words: Dictionary, defs: Definitions, id: nat): (r: Option<Key>)
    ensures r.Some? ==> r.value in defs && r.value in words && words[r.value].id == id
    ensures r.None? ==> forall key :: key in defs && key in words ==> words[key].id != id
  {
    if exists key :: key in defs && key in words && words[key].id == id then
      var key :| key in defs && key in words && words[key].id == id;
      Some(key)
    else None
  }

  ghost function RunCall(env: Env, words: Dictionary, defs: Definitions, fuel: nat, key: Key, st: seq<Word>,
                         w: World): Outcome
    decreases fuel, 0, 0, 0
  {
    if key !in defs then Aborted(BadCall, st, w)
    else if fuel == 0 then OutOfFuel
    else
      var r := RunSource(env, words, defs, fuel - 1, defs[key], st, w);
      if r.Returned? then Next(r.stack, r.world) else r
  }

  // ----- definitions -----

  function DefinedIn(item: F.Item): Definitions {
    match item
    case Block(_, inside) => DefinitionsOf(inside)
    case Fun(key, _, body) => DefinitionsOf(body)[key := body]
    case _ => map[]
  }

  /** Every function a source defines, at any depth, with its body. */
  function DefinitionsOf(source: F.Source): Definitions {
    match source
    case Empty => map[]
    case Then(item, rest) => DefinedIn(item) + DefinitionsOf(rest)
  }

  lemma {:induction false} DefinitionsTranslate(words: Dictionary, source: F.Source)
    ensures F.FunctionsOf(words, source).Keys == DefinitionsOf(source).Keys
    ensures forall key :: key in DefinitionsOf(source) ==>
      F.FunctionsOf(words, source)[key].body == F.BodyOf(words, DefinitionsOf(source)[key])
    decreases source, 0
  {
    hide F.BodyOf;
    match source
    case Empty =>
    case Then(item, rest) =>
      ItemTranslates(words, item);
      DefinitionsTranslate(words, rest);
  }

  lemma {:induction false} ItemTranslates(words: Dictionary, item: F.Item)
    ensures F.FunctionsOfItem(words, item).Keys == DefinedIn(item).Keys
    ensures forall key :: key in DefinedIn(item) ==>
      F.FunctionsOfItem(words, item)[key].body == F.BodyOf(words, DefinedIn(item)[key])
    decreases item, 1
  {
    hide F.BodyOf;
    match item
    case Block(_, inside) => DefinitionsTranslate(words, inside);
    case Fun(_, _, body) => DefinitionsTranslate(words, body);
    case _ =>
  }

  // ----- nesting -----

  /** Where a token stands: at the top of a body, or in one of the parts of a block. */
  datatype Place = AtTop | InThen | InElse | InCondition | InLoop

  /** Where reading the source leaves the reader; `None` if a word stands where it may not. */
  function Walk(place: Place, source: F.Source): Option<Place>
    decreases source
  {
    match source
    case Empty => Some(place)
    case Then(item, rest) =>
      match WalkItem(place, item)
      case None => None
      case Some(next) => Walk(next, rest)
  }

  function WalkItem(place: Place, item: F.Item): Option<Place>
    decreases item
  {
    match item
    case Leaf(t) =>
      if t == ElseToken then if place == InThen then Some(InElse) else None
      else if t == DoToken then if place == InCondition then Some(InLoop) else None
      else Some(place)
    case Block(open, inside) =>
      var end := Walk(if open == IfToken then InThen else InCondition, inside);
      if end == Some(InThen) || end == Some(InElse) || end == Some(InLoop) then Some(place) else None
    case _ => Some(place)
  }

  /** One `else` at most in an `if`, one `do` exactly in a `while`, neither anywhere else. */
  predicate Nested(source: F.Source) {
    Walk(AtTop, source) == Some(AtTop)
  }

  lemma {:induction false} WalkEnds(place: Place, source: F.Source)
    requires Walk(place, source).Some?
    ensures var end := Walk(place, source).value;
      end == place || (place == InThen && end == InElse) || (place == InCondition && end == InLoop)
    decreases source
  {
    match source
    case Empty =>
    case Then(item, rest) => WalkEnds(WalkItem(place, item).value, rest);
  }

  /** Source that leaves its reader where it was has no `else` and no `do` of its own, wherever it stands. */
  lemma {:induction false} StaysPut(place: Place, source: F.Source, other: Place)
    requires Walk(place, source) == Some(place)
    ensures CutAt(source, ElseToken) == None && CutAt(source, DoToken) == None
    ensures Walk(other, source) == Some(other)
    decreases source
  {
    match source
    case Empty =>
    case Then(item, rest) =>
      WalkEnds(WalkItem(place, item).value, rest);
      StaysPut(place, rest, other);
  }

  /** Source with an `else` or a `do` of its own is cut there. */
  lemma {:induction false} MovesOn(place: Place, source: F.Source, mark: Token)
    requires (place == InThen && mark == ElseToken) || (place == InCondition && mark == DoToken)
    requires Walk(place, source).Some? && Walk(place, source) != Some(place)
    ensures CutAt(source, mark).Some?
    ensures Nested(CutAt(source, mark).value.0) && Nested(CutAt(source, mark).value.1)
    decreases source
  {
    match source
    case Then(item, rest) =>
      if item == F.Leaf(mark) {
        var next := WalkItem(place, item).value;
        WalkEnds(next, rest);
        StaysPut(next, rest, AtTop);
      } else {
        MovesOn(place, rest, mark);
        PlainItem(place, item);
      }
  }

  lemma PlainItem(place: Place, item: F.Item)
    requires WalkItem(place, item) == Some(place)
    ensures WalkItem(AtTop, item) == Some(AtTop)
  {
  }

  /** The parts of a block are nested source again. */
  lemma BlockParts(open: Token, inside: F.Source)
    requires open == IfToken || open == WhileToken
    requires WalkItem(AtTop, F.Block(open, inside)).Some?
    ensures open == IfToken ==>
      match CutAt(inside, ElseToken) case None => Nested(inside) case Some((a, b)) => Nested(a) && Nested(b)
    ensures open == WhileToken ==>
      CutAt(inside, DoToken).Some? && Nested(CutAt(inside, DoToken).value.0) && Nested(CutAt(inside, DoToken).value.1)
  {
    var place := if open == IfToken then InThen else InCondition;
    WalkEnds(place, inside);
    if Walk(place, inside) == Some(place) {
      StaysPut(place, inside, AtTop);
    } else {
      MovesOn(place, inside, if open == IfToken then ElseToken else DoToken);
    }
  }

  lemma NestedRest(item: F.Item, rest: F.Source)
    requires Nested(F.Then(item, rest))
    ensures WalkItem(AtTop, item) == Some(AtTop) && Nested(rest)
  {
    var next := WalkItem(AtTop, item);
    if next.Some? {
      WalkEnds(next.value, rest);
    }
  }

  // ----- blocks -----

  /** The blocks a nested source spells. */
  function Blocks(words: Dictionary, source: F.Source): Structured.Block
    decreases Weight(source), 1
  {
    match source
    case Empty => Nil
    case Then(item, rest) =>
      ItemCounts(item);
      Append(ItemBlocks(words, item), Blocks(words, rest))
  }

  function ItemBlocks(words: Dictionary, item: F.Item): Structured.Block
    decreases ItemWeight(item), 0
  {
    match item
    case Leaf(t) =>
      (match Translate(words, t)
       case Some(Plain(p)) => Seq(Simple(p), Nil)
       case _ => Nil)
    case Block(open, inside) =>
      if open == IfToken then
        match CutAt(inside, ElseToken)
        case None => Seq(IfThen(Blocks(words, inside)), Nil)
        case Some((a, b)) => Seq(IfElse(Blocks(words, a), Blocks(words, b)), Nil)
      else
        (match CutAt(inside, DoToken)
         case None => Nil
         case Some((a, b)) => Seq(Loop(Blocks(words, a), Blocks(words, b)), Nil))
    case Fun(key, _, _) =>
      if key.Anonymous? && key in words then Seq(Simple(PushSymbol(FunctionSymbol(words[key].id))), Nil) else Nil
    case Define(_, _, _) => Nil
  }

  lemma LeafBody(words: Dictionary, t: Token)
    ensures F.BodyOfItem(words, F.Leaf(t)) == F.Single(Translate(words, t))
  {
  }

  lemma {:induction false} BodyCut(words: Dictionary, source: F.Source, mark: Token)
    requires CutAt(source, mark).Some?
    ensures var (a, b) := CutAt(source, mark).value;
      F.BodyOf(words, source) == F.BodyOf(words, a) + F.Single(Translate(words, mark)) + F.BodyOf(words, b)
    decreases source
  {
    hide Translate;
    hide F.BodyOfItem;
    hide F.Single;
    match source
    case Then(item, rest) =>
      if item != F.Leaf(mark) {
        BodyCut(words, rest, mark);
        var (a, b) := CutAt(rest, mark).value;
        var x, y, m, z := F.BodyOfItem(words, item), F.BodyOf(words, a), F.Single(Translate(words, mark)),
            F.BodyOf(words, b);
        assert x + (y + m + z) == (x + y) + m + z;
        assert F.BodyOf(words, F.Then(item, a)) == x + y;
      } else {
        LeafBody(words, mark);
        var m, z := F.BodyOfItem(words, item), F.BodyOf(words, rest);
        assert F.BodyOf(words, F.Empty) == [];
        assert [] + m + z == m + z;
      }
  }

  lemma {:induction false} FormedCut(words: Dictionary, level: Level, source: F.Source, mark: Token)
    requires F.Formed(words, level, source) && CutAt(source, mark).Some?
    ensures F.Formed(words, level, CutAt(source, mark).value.0) && F.Formed(words, level, CutAt(source, mark).value.1)
    decreases source
  {
    match source
    case Then(item, rest) =>
      if item != F.Leaf(mark) {
        FormedCut(words, level, rest, mark);
      }
  }

  /** They have the words the parser leaves, in that order. */
  lemma {:induction false} BlocksSpell(words: Dictionary, level: Level, source: F.Source)
    requires F.Formed(words, level, source) && Nested(source)
    ensures Flatten(Blocks(words, source)) == F.BodyOf(words, source)
    decreases Weight(source), 1
  {
    match source
    case Empty =>
    case Then(item, rest) =>
      hide F.BodyOf;
      hide F.BodyOfItem;
      hide ItemBlocks;
      hide Flatten;
      NestedRest(item, rest);
      ItemCounts(item);
      ItemSpells(words, level, item);
      BlocksSpell(words, level, rest);
      FlattenAppend(ItemBlocks(words, item), Blocks(words, rest));
      BodyThen(words, item, rest);
  }

  lemma BodyThen(words: Dictionary, item: F.Item, rest: F.Source)
    ensures F.BodyOf(words, F.Then(item, rest)) == F.BodyOfItem(words, item) + F.BodyOf(words, rest)
  {
  }

  lemma FlattenOne(s: Stmt)
    ensures Flatten(Seq(s, Nil)) == FlattenStmt(s)
  {
    assert Flatten(Nil) == [];
  }

  lemma {:induction false} ItemSpells(words: Dictionary, level: Level, item: F.Item)
    requires F.ItemFormed(words, level, item) && WalkItem(AtTop, item) == Some(AtTop)
    ensures Flatten(ItemBlocks(words, item)) == F.BodyOfItem(words, item)
    decreases ItemWeight(item), 0
  {
    hide Flatten;
    hide F.BodyOf;
    assert Flatten(Nil) == [] by {
      NilFlat();
    }
    match item
    case Leaf(t) =>
      if Translate(words, t).Some? && Translate(words, t).value.Plain? {
        FlattenOne(Simple(Translate(words, t).value.plain));
      }
    case Block(open, inside) =>
      BlockParts(open, inside);
      if open == IfToken {
        IfSpells(words, level, inside);
      } else {
        WhileSpells(words, level, inside);
      }
    case Fun(key, _, _) =>
      if key.Anonymous? {
        FlattenOne(Simple(PushSymbol(FunctionSymbol(words[key].id))));
      }
    case Define(_, _, _) =>
  }

  lemma NilFlat()
    ensures Flatten(Nil) == []
  {
  }

  lemma Regroup(o: seq<Kind>, x: seq<Kind>, m: seq<Kind>, y: seq<Kind>, e: seq<Kind>)
    ensures o + (x + m + y) + e == o + x + m + y + e
  {
  }

  lemma {:induction false} IfSpells(words: Dictionary, level: Level, inside: F.Source)
    requires F.Formed(words, level, inside)
    requires match CutAt(inside, ElseToken) case None => Nested(inside) case Some((a, b)) => Nested(a) && Nested(b)
    ensures Flatten(ItemBlocks(words, F.Block(IfToken, inside))) == F.BodyOfItem(words, F.Block(IfToken, inside))
    decreases Weight(inside) + 1, 0
  {
    hide Flatten;
    hide F.BodyOf;
    match CutAt(inside, ElseToken)
    case None =>
      BlocksSpell(words, level, inside);
      FlattenOne(IfThen(Blocks(words, inside)));
    case Some((a, b)) =>
      FormedCut(words, level, inside, ElseToken);
      BlocksSpell(words, level, a);
      BlocksSpell(words, level, b);
      FlattenOne(IfElse(Blocks(words, a), Blocks(words, b)));
      BodyCut(words, inside, ElseToken);
      Regroup([If], F.BodyOf(words, a), [Else], F.BodyOf(words, b), [End]);
  }

  lemma {:induction false} WhileSpells(words: Dictionary, level: Level, inside: F.Source)
    requires F.Formed(words, level, inside) && CutAt(inside, DoToken).Some?
    requires Nested(CutAt(inside, DoToken).value.0) && Nested(CutAt(inside, DoToken).value.1)
    ensures Flatten(ItemBlocks(words, F.Block(WhileToken, inside))) == F.BodyOfItem(words, F.Block(WhileToken, inside))
    decreases Weight(inside) + 1, 0
  {
    hide Flatten;
    hide F.BodyOf;
    var (a, b) := CutAt(inside, DoToken).value;
    FormedCut(words, level, inside, DoToken);
    BlocksSpell(words, level, a);
    BlocksSpell(words, level, b);
    FlattenOne(Loop(Blocks(words, a), Blocks(words, b)));
    BodyCut(words, inside, DoToken);
    Regroup([While], F.BodyOf(words, a), [Do], F.BodyOf(words, b), [End]);
  }

  // ----- what `crossreference` accepts -----

  function PlaceOf(l: C.Levels): Place {
    match l
    case Bottom => AtTop
    case Level(_, _, OpenIf) => InThen
    case Level(_, _, OpenElse(_)) => InElse
    case Level(_, _, OpenWhile) => InCondition
    case Level(_, _, OpenDo(_)) => InLoop
  }

  /** The same blocks are open around. */
  predicate SameAround(l: C.Levels, l': C.Levels) {
    l == l' || (l.Level? && l'.Level? && l.below == l'.below && l.before == l'.before)
  }

  ghost predicate ReadsTo(z: C.Zipper, r: C.Parsed, end: Option<Place>) {
    match end
    case None => r.Rejected?
    case Some(place) => r.Open? && PlaceOf(r.z.levels) == place && SameAround(z.levels, r.z.levels)
  }

  lemma {:induction false} SourceReads(words: Dictionary, level: Level, source: F.Source, z: C.Zipper)
    requires F.Formed(words, level, source)
    ensures ReadsTo(z, C.Parse(z, F.BodyOf(words, source)), Walk(PlaceOf(z.levels), source))
    decreases source, 0
  {
    hide C.ParseKind;
    match source
    case Empty =>
    case Then(item, rest) =>
      hide C.Parse;
      ItemReads(words, level, item, z);
      C.ParseConcat(z, F.BodyOfItem(words, item), F.BodyOf(words, rest));
      var r := C.Parse(z, F.BodyOfItem(words, item));
      if r.Open? {
        SourceReads(words, level, rest, r.z);
      }
  }

  lemma {:induction false} ItemReads(words: Dictionary, level: Level, item: F.Item, z: C.Zipper)
    requires F.ItemFormed(words, level, item)
    ensures ReadsTo(z, C.Parse(z, F.BodyOfItem(words, item)), WalkItem(PlaceOf(z.levels), item))
    decreases item, 1
  {
    hide C.Parse;
    assert C.Parse(z, []) == C.Open(z) by {
      NothingRead(z);
    }
    match item
    case Leaf(t) =>
      F.WordTranslates(words, t);
      C.ParseOne(z, Translate(words, t).value);
    case Block(open, inside) =>
      BlockReads(words, level, open, inside, z);
    case Fun(key, _, _) =>
      if key.Anonymous? {
        C.ParseOne(z, Plain(PushSymbol(FunctionSymbol(words[key].id))));
      }
    case Define(_, _, _) =>
  }

  lemma NothingRead(z: C.Zipper)
    ensures C.Parse(z, []) == C.Open(z)
  {
  }

  lemma {:induction false} BlockReads(words: Dictionary, level: Level, open: Token, inside: F.Source, z: C.Zipper)
    requires (open == IfToken || open == WhileToken) && F.Formed(words, level, inside)
    ensures var item := F.Block(open, inside);
      ReadsTo(z, C.Parse(z, F.BodyOfItem(words, item)), WalkItem(PlaceOf(z.levels), item))
    decreases inside, 1
  {
    hide C.Parse;
    hide F.BodyOf;
    var k := if open == IfToken then If else While;
    var body := F.BodyOf(words, inside);
    assert F.BodyOfItem(words, F.Block(open, inside)) == [k] + body + [End];
    C.ParseConcat(z, [k] + body, [End]);
    C.ParseConcat(z, [k], body);
    C.ParseOne(z, k);
    var z1 := C.Zipper(C.Level(z.levels, z.current, if open == IfToken then C.OpenIf else C.OpenWhile), Nil);
    assert C.Parse(z, [k]) == C.Open(z1);
    SourceReads(words, level, inside, z1);
    var r := C.Parse(z1, body);
    if r.Open? {
      C.ParseOne(r.z, End);
    }
  }

  /** `crossreference` accepts what the parser makes of well-formed source exactly when the source is well nested. */
  lemma NestedExactly(words: Dictionary, level: Level, source: F.Source)
    requires F.Formed(words, level, source)
    ensures C.ParseFlaw(F.BodyOf(words, source)) == None <==> Nested(source)
  {
    hide C.Parse;
    SourceReads(words, level, source, C.EMPTY);
    var end := Walk(AtTop, source);
    if end.Some? {
      WalkEnds(AtTop, source);
    }
  }

  // ----- the blocks mean what the source means -----

  /** Words that call a function call the one defined under their name, and ids are not shared. */
  ghost predicate IdsApart(words: Dictionary, defs: Definitions) {
    forall key, other :: key in defs && key in words && other in words && words[other].id == words[key].id ==>
      other in defs || words[other].kind.FunctionWord? ==> other == key
  }

  ghost predicate Represented(words: Dictionary, defs: Definitions, p: StructuredProgram) {
    && IdsApart(words, defs)
    && (forall key :: key in defs ==>
          && key in words && F.Formed(words, Inside, defs[key]) && Nested(defs[key])
          && Function(words[key].id) in p && p[Function(words[key].id)] == Blocks(words, defs[key]))
    && (forall id :: Function(id) in p ==> exists key :: key in defs && key in words && words[key].id == id)
  }

  lemma {:induction false} ExecAppend(env: Env, p: StructuredProgram, fuel: nat, a: Structured.Block,
      b: Structured.Block,
                                      st: seq<Word>, w: World)
    ensures var r := Exec(env, p, fuel, a, st, w);
      Exec(env, p, fuel, Append(a, b), st, w) == if r.Next? then Exec(env, p, fuel, b, r.stack, r.world) else r
    decreases a
  {
    hide ExecStmt;
    if a.Seq? {
      var r := ExecStmt(env, p, fuel, a.head, st, w);
      if r.Next? {
        ExecAppend(env, p, fuel, a.tail, b, r.stack, r.world);
      }
    }
  }

  lemma ExecOne(env: Env, p: StructuredProgram, fuel: nat, s: Stmt, st: seq<Word>, w: World)
    ensures Exec(env, p, fuel, Seq(s, Nil), st, w) == ExecStmt(env, p, fuel, s, st, w)
  {
    hide ExecStmt;
    var r := ExecStmt(env, p, fuel, s, st, w);
    if r.Next? {
      assert Exec(env, p, fuel, Nil, r.stack, r.world) == r;
    }
  }

  lemma ExecNothing(env: Env, p: StructuredProgram, fuel: nat, st: seq<Word>, w: World)
    ensures Exec(env, p, fuel, Nil, st, w) == Next(st, w)
  {
  }

  lemma {:induction false} SourceMeans(env: Env, words: Dictionary, level: Level, defs: Definitions,
                                       p: StructuredProgram, fuel: nat, source: F.Source, st: seq<Word>, w: World)
    requires Represented(words, defs, p) && F.Formed(words, level, source) && Nested(source)
    ensures Exec(env, p, fuel, Blocks(words, source), st, w) == RunSource(env, words, defs, fuel, source, st, w)
    decreases fuel, 1, Weight(source), 1
  {
    hide Represented;
    hide ItemBlocks;
    hide Exec;
    match source
    case Empty => ExecNothing(env, p, fuel, st, w);
    case Then(item, rest) =>
      NestedRest(item, rest);
      ItemCounts(item);
      ItemMeans(env, words, level, defs, p, fuel, item, st, w);
      ExecAppend(env, p, fuel, ItemBlocks(words, item), Blocks(words, rest), st, w);
      var r := RunItem(env, words, defs, fuel, item, st, w);
      if r.Next? {
        SourceMeans(env, words, level, defs, p, fuel, rest, r.stack, r.world);
      }
  }

  lemma {:induction false} ItemMeans(env: Env, words: Dictionary, level: Level, defs: Definitions, p: StructuredProgram,
                                     fuel: nat, item: F.Item, st: seq<Word>, w: World)
    requires Represented(words, defs, p) && F.ItemFormed(words, level, item) && WalkItem(AtTop, item) == Some(AtTop)
    ensures Exec(env, p, fuel, ItemBlocks(words, item), st, w) == RunItem(env, words, defs, fuel, item, st, w)
    decreases fuel, 1, ItemWeight(item), 0
  {
    hide Represented;
    hide Exec;
    hide RunToken;
    match item
    case Leaf(t) => TokenMeans(env, words, defs, p, fuel, t, st, w);
    case Block(open, inside) =>
      BlockParts(open, inside);
      if open == IfToken {
        IfMeans(env, words, level, defs, p, fuel, inside, st, w);
      } else {
        WhileMeans(env, words, level, defs, p, fuel, inside, st, w);
      }
    case Fun(key, _, _) =>
      ExecNothing(env, p, fuel, st, w);
      if key.Anonymous? {
        LocalMeans(env, p, fuel, PushSymbol(FunctionSymbol(words[key].id)), st, w);
      }
    case Define(_, _, _) => ExecNothing(env, p, fuel, st, w);
  }

  /** A word that stays in its frame. */
  lemma LocalMeans(env: Env, p: StructuredProgram, fuel: nat, q: Plain, st: seq<Word>, w: World)
    requires IsLocal(q)
    ensures Exec(env, p, fuel, Seq(Simple(q), Nil), st, w) ==
      match ApplyPlain(env, q, st, w) case Fault(why) => Aborted(why, st, w) case Continue(st', w') => Next(st', w')
  {
    hide ApplyPlain;
    ExecOne(env, p, fuel, Simple(q), st, w);
    assert ExecStmt(env, p, fuel, Simple(q), st, w) == ExecSimple(env, p, fuel, q, st, w);
  }

  lemma {:induction false} IfMeans(env: Env, words: Dictionary, level: Level, defs: Definitions, p: StructuredProgram,
                                   fuel: nat, inside: F.Source, st: seq<Word>, w: World)
    requires Represented(words, defs, p) && F.Formed(words, level, inside)
    requires match CutAt(inside, ElseToken) case None => Nested(inside) case Some((a, b)) => Nested(a) && Nested(b)
    ensures Exec(env, p, fuel, ItemBlocks(words, F.Block(IfToken, inside)), st, w)
         == RunIf(env, words, defs, fuel, inside, st, w)
    decreases fuel, 1, Weight(inside) + 1, 0
  {
    hide Represented;
    hide Exec;
    var n := |st|;
    match CutAt(inside, ElseToken)
    case None =>
      var thn := Blocks(words, inside);
      ExecOne(env, p, fuel, IfThen(thn), st, w);
      if n >= 1 {
        SourceMeans(env, words, level, defs, p, fuel, inside, st[..n-1], w);
      }
    case Some((a, b)) =>
      FormedCut(words, level, inside, ElseToken);
      ExecOne(env, p, fuel, IfElse(Blocks(words, a), Blocks(words, b)), st, w);
      if n >= 1 {
        SourceMeans(env, words, level, defs, p, fuel, a, st[..n-1], w);
        SourceMeans(env, words, level, defs, p, fuel, b, st[..n-1], w);
      }
  }

  lemma {:induction false} WhileMeans(env: Env, words: Dictionary, level: Level, defs: Definitions,
                                      p: StructuredProgram, fuel: nat, inside: F.Source, st: seq<Word>, w: World)
    requires Represented(words, defs, p) && F.Formed(words, level, inside) && CutAt(inside, DoToken).Some?
    requires Nested(CutAt(inside, DoToken).value.0) && Nested(CutAt(inside, DoToken).value.1)
    ensures Exec(env, p, fuel, ItemBlocks(words, F.Block(WhileToken, inside)), st, w)
         == RunWhile(env, words, defs, fuel, inside, st, w)
    decreases fuel, 1, Weight(inside) + 1, 0
  {
    hide Represented;
    hide Exec;
    hide RunSource;
    hide Blocks;
    hide F.Formed;
    hide CutAt;
    hide Nested;
    var (a, b) := CutAt(inside, DoToken).value;
    FormedCut(words, level, inside, DoToken);
    var loop := Loop(Blocks(words, a), Blocks(words, b));
    assert ItemBlocks(words, F.Block(WhileToken, inside)) == Seq(loop, Nil);
    ExecOne(env, p, fuel, loop, st, w);
    if fuel > 0 {
      SourceMeans(env, words, level, defs, p, fuel, a, st, w);
      var r := RunSource(env, words, defs, fuel, a, st, w);
      if r.Next? && |r.stack| >= 1 && r.stack[|r.stack|-1] != 0 {
        var st' := r.stack[..|r.stack|-1];
        SourceMeans(env, words, level, defs, p, fuel, b, st', r.world);
        var r' := RunSource(env, words, defs, fuel, b, st', r.world);
        if r'.Next? {
          WhileMeans(env, words, level, defs, p, fuel - 1, inside, r'.stack, r'.world);
          ExecOne(env, p, fuel - 1, loop, r'.stack, r'.world);
        }
      }
    }
  }

  lemma {:induction false} TokenMeans(env: Env, words: Dictionary, defs: Definitions, p: StructuredProgram, fuel: nat,
                                      t: Token, st: seq<Word>, w: World)
    requires Represented(words, defs, p) && F.IsWord(words, t) && t != ElseToken && t != DoToken
    ensures Exec(env, p, fuel, ItemBlocks(words, F.Leaf(t)), st, w) == RunToken(env, words, defs, fuel, t, st, w)
    decreases fuel, 0, 1, 0
  {
    hide Represented;
    hide Exec;
    match t
    case Name(name) => NameMeans(env, words, defs, p, fuel, Named(name), st, w);
    case ReturnToken =>
      ExecOne(env, p, fuel, Simple(Return), st, w);
      assert ExecStmt(env, p, fuel, Simple(Return), st, w) == ExecSimple(env, p, fuel, Return, st, w);
    case AddressOf(name) => LocalMeans(env, p, fuel, PushSymbol(FunctionSymbol(words[Named(name)].id)), st, w);
    case Integer(v) => LocalMeans(env, p, fuel, PushInt(v, Int), st, w);
    case Text(id) => LocalMeans(env, p, fuel, PushSymbol(StringSymbol(id)), st, w);
    case Boolean(b) => LocalMeans(env, p, fuel, PushInt(if b then 1 else 0, Bool), st, w);
    case Typename(ty) => LocalMeans(env, p, fuel, Cast(ty), st, w);
  }

  lemma {:induction false} NameMeans(env: Env, words: Dictionary, defs: Definitions, p: StructuredProgram, fuel: nat,
                                     key: Key, st: seq<Word>, w: World)
    requires Represented(words, defs, p) && key in words
    ensures Exec(env, p, fuel, Seq(Simple(TranslateWord(words[key])), Nil), st, w)
         == RunName(env, words, defs, fuel, key, st, w)
    decreases fuel, 0, 0, 2
  {
    hide Represented;
    hide Exec;
    hide ApplyIntrinsic;
    var id := words[key].id;
    match words[key].kind
    case IntegerWord(v) => LocalMeans(env, p, fuel, PushInt(v, Int), st, w);
    case ArrayWord => LocalMeans(env, p, fuel, PushSymbol(ArraySymbol(id)), st, w);
    case FunctionWord =>
      ExecOne(env, p, fuel, Simple(CallSymbol(id)), st, w);
      assert ExecStmt(env, p, fuel, Simple(CallSymbol(id)), st, w) == ExecSimple(env, p, fuel, CallSymbol(id), st, w);
      OwnCallee(words, defs, p, key);
      CallMeans(env, words, defs, p, fuel, key, st, w);
    case IntrinsicWord(i) =>
      if i == Call {
        IndirectMeans(env, words, defs, p, fuel, st, w);
      } else {
        LocalMeans(env, p, fuel, Intrinsic(i), st, w);
      }
  }

  /** A word that calls is in the program exactly when its function is defined. */
  lemma OwnCallee(words: Dictionary, defs: Definitions, p: StructuredProgram, key: Key)
    requires Represented(words, defs, p) && key in words && words[key].kind.FunctionWord?
    ensures Function(words[key].id) in p <==> key in defs
  {
    if Function(words[key].id) in p {
      var other :| other in defs && other in words && words[other].id == words[key].id;
      assert key == other;
    }
  }

  lemma {:induction false} IndirectMeans(env: Env, words: Dictionary, defs: Definitions,
      p: StructuredProgram, fuel: nat,
                                         st: seq<Word>, w: World)
    requires Represented(words, defs, p)
    ensures var n := |st|;
      Exec(env, p, fuel, Seq(Simple(Intrinsic(Call)), Nil), st, w) ==
        if n < 1 then Aborted(Underflow, st, w)
        else
          match env.resolve(st[n-1])
          case None => Aborted(BadCall, st, w)
          case Some(id) =>
            match At(words, defs, id)
            case None => Aborted(BadCall, st[..n-1], w)
            case Some(callee) => RunCall(env, words, defs, fuel, callee, st[..n-1], w)
    decreases fuel, 0, 0, 1
  {
    hide Exec;
    hide Represented;
    var n := |st|;
    ExecOne(env, p, fuel, Simple(Intrinsic(Call)), st, w);
    assert ExecStmt(env, p, fuel, Simple(Intrinsic(Call)), st, w) == ExecSimple(env, p, fuel, Intrinsic(Call), st, w);
    if n >= 1 && env.resolve(st[n-1]).Some? {
      var id := env.resolve(st[n-1]).value;
      Resolved(words, defs, p, id);
      if At(words, defs, id).Some? {
        CallMeans(env, words, defs, p, fuel, At(words, defs, id).value, st[..n-1], w);
      } else {
        assert ExecCall(env, p, fuel, id, st[..n-1], w) == Aborted(BadCall, st[..n-1], w);
      }
    }
  }

  lemma Resolved(words: Dictionary, defs: Definitions, p: StructuredProgram, id: nat)
    requires Represented(words, defs, p)
    ensures Function(id) in p <==> At(words, defs, id).Some?
  {
  }

  lemma {:induction false} CallMeans(env: Env, words: Dictionary, defs: Definitions, p: StructuredProgram, fuel: nat,
                                     key: Key, st: seq<Word>, w: World)
    requires Represented(words, defs, p) && key in words && (Function(words[key].id) in p <==> key in defs)
    ensures ExecCall(env, p, fuel, words[key].id, st, w) == RunCall(env, words, defs, fuel, key, st, w)
    decreases fuel, 0, 0, 0
  {
    hide Exec;
    if key in defs && fuel > 0 {
      SourceMeans(env, words, Inside, defs, p, fuel - 1, defs[key], st, w);
    }
  }

  // ----- programs -----

  ghost function FunctionIds(words: Dictionary, defs: Definitions): set<FunctionRef> {
    set key | key in defs && key in words :: Function(words[key].id)
  }

  /** The blocks of main and of every function, under the ids of their words. */
  ghost function ProgramBlocks(words: Dictionary, source: F.Source): (p: StructuredProgram)
    ensures p.Keys == {Main} + FunctionIds(words, DefinitionsOf(source))
  {
    var defs := DefinitionsOf(source);
    map f | f in {Main} + FunctionIds(words, defs) ::
      if f == Main then Blocks(words, source)
      else if At(words, defs, f.id).Some? then Blocks(words, defs[At(words, defs, f.id).value]) else Nil
  }

  /** Main and every function are well nested. */
  ghost predicate AllNested(source: F.Source) {
    Nested(source) && forall key :: key in DefinitionsOf(source) ==> Nested(DefinitionsOf(source)[key])
  }

  lemma {:induction false} DefinitionsFormed(words: Dictionary, level: Level, source: F.Source)
    requires F.Formed(words, level, source)
    ensures forall key :: key in DefinitionsOf(source) ==>
        key in words && F.Formed(words, Inside, DefinitionsOf(source)[key])
    decreases source, 0
  {
    match source
    case Empty =>
    case Then(item, rest) =>
      ItemDefinitionsFormed(words, level, item);
      DefinitionsFormed(words, level, rest);
  }

  lemma {:induction false} ItemDefinitionsFormed(words: Dictionary, level: Level, item: F.Item)
    requires F.ItemFormed(words, level, item)
    ensures forall key :: key in DefinedIn(item) ==> key in words && F.Formed(words, Inside, DefinedIn(item)[key])
    decreases item, 1
  {
    match item
    case Block(_, inside) => DefinitionsFormed(words, level, inside);
    case Fun(_, _, body) => DefinitionsFormed(words, Inside, body);
    case _ =>
  }

  lemma ProgramRepresents(words: Dictionary, source: F.Source)
    requires F.Formed(words, Global, source) && AllNested(source) && IdsApart(words, DefinitionsOf(source))
    ensures Represented(words, DefinitionsOf(source), ProgramBlocks(words, source))
  {
    hide Blocks;
    hide DefinitionsOf;
    hide Nested;
    hide F.Formed;
    var defs, p := DefinitionsOf(source), ProgramBlocks(words, source);
    DefinitionsFormed(words, Global, source);
    forall key | key in defs
      ensures Function(words[key].id) in p && p[Function(words[key].id)] == Blocks(words, defs[key])
    {
      var f := Function(words[key].id);
      assert f in FunctionIds(words, defs);
      var other := At(words, defs, f.id);
      assert other == Some(key);
    }
    forall id | Function(id) in p
      ensures exists key :: key in defs && key in words && words[key].id == id
    {
      assert Function(id) in FunctionIds(words, defs);
    }
  }

  /** Main run from its tokens ends for this reason, with this stack and world. */
  ghost predicate SourceEndsWithin(env: Env, words: Dictionary, source: F.Source, fuel: nat, st: seq<Word>, w: World,
                                   why: Stop, st': seq<Word>, w': World) {
    match RunSource(env, words, DefinitionsOf(source), fuel, source, st, w)
    case Next(s, v) => why == Exit && st' == s && w' == v
    case Returned(s, v) => why == Exit && st' == s && w' == v
    case Aborted(y, s, v) => why == y && st' == s && w' == v
    case OutOfFuel => false
  }

  ghost predicate SourceEnds(env: Env, words: Dictionary, source: F.Source, st: seq<Word>, w: World, why: Stop,
                             st': seq<Word>, w': World) {
    exists fuel: nat :: SourceEndsWithin(env, words, source, fuel, st, w, why, st', w')
  }
}
