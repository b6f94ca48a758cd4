/** The nested source, its tokens, its direct translation, and that reading backwards computes that translation. */
module ForwardTranslation {
  import opened Wrappers
  import opened Operations
  import opened Types
  import opened Parsing

  // ----- nested source -----

  datatype Header =
    | NoHeader
    | DynamicHeader
    | TypedHeader(effect: StackEffect)
    | OutputHeader(output: seq<Type>)

  datatype Item =
    | Leaf(token: Token)
    | Block(open: Token, inside: Source)
    | Fun(key: Key, header: Header, body: Source)
    | Define(name: string, size: Token, what: Token)

  datatype Source = Empty | Then(first: Item, rest: Source)

  function Typenames(types: seq<Type>): (r: seq<Token>)
    ensures |r| == |types|
  {
    seq(|types|, i requires 0 <= i < |types| => Typename(types[i]))
  }

  function PrintHeader(h: Header): seq<Token> {
    match h
    case NoHeader => []
    case DynamicHeader => [DynamicToken]
    case TypedHeader(e) => Typenames(e.input) + [DividerToken] + Typenames(e.output) + [DefinitionToken]
    case OutputHeader(output) => Typenames(output) + [DefinitionToken]
  }

  function Opening(key: Key): seq<Token> {
    match key
    case Named(name) => [Name(name), FunctionToken]
    case Anonymous(number) => [LambdaToken(number)]
  }

  function PrintItem(item: Item): seq<Token> {
    match item
    case Leaf(t) => [t]
    case Block(open, inside) => [open] + Print(inside) + [EndToken]
    case Fun(key, h, body) => Opening(key) + (PrintHeader(h) + Print(body)) + [EndToken]
    case Define(name, size, what) => [Name(name), size, what]
  }

  function Print(source: Source): seq<Token> {
    match source
    case Empty => []
    case Then(item, rest) => PrintItem(item) + Print(rest)
  }

  // ----- direct translation -----

  function Single(kind: Option<Kind>): seq<Kind> {
    if kind.Some? then [kind.value] else []
  }

  /** Operations an item leaves in the body it stands in. */
  function BodyOfItem(words: Dictionary, item: Item): seq<Kind> {
    match item
    case Leaf(t) => Single(Translate(words, t))
    case Block(open, inside) => Single(Translate(words, open)) + BodyOf(words, inside) + [End]
    case Fun(key, _, _) => if key.Anonymous? && key in words then [Plain(PushSymbol(FunctionSymbol(words[key].id)))]
        else []
    case Define(_, _, _) => []
  }

  function BodyOf(words: Dictionary, source: Source): seq<Kind> {
    match source
    case Empty => []
    case Then(item, rest) => BodyOfItem(words, item) + BodyOf(words, rest)
  }

  function EffectOf(h: Header): Option<StackEffect> {
    match h
    case TypedHeader(e) => Some(e)
    case OutputHeader(output) => Some(StackEffect([], output))
    case _ => None
  }

  /** Functions defined by an item, at any depth. */
  function FunctionsOfItem(words: Dictionary, item: Item): Functions {
    match item
    case Block(_, inside) => FunctionsOf(words, inside)
    case Fun(key, h, body) =>
      FunctionsOf(words, body)[key := FunctionDef(BodyOf(words, body), h.DynamicHeader?, EffectOf(h))]
    case _ => map[]
  }

  function FunctionsOf(words: Dictionary, source: Source): Functions {
    match source
    case Empty => map[]
    case Then(item, rest) => FunctionsOfItem(words, item) + FunctionsOf(words, rest)
  }

  // ----- well-formed source -----

  /** Tokens that stand for themselves: known names, literals, types, `return`, and the middles of blocks. */
  predicate IsWord(words: Dictionary, t: Token) {
    match t
    case Name(name) => Named(name) in words
    case AddressOf(name) => Named(name) in words
    case Integer(_) => true
    case Text(_) => true
    case Boolean(_) => true
    case Typename(_) => true
    case ReturnToken => true
    case ElseToken => true
    case DoToken => true
    case _ => false
  }

  lemma WordTranslates(words: Dictionary, t: Token)
    requires IsWord(words, t)
    ensures !Opens(t) && !t.EndToken? && Translate(words, t).Some?
  {
  }

  predicate ItemFormed(words: Dictionary, level: Level, item: Item)
    decreases item, 0
  {
    match item
    case Leaf(t) => IsWord(words, t)
    case Block(open, inside) => (open.IfToken? || open.WhileToken?) && Formed(words, level, inside)
    case Fun(key, _, body) => key in words && Formed(words, Inside, body)
    case Define(_, size, what) =>
      level.Global? && (size.Integer? || size.Name?) && (what.ArrayToken? || what.ConstantToken?)
  }

  /** Words are registered, and arrays and constants are defined outside functions. */
  predicate Formed(words: Dictionary, level: Level, source: Source)
    decreases source, 0
  {
    match source
    case Empty => true
    case Then(item, rest) => ItemFormed(words, level, item) && Formed(words, level, rest)
  }

  predicate ItemDistinct(words: Dictionary, item: Item) {
    match item
    case Block(_, inside) => Distinct(words, inside)
    case Fun(key, _, body) => key !in FunctionsOf(words, body) && Distinct(words, body)
    case _ => true
  }

  /** No function is defined twice. */
  predicate Distinct(words: Dictionary, source: Source) {
    match source
    case Empty => true
    case Then(item, rest) =>
      && ItemDistinct(words, item) && Distinct(words, rest)
      && FunctionsOfItem(words, item).Keys !! FunctionsOf(words, rest).Keys
  }

  // ----- sequences -----

  lemma ReverseConcat<T>(a: seq<T>, b: seq<T>)
    ensures Reverse(a + b) == Reverse(b) + Reverse(a)
  {
  }

  lemma ReverseTwice<T>(a: seq<T>)
    ensures Reverse(Reverse(a)) == a
  {
  }

  lemma Assoc<T>(a: seq<T>, b: seq<T>, c: seq<T>)
    ensures a + (b + c) == a + b + c
  {
  }

  // ----- counting over printed source -----

  lemma OpenerSnoc(pre: seq<Token>, t: Token, c: nat)
    requires c > 0
    ensures Opener(pre + [t], c) == Opener(pre, if t.EndToken? then c + 1 else if Opens(t) then c - 1 else c)
  {
    assert (pre + [t])[..|pre|] == pre;
  }

  lemma {:induction false} OpenerSkipsFlat(pre: seq<Token>, flat: seq<Token>, c: nat)
    requires c > 0 && forall k :: 0 <= k < |flat| ==> !Opens(flat[k]) && !flat[k].EndToken?
    ensures Opener(pre + flat, c) == Opener(pre, c)
    decreases |flat|
  {
    if flat == [] {
      assert pre + flat == pre;
    } else {
      var n := |flat| - 1;
      assert pre + flat == (pre + flat[..n]) + [flat[n]];
      OpenerSnoc(pre + flat[..n], flat[n], c);
      OpenerSkipsFlat(pre, flat[..n], c);
    }
  }

  lemma {:induction false} OpenerSkipsItem(words: Dictionary, level: Level, pre: seq<Token>, item: Item, c: nat)
    requires c > 0 && ItemFormed(words, level, item)
    ensures Opener(pre + PrintItem(item), c) == Opener(pre, c)
    decreases item, 0
  {
    hide Opener;
    match item
    case Leaf(t) => OpenerSnoc(pre, t, c);
    case Block(open, inside) =>
      Assoc(pre, [open] + Print(inside), [EndToken]);
      Assoc(pre, [open], Print(inside));
      OpenerSnoc(pre + [open] + Print(inside), EndToken, c);
      OpenerSkips(words, level, pre + [open], inside, c + 1);
      OpenerSnoc(pre, open, c + 1);
    case Fun(key, h, body) =>
      var opening := Opening(key);
      Assoc(pre, opening + (PrintHeader(h) + Print(body)), [EndToken]);
      Assoc(pre, opening, PrintHeader(h) + Print(body));
      OpenerSnoc(pre + opening + (PrintHeader(h) + Print(body)), EndToken, c);
      OpenerSkipsFunction(words, pre + opening, h, body, c + 1);
      OpenerOfOpening(pre, key, c);
    case Define(name, size, what) => OpenerSkipsFlat(pre, [Name(name), size, what], c);
  }

  lemma {:induction false} OpenerSkipsFunction(words: Dictionary, pre: seq<Token>, h: Header, body: Source, c: nat)
    requires c > 0 && Formed(words, Inside, body)
    ensures Opener(pre + (PrintHeader(h) + Print(body)), c) == Opener(pre, c)
    decreases body, 1
  {
    hide Opener;
    HeaderFlat(h);
    hide PrintHeader;
    Assoc(pre, PrintHeader(h), Print(body));
    OpenerSkips(words, Inside, pre + PrintHeader(h), body, c);
    OpenerSkipsFlat(pre, PrintHeader(h), c);
  }

  lemma HeaderFlat(h: Header)
    ensures forall k :: 0 <= k < |PrintHeader(h)| ==> !Opens(PrintHeader(h)[k]) && !PrintHeader(h)[k].EndToken?
  {
  }

  lemma OpenerOfOpening(pre: seq<Token>, key: Key, c: nat)
    ensures Opener(pre + Opening(key), c + 1) == if c > 0 then Opener(pre, c) else Some(|pre| + |Opening(key)| - 1)
  {
    match key
    case Anonymous(number) => OpenerSnoc(pre, LambdaToken(number), c + 1);
    case Named(name) =>
      assert pre + Opening(key) == (pre + [Name(name)]) + [FunctionToken];
      OpenerSnoc(pre + [Name(name)], FunctionToken, c + 1);
      if c > 0 {
        OpenerSnoc(pre, Name(name), c);
      }
  }

  /** Source is balanced: counting passes over it. */
  lemma {:induction false} OpenerSkips(words: Dictionary, level: Level, pre: seq<Token>, source: Source, c: nat)
    requires c > 0 && Formed(words, level, source)
    ensures Opener(pre + Print(source), c) == Opener(pre, c)
    decreases source, 0
  {
    hide Opener;
    match source
    case Empty => assert pre + Print(source) == pre;
    case Then(item, rest) =>
      Assoc(pre, PrintItem(item), Print(rest));
      OpenerSkips(words, level, pre + PrintItem(item), rest, c);
      OpenerSkipsItem(words, level, pre, item, c);
  }

  // ----- reading effects -----

  lemma {:induction false} EffectTypes(pre: seq<Token>, types: seq<Type>, input: bool, e: StackEffect)
    ensures ReadEffect(pre + Typenames(types), input, e) == ReadEffect(pre, input,
      if input then e.(input := e.input + Reverse(types)) else e.(output := e.output + Reverse(types)))
    decreases |types|
  {
    if types == [] {
      assert pre + Typenames(types) == pre;
      assert e.input + Reverse(types) == e.input && e.output + Reverse(types) == e.output;
    } else {
      var n := |types| - 1;
      var all := pre + Typenames(types);
      assert all[..|all|-1] == pre + Typenames(types[..n]);
      var e' := if input then e.(input := e.input + [types[n]]) else e.(output := e.output + [types[n]]);
      EffectTypes(pre, types[..n], input, e');
      assert Reverse(types) == [types[n]] + Reverse(types[..n]);
      Assoc(if input then e.input else e.output, [types[n]], Reverse(types[..n]));
    }
  }

  lemma EffectDivider(pre: seq<Token>, e: StackEffect)
    ensures ReadEffect(pre + [DividerToken], false, e) == ReadEffect(pre, true, e)
  {
    assert (pre + [DividerToken])[..|pre|] == pre;
  }

  lemma EffectEnd(input: seq<Type>, output: seq<Type>, seen: bool)
    ensures ReadEffect([], seen, StackEffect(Reverse(input), Reverse(output))) == Some(StackEffect(input, output))
  {
    ReverseTwice(input);
    ReverseTwice(output);
  }

  lemma TypedEffect(input: seq<Type>, output: seq<Type>)
    ensures ReadEffect(Typenames(input) + [DividerToken] + Typenames(output), false, StackEffect([], []))
        == Some(StackEffect(input, output))
  {
    hide ReadEffect;
    hide Typenames;
    EffectTypes(Typenames(input) + [DividerToken], output, false, StackEffect([], []));
    assert [] + Reverse(output) == Reverse(output);
    EffectDivider(Typenames(input), StackEffect([], Reverse(output)));
    assert [] + Typenames(input) == Typenames(input);
    EffectTypes([], input, true, StackEffect([], Reverse(output)));
    assert [] + Reverse(input) == Reverse(input);
    EffectEnd(input, output, true);
  }

  lemma OutputEffect(output: seq<Type>)
    ensures ReadEffect(Typenames(output), false, StackEffect([], [])) == Some(StackEffect([], output))
  {
    hide ReadEffect;
    hide Typenames;
    assert [] + Typenames(output) == Typenames(output);
    EffectTypes([], output, false, StackEffect([], []));
    assert [] + Reverse(output) == Reverse(output);
    assert Reverse<Type>([]) == [];
    EffectEnd([], output, false);
  }

  lemma HeaderEffect(h: Header)
    requires h.TypedHeader? || h.OutputHeader?
    ensures var ts := PrintHeader(h);
      && ts != [] && ts[|ts|-1].DefinitionToken?
      && ReadEffect(ts[..|ts|-1], false, StackEffect([], [])) == EffectOf(h)
  {
    hide ReadEffect;
    hide Typenames;
    var ts := PrintHeader(h);
    match h
    case TypedHeader(e) =>
      TypedEffect(e.input, e.output);
      assert ts[..|ts|-1] == Typenames(e.input) + [DividerToken] + Typenames(e.output);
    case OutputHeader(output) =>
      OutputEffect(output);
      assert ts[..|ts|-1] == Typenames(output);
  }

  // ----- reading backwards -----

  function Advance(p: Progress, body: seq<Kind>, functions: Functions): Progress {
    p.(body := p.body + Reverse(body), functions := p.functions + functions)
  }

  /** A trivial token in front of everything already read. */
  lemma ReadTrivial(words: Dictionary, level: Level, pre: seq<Token>, t: Token, p: Progress)
    requires Translate(words, t).Some?
    ensures Backward(words, level, pre + [t], p)
        == Backward(words, level, pre, p.(body := p.body + Single(Translate(words, t))))
  {
    assert (pre + [t])[..|pre|] == pre;
  }

  lemma {:induction false} ReadItem(words: Dictionary, level: Level, pre: seq<Token>, item: Item, p: Progress)
    requires ItemFormed(words, level, item) && ItemDistinct(words, item)
    requires FunctionsOfItem(words, item).Keys !! p.functions.Keys
    ensures Backward(words, level, pre + PrintItem(item), p)
         == Backward(words, level, pre, Advance(p, BodyOfItem(words, item), FunctionsOfItem(words, item)))
    decreases item, 0
  {
    match item
    case Leaf(t) => ReadLeaf(words, level, pre, t, p);
    case Block(open, inside) => ReadBlock(words, level, pre, open, inside, p);
    case Fun(key, h, body) => ReadFun(words, level, pre, key, h, body, p);
    case Define(name, size, what) => ReadDefine(words, level, pre, name, size, what, p);
  }

  lemma ReadLeaf(words: Dictionary, level: Level, pre: seq<Token>, t: Token, p: Progress)
    requires Translate(words, t).Some?
    ensures Backward(words, level, pre + [t], p)
        == Backward(words, level, pre, Advance(p, Single(Translate(words, t)), map[]))
  {
    hide Backward;
    hide Translate;
    ReadTrivial(words, level, pre, t, p);
    assert p.functions + map[] == p.functions;
    assert Reverse(Single(Translate(words, t))) == Single(Translate(words, t));
  }

  lemma ReadDefine(words: Dictionary, level: Level, pre: seq<Token>, name: string, size: Token,
      what: Token, p: Progress)
    requires level.Global? && (what.ArrayToken? || what.ConstantToken?)
    ensures Backward(words, level, pre + [Name(name), size, what], p)
        == Backward(words, level, pre, Advance(p, [], map[]))
  {
    var ts := pre + [Name(name), size, what];
    assert ts[..|ts|-3] == pre;
    assert p.body + Reverse([]) == p.body;
    assert p.functions + map[] == p.functions;
  }

  lemma BackwardEnd(words: Dictionary, level: Level, front: seq<Token>, p: Progress, left: nat, p': Progress)
    requires CloseBlock(words, front + [EndToken], p) == More(left, p')
    ensures left <= |front|
    ensures Backward(words, level, front + [EndToken], p) == Backward(words, level, (front + [EndToken])[..left], p')
  {
    hide CloseBlock;
    assert TakeTurn(words, level, front + [EndToken], p) == CloseBlock(words, front + [EndToken], p);
  }

  /** The turn at an `end` whose opener is a block. */
  lemma CloseControl(words: Dictionary, level: Level, pre: seq<Token>, open: Token, inside: Source, p: Progress)
    requires (open.IfToken? || open.WhileToken?) && Formed(words, level, inside)
    ensures Backward(words, level, pre + [open] + Print(inside) + [EndToken], p)
         == Backward(words, level, pre + [open] + Print(inside), p.(body := p.body + [End]))
  {
    hide Opener;
    hide Backward;
    var front := pre + [open] + Print(inside);
    var ts := front + [EndToken];
    assert ts[..|ts|-1] == front;
    OpenerSkips(words, level, pre + [open], inside, 1);
    OpenerSnoc(pre, open, 1);
    OpenerZero(pre);
    assert Opener(front, 1) == Some(|pre|);
    assert ts[|pre|] == open;
    assert CloseBlock(words, ts, p) == More(|front|, p.(body := p.body + [End]));
    BackwardEnd(words, level, front, p, |front|, p.(body := p.body + [End]));
  }

  lemma OpenerZero(pre: seq<Token>)
    ensures Opener(pre, 0) == Some(|pre|)
  {
  }

  lemma {:induction false} ReadBlock(words: Dictionary, level: Level, pre: seq<Token>, open: Token,
      inside: Source, p: Progress)
    requires var item := Block(open, inside);
      ItemFormed(words, level, item) && ItemDistinct(words, item)
          && FunctionsOfItem(words, item).Keys !! p.functions.Keys
    ensures var item := Block(open, inside);
      Backward(words, level, pre + PrintItem(item), p)
        == Backward(words, level, pre, Advance(p, BodyOfItem(words, item), FunctionsOfItem(words, item)))
    decreases inside, 1
  {
    hide Backward;
    hide Translate;
    var item := Block(open, inside);
    Assoc(pre, [open] + Print(inside), [EndToken]);
    Assoc(pre, [open], Print(inside));
    assert pre + PrintItem(item) == pre + [open] + Print(inside) + [EndToken];
    CloseControl(words, level, pre, open, inside, p);
    var p1 := p.(body := p.body + [End]);
    ReadSource(words, level, pre + [open], inside, p1);
    var p2 := Advance(p1, BodyOf(words, inside), FunctionsOf(words, inside));
    OpenTranslates(words, open);
    ReadTrivial(words, level, pre, open, p2);
    var k := Single(Translate(words, open));
    ReverseConcat(k + BodyOf(words, inside), [End]);
    ReverseConcat(k, BodyOf(words, inside));
    assert Reverse(k) == k && Reverse([End]) == [End];
    assert p2.body + k == p.body + Reverse(k + BodyOf(words, inside) + [End]);
    assert p2.(body := p2.body + k) == Advance(p, BodyOfItem(words, item), FunctionsOfItem(words, item));
  }

  lemma OpenTranslates(words: Dictionary, open: Token)
    requires open.IfToken? || open.WhileToken?
    ensures Translate(words, open).Some?
  {
  }

  /** A function's own tokens, header included, read on their own. */
  lemma {:induction false} ReadFunctionBody(words: Dictionary, h: Header, body: Source, functions: Functions)
    requires Formed(words, Inside, body) && Distinct(words, body) && FunctionsOf(words, body).Keys !! functions.Keys
    ensures Backward(words, Inside, PrintHeader(h) + Print(body), Progress([], functions, false, None))
         == Done(Progress(BodyOf(words, body), functions + FunctionsOf(words, body), h.DynamicHeader?, EffectOf(h)))
    decreases body, 1
  {
    hide Backward;
    var p := Progress([], functions, false, None);
    ReadSource(words, Inside, PrintHeader(h), body, p);
    var p1 := Advance(p, BodyOf(words, body), FunctionsOf(words, body));
    assert p1.body == Reverse(BodyOf(words, body));
    ReverseTwice(BodyOf(words, body));
    ReadHeader(words, h, p1);
  }

  /** What a header adds to whatever an earlier definition declared. */
  function Declared(h: Header, p: Progress): Progress {
    p.(dynamic := h.DynamicHeader? || p.dynamic, effect := if EffectOf(h).Some? then EffectOf(h) else p.effect)
  }

  lemma ReadHeader(words: Dictionary, h: Header, p: Progress)
    ensures Backward(words, Inside, PrintHeader(h), p) == Done(Declared(h, p.(body := Reverse(p.body))))
  {
    match h
    case NoHeader =>
    case DynamicHeader =>
    case TypedHeader(_) => HeaderEffect(h);
    case OutputHeader(_) => HeaderEffect(h);
  }

  /** The turn at an `end` whose opener is a function. */
  lemma CloseFunction(words: Dictionary, level: Level, pre: seq<Token>, key: Key, h: Header, body: Source, p: Progress,
      inner: Progress)
    requires key in words && Formed(words, Inside, body)
    requires Backward(words, Inside, PrintHeader(h) + Print(body), Resume(p.functions, key)) == Done(inner)
    ensures Backward(words, level, pre + Opening(key) + (PrintHeader(h) + Print(body)) + [EndToken], p)
         == Backward(words, level, pre, AfterFunction(words, key, p, Record(inner, key)))
  {
    hide Opener;
    hide Backward;
    hide AfterFunction;
    hide Record;
    hide Resume;
    var text := PrintHeader(h) + Print(body);
    var front := pre + Opening(key) + text;
    var ts := front + [EndToken];
    var n := |ts| - 1;
    assert ts[..n] == front;
    OpenerSkipsFunction(words, pre + Opening(key), h, body, 1);
    OpenerOfOpening(pre, key, 0);
    var k := |pre| + |Opening(key)| - 1;
    assert ts[k] == Opening(key)[|Opening(key)|-1];
    assert ts[k + 1..n] == text;
    if key.Named? {
      assert ts[k - 1] == Name(key.name);
    }
    assert KeyAt(ts, k) == Some(key);
    assert ts[..Cut(ts, k)] == pre;
    assert CloseBlock(words, ts, p) == More(Cut(ts, k), AfterFunction(words, key, p, Record(inner, key)));
    BackwardEnd(words, level, front, p, Cut(ts, k), AfterFunction(words, key, p, Record(inner, key)));
  }

  lemma {:induction false} ReadFun(words: Dictionary, level: Level, pre: seq<Token>, key: Key, h: Header,
      body: Source, p: Progress)
    requires var item := Fun(key, h, body);
      ItemFormed(words, level, item) && ItemDistinct(words, item)
          && FunctionsOfItem(words, item).Keys !! p.functions.Keys
    ensures var item := Fun(key, h, body);
      Backward(words, level, pre + PrintItem(item), p)
        == Backward(words, level, pre, Advance(p, BodyOfItem(words, item), FunctionsOfItem(words, item)))
    decreases body, 2
  {
    hide Backward;
    var item, text := Fun(key, h, body), PrintHeader(h) + Print(body);
    Assoc(pre, Opening(key) + text, [EndToken]);
    Assoc(pre, Opening(key), text);
    assert pre + PrintItem(item) == pre + Opening(key) + text + [EndToken];
    assert key in FunctionsOfItem(words, item);
    assert FunctionsOf(words, body).Keys <= FunctionsOfItem(words, item).Keys;
    ReadFunctionBody(words, h, body, p.functions);
    var inner := Progress(BodyOf(words, body), p.functions + FunctionsOf(words, body), h.DynamicHeader?, EffectOf(h));
    CloseFunction(words, level, pre, key, h, body, p, inner);
    assert Record(inner, key) == p.functions + FunctionsOfItem(words, item);
    var left := BodyOfItem(words, item);
    assert Reverse(left) == left;
    assert AfterFunction(words, key, p, Record(inner, key)) == Advance(p, left, FunctionsOfItem(words, item));
  }

  lemma AdvanceTwice(p: Progress, a: seq<Kind>, fa: Functions, b: seq<Kind>, fb: Functions)
    requires fa.Keys !! fb.Keys
    ensures Advance(Advance(p, b, fb), a, fa) == Advance(p, a + b, fa + fb)
  {
    ReverseConcat(a, b);
    Assoc(p.body, Reverse(b), Reverse(a));
  }

  /** Reading printed source from its end adds its translation, reversed, and its functions. */
  lemma {:induction false} ReadSource(words: Dictionary, level: Level, pre: seq<Token>, source: Source, p: Progress)
    requires Formed(words, level, source) && Distinct(words, source)
    requires FunctionsOf(words, source).Keys !! p.functions.Keys
    ensures Backward(words, level, pre + Print(source), p)
         == Backward(words, level, pre, Advance(p, BodyOf(words, source), FunctionsOf(words, source)))
    decreases source, 0
  {
    hide Backward;
    hide Advance;
    match source
    case Empty =>
      AdvanceNothing(p);
      assert pre + Print(source) == pre;
    case Then(item, rest) =>
      Assoc(pre, PrintItem(item), Print(rest));
      ReadSource(words, level, pre + PrintItem(item), rest, p);
      var p1 := Advance(p, BodyOf(words, rest), FunctionsOf(words, rest));
      KeysAdvance(p, BodyOf(words, rest), FunctionsOf(words, rest));
      KeysUnion(FunctionsOfItem(words, item), FunctionsOf(words, rest));
      ReadItem(words, level, pre, item, p1);
      AdvanceTwice(p, BodyOfItem(words, item), FunctionsOfItem(words, item), BodyOf(words, rest),
          FunctionsOf(words, rest));
  }

  lemma AdvanceNothing(p: Progress)
    ensures Advance(p, [], map[]) == p
  {
  }

  lemma KeysUnion(f: Functions, g: Functions)
    ensures (f + g).Keys == f.Keys + g.Keys
  {
  }

  lemma KeysAdvance(p: Progress, body: seq<Kind>, functions: Functions)
    ensures Advance(p, body, functions).functions.Keys == p.functions.Keys + functions.Keys
  {
  }

  /**
   Reading the tokens of nested source backwards gives the direct translation: the body of `main`, and
   every function, nested and anonymous ones included, with its own body, effect and dynamic mark.
   */
  lemma BackwardIsForward(words: Dictionary, source: Source)
    requires Formed(words, Global, source) && Distinct(words, source)
    ensures Backward(words, Global, Print(source), Progress([], map[], false, None))
         == Done(Progress(BodyOf(words, source), FunctionsOf(words, source), false, None))
  {
    var p := Progress([], map[], false, None);
    assert [] + Print(source) == Print(source);
    ReadSource(words, Global, [], source, p);
    ReverseTwice(BodyOf(words, source));
    assert [] + Reverse(BodyOf(words, source)) == Reverse(BodyOf(words, source));
    assert map[] + FunctionsOf(words, source) == FunctionsOf(words, source);
  }

  /** The second of two definitions of `key`, read first. */
  lemma RedefinitionSecond(words: Dictionary, key: Key, pre: seq<Token>, h: Header, b: Source)
    requires key.Named? && key in words && key !in FunctionsOf(words, b)
    requires Formed(words, Inside, b) && Distinct(words, b)
    ensures var def := FunctionDef(BodyOf(words, b), h.DynamicHeader?, EffectOf(h));
      Backward(words, Global, pre + PrintItem(Fun(key, h, b)), Progress([], map[], false, None))
        == Backward(words, Global, pre, Progress([], FunctionsOf(words, b)[key := def], false, None))
  {
    hide Backward;
    ReadFun(words, Global, pre, key, h, b, Progress([], map[], false, None));
    assert [] + Reverse<Kind>([]) == [];
    assert map[] + FunctionsOfItem(words, Fun(key, h, b)) == FunctionsOfItem(words, Fun(key, h, b));
  }

  lemma RedefinitionInner(words: Dictionary, h: Header, a: Source, p: Progress)
    requires Formed(words, Inside, a) && Distinct(words, a) && FunctionsOf(words, a).Keys !! p.functions.Keys
    ensures Backward(words, Inside, PrintHeader(h) + Print(a), p)
         == Done(Declared(h, p.(body := BodyOf(words, a) + Reverse(p.body),
             functions := p.functions + FunctionsOf(words, a))))
  {
    hide Backward;
    ReadSource(words, Inside, PrintHeader(h), a, p);
    ReadHeader(words, h, Advance(p, BodyOf(words, a), FunctionsOf(words, a)));
    ReverseConcat(p.body, Reverse(BodyOf(words, a)));
    ReverseTwice(BodyOf(words, a));
  }

  /**
   A function defined twice keeps neither body: it gets the first followed by the second back to front, is dynamic
   if either was, and has the first effect declared.
   */
  lemma RedefinitionMixes(words: Dictionary, key: Key, ha: Header, a: Source, hb: Header, b: Source)
    requires key.Named? && key in words && key !in FunctionsOf(words, a) && key !in FunctionsOf(words, b)
    requires Formed(words, Inside, a) && Distinct(words, a) && Formed(words, Inside, b) && Distinct(words, b)
    requires FunctionsOf(words, a).Keys !! FunctionsOf(words, b).Keys
    ensures var r := Backward(words, Global, Print(Then(Fun(key, ha, a), Then(Fun(key, hb, b), Empty))),
        Progress([], map[], false, None));
      && r.Done? && r.progress.body == [] && key in r.progress.functions
      && r.progress.functions[key] == FunctionDef(BodyOf(words, a) + Reverse(BodyOf(words, b)), ha.DynamicHeader?
          || hb.DynamicHeader?,
                                                  if EffectOf(ha).Some? then EffectOf(ha) else EffectOf(hb))
  {
    hide Backward;
    var first, second := Fun(key, ha, a), Fun(key, hb, b);
    var source := Then(first, Then(second, Empty));
    assert Print(source) == PrintItem(first) + PrintItem(second);
    RedefinitionSecond(words, key, PrintItem(first), hb, b);
    RedefinitionFirst(words, key, ha, a, FunctionsOf(words, b),
        FunctionDef(BodyOf(words, b), hb.DynamicHeader?, EffectOf(hb)));
  }

  lemma RedefinitionFirst(words: Dictionary, key: Key, h: Header, a: Source, known: Functions, def: FunctionDef)
    requires key.Named? && key in words && key !in FunctionsOf(words, a) && key !in known
    requires Formed(words, Inside, a) && Distinct(words, a) && FunctionsOf(words, a).Keys !! known.Keys
    ensures var r := Backward(words, Global, PrintItem(Fun(key, h, a)), Progress([], known[key := def], false, None));
      && r.Done? && r.progress.body == [] && key in r.progress.functions
      && r.progress.functions[key] == FunctionDef(BodyOf(words, a) + Reverse(def.body), h.DynamicHeader? || def.dynamic,
                                                  if EffectOf(h).Some? then EffectOf(h) else def.effect)
  {
    hide Backward;
    hide PrintHeader;
    var all := known[key := def];
    var p := Progress([], all, false, None);
    RedefinitionInner(words, h, a, Resume(all, key));
    var inner := Backward(words, Inside, PrintHeader(h) + Print(a), Resume(all, key)).progress;
    CloseFunction(words, Global, [], key, h, a, p, inner);
    assert PrintItem(Fun(key, h, a)) == [] + Opening(key) + (PrintHeader(h) + Print(a)) + [EndToken];
    NothingLeft(words, AfterFunction(words, key, p, Record(inner, key)));
  }

  lemma NothingLeft(words: Dictionary, p: Progress)
    ensures Backward(words, Global, [], p) == Finish(p)
  {
  }
}
