/**
 `into_operations` and `function_into_operations`: tokens are read backwards, every `end` counts its way
 back to its opener, functions are split out on the way, and each body is reversed at the end. All of it
 amounts to a direct translation of the nested source, read forwards.
 */
module Parsing {
  import opened Wrappers
  import opened Words
  import opened Operations
  import opened Types

  // ----- tokens and words -----

  datatype Token =
    | Name(name: string)
    | AddressOf(name: string)
    | Integer(value: Word)
    | Text(id: nat)
    | Boolean(truth: bool)
    | Typename(ty: Type)
    | ReturnToken
    | IfToken
    | ElseToken
    | WhileToken
    | DoToken
    | EndToken
    | FunctionToken
    | LambdaToken(number: nat)
    | ArrayToken
    | ConstantToken
    | DynamicToken
    | DividerToken
    | DefinitionToken

  /** `LambdaToken`s carry the number their anonymous function was registered under. */
  datatype Key = Named(name: string) | Anonymous(number: nat)

  datatype EntryKind = IntrinsicWord(intrinsic: Intrinsic) | IntegerWord(value: Word) | ArrayWord | FunctionWord

  datatype Entry = Entry(id: nat, kind: EntryKind)

  /** The registered words. */
  type Dictionary = map<Key, Entry>

  datatype FunctionDef = FunctionDef(body: seq<Kind>, dynamic: bool, effect: Option<StackEffect>)

  type Functions = map<Key, FunctionDef>

  datatype Failure =
    | UnexpectedEnd
    | DefinitionInside
    | MisplacedDynamic
    | BadEffect
    | Nameless
    | UnknownWord
    | Untranslatable

  /** A word as `translate_operation` finds it. */
  function TranslateWord(entry: Entry): Plain {
    match entry.kind
    case IntrinsicWord(i) => Intrinsic(i)
    case IntegerWord(v) => PushInt(v, Int)
    case ArrayWord => PushSymbol(ArraySymbol(entry.id))
    case FunctionWord => CallSymbol(entry.id)
  }

  /** `translate_operation`: what a single token stands for. */
  function Translate(words: Dictionary, t: Token): Option<Kind> {
    match t
    case Name(name) => if Named(name) in words then Some(Plain(TranslateWord(words[Named(name)]))) else None
    case AddressOf(name) => if Named(name) in words then Some(Plain(PushSymbol(FunctionSymbol(words[Named(name)].id))))
        else None
    case Integer(v) => Some(Plain(PushInt(v, Int)))
    case Text(id) => Some(Plain(PushSymbol(StringSymbol(id))))
    case Boolean(b) => Some(Plain(PushInt(FromBool(b), Bool)))
    case Typename(ty) => Some(Plain(Cast(ty)))
    case ReturnToken => Some(Plain(Return))
    case IfToken => Some(If)
    case ElseToken => Some(Else)
    case WhileToken => Some(While)
    case DoToken => Some(Do)
    case _ => None
  }

  // ----- matching an end -----

  predicate Opens(t: Token) {
    t.FunctionToken? || t.LambdaToken? || t.IfToken? || t.WhileToken?
  }

  /** Reading backwards from the last token with `c` ends open: the index of the opener that closes the last of them. */
  function Opener(ts: seq<Token>, c: nat): (r: Option<nat>)
    ensures r.Some? && c > 0 ==> r.value < |ts| && Opens(ts[r.value])
  {
    if c == 0 then Some(|ts|)
    else if ts == [] then None
    else
      var n := |ts| - 1;
      Opener(ts[..n], if ts[n].EndToken? then c + 1 else if Opens(ts[n]) then c - 1 else c)
  }

  /** The openers a forward parser has on its stack behind these tokens; none if an `end` came too early. */
  function OpenStack(ts: seq<Token>): Option<seq<nat>> {
    if ts == [] then Some([])
    else
      var n := |ts| - 1;
      match OpenStack(ts[..n])
      case None => None
      case Some(stack) =>
        if Opens(ts[n]) then Some(stack + [n])
        else if !ts[n].EndToken? then Some(stack)
        else if stack == [] then None
        else Some(stack[..|stack|-1])
  }

  /** Counting backwards finds the openers of the forward stack, innermost first, and nothing beyond it. */
  lemma {:induction false} CountingMatchesStack(ts: seq<Token>, c: nat)
    requires OpenStack(ts).Some? && c > 0
    ensures var stack := OpenStack(ts).value;
      Opener(ts, c) == if c <= |stack| then Some(stack[|stack|-c]) else None
    decreases |ts|
  {
    if ts != [] {
      var n := |ts| - 1;
      var c' := if ts[n].EndToken? then c + 1 else if Opens(ts[n]) then c - 1 else c;
      if c' > 0 {
        CountingMatchesStack(ts[..n], c');
      }
    }
  }

  /** The search for an opener as the parser runs it, with an index and a count. */
  method FindOpener(ts: seq<Token>, i: nat) returns (r: Option<nat>)
    requires i <= |ts|
    ensures r == Opener(ts[..i], 1)
    ensures OpenStack(ts[..i]).Some? ==>
      var stack := OpenStack(ts[..i]).value; r == if stack == [] then None else Some(stack[|stack|-1])
  {
    var ends: nat, start: nat := 1, i;
    while start > 0 && ends > 0
      invariant start <= i
      invariant Opener(ts[..i], 1) == Opener(ts[..start], ends)
    {
      start := start - 1;
      assert ts[..start + 1][..start] == ts[..start];
      if ts[start].EndToken? {
        ends := ends + 1;
      } else if Opens(ts[start]) {
        ends := ends - 1;
      }
    }
    r := if ends == 0 then Some(start) else None;
    if OpenStack(ts[..i]).Some? {
      CountingMatchesStack(ts[..i], 1);
    }
  }

  // ----- the backward reading -----

  datatype Level = Global | Inside

  /** `body` is still reversed. */
  datatype Progress = Progress(body: seq<Kind>, functions: Functions, dynamic: bool, effect: Option<StackEffect>)

  datatype Parsed = Done(progress: Progress) | Failed(why: Failure)

  function Reverse<T>(s: seq<T>): (r: seq<T>)
    ensures |r| == |s|
  {
    seq(|s|, i requires 0 <= i < |s| => s[|s| - 1 - i])
  }

  function Finish(p: Progress): Parsed {
    Done(p.(body := Reverse(p.body)))
  }

  /** A stack effect read backwards; `input` says that the divider has been seen. */
  function ReadEffect(ts: seq<Token>, input: bool, effect: StackEffect): Option<StackEffect> {
    if ts == [] then Some(StackEffect(Reverse(effect.input), Reverse(effect.output)))
    else
      var n := |ts| - 1;
      match ts[n]
      case DividerToken => if input then None else ReadEffect(ts[..n], true, effect)
      case Typename(ty) =>
        ReadEffect(ts[..n], input, if input then effect.(input := effect.input + [ty])
            else effect.(output := effect.output + [ty]))
      case _ => None
  }

  /** What a function has gathered from an earlier definition of the same name. */
  function Resume(functions: Functions, key: Key): Progress {
    if key in functions then
      var def := functions[key];
      Progress(def.body, functions, def.dynamic, def.effect)
    else Progress([], functions, false, None)
  }

  function Record(p: Progress, key: Key): Functions {
    p.functions[key := FunctionDef(p.body, p.dynamic, p.effect)]
  }

  /** The function an `end` at the last token closes, once its opener is known to be at `k`. */
  function KeyAt(ts: seq<Token>, k: nat): Option<Key>
    requires k < |ts|
  {
    if ts[k].LambdaToken? then Some(Anonymous(ts[k].number))
    else if k > 0 && ts[k-1].Name? then Some(Named(ts[k-1].name))
    else None
  }

  /** One turn of the loop: an end to the reading, or how many tokens are left. */
  datatype Turn = Stop(result: Parsed) | More(left: nat, progress: Progress)

  /** The turn at an `end`. */
  function CloseBlock(words: Dictionary, ts: seq<Token>, p: Progress): (r: Turn)
    requires ts != []
    ensures r.More? ==> r.left < |ts|
    decreases |ts|, 0
  {
    var n := |ts| - 1;
    match Opener(ts[..n], 1)
    case None => Stop(Failed(UnexpectedEnd))
    case Some(k) =>
      if ts[k].IfToken? || ts[k].WhileToken? then More(n, p.(body := p.body + [End]))
      else
        match KeyAt(ts, k)
        case None => Stop(Failed(Nameless))
        case Some(key) =>
          if key !in words then Stop(Failed(UnknownWord))
          else
            match Backward(words, Inside, ts[k+1..n], Resume(p.functions, key))
            case Failed(why) => Stop(Failed(why))
            case Done(inner) => More(Cut(ts, k), AfterFunction(words, key, p, Record(inner, key)))
  }

  function TakeTurn(words: Dictionary, level: Level, ts: seq<Token>, p: Progress): (r: Turn)
    requires ts != []
    ensures r.More? ==> r.left < |ts|
    decreases |ts|, 1
  {
    var n := |ts| - 1;
    match ts[n]
    case ArrayToken => if level.Global? then More(if n < 2 then 0 else n - 2, p) else Stop(Failed(DefinitionInside))
    case ConstantToken => if level.Global? then More(if n < 2 then 0 else n - 2, p) else Stop(Failed(DefinitionInside))
    case DynamicToken =>
      if level.Global? then Stop(Failed(Untranslatable))
      else if n > 0 then Stop(Failed(MisplacedDynamic))
      else Stop(Finish(p.(dynamic := true)))
    case DefinitionToken =>
      if level.Global? then Stop(Failed(Untranslatable))
      else (match ReadEffect(ts[..n], false, StackEffect([], []))
            case None => Stop(Failed(BadEffect))
            case Some(effect) => Stop(Finish(p.(effect := Some(effect)))))
    case EndToken => CloseBlock(words, ts, p)
    case _ => Trivial(Translate(words, ts[n]), n, p)
  }

  /** A token that stands for one operation. */
  function Trivial(kind: Option<Kind>, left: nat, p: Progress): Turn {
    match kind
    case None => Stop(Failed(Untranslatable))
    case Some(k) => More(left, p.(body := p.body + [k]))
  }

  function Backward(words: Dictionary, level: Level, ts: seq<Token>, p: Progress): Parsed
    decreases |ts|, 2
  {
    if ts == [] then Finish(p)
    else
      match TakeTurn(words, level, ts, p)
      case Stop(r) => r
      case More(left, p') => Backward(words, level, ts[..left], p')
  }

  /** Where reading goes on: before the name, or before the `&fun`. */
  function Cut(ts: seq<Token>, k: nat): nat {
    if k < |ts| && !ts[k].LambdaToken? && k > 0 then k - 1 else k
  }

  /** An anonymous function leaves its address behind; a named one leaves nothing. */
  function AfterFunction(words: Dictionary, key: Key, p: Progress, functions: Functions): Progress
    requires key in words
  {
    Progress(if key.Anonymous? then p.body + [Plain(PushSymbol(FunctionSymbol(words[key].id)))] else p.body,
             functions, p.dynamic, p.effect)
  }

  // ----- the parser -----

  class Parser {
    const words: Dictionary
    var functions: Functions

    constructor (words: Dictionary)
      ensures this.words == words && functions == map[]
    {
      this.words := words;
      functions := map[];
    }

    /** `Stack_Effect_Definition`: the types before `is`, backwards. */
    method StackEffectBefore(ts: seq<Token>, i: nat) returns (r: Option<StackEffect>)
      requires i <= |ts|
      ensures r == ReadEffect(ts[..i], false, StackEffect([], []))
    {
      var divider, effect, j: nat := false, StackEffect([], []), i;
      while j > 0
        invariant j <= i
        invariant ReadEffect(ts[..i], false, StackEffect([], [])) == ReadEffect(ts[..j], divider, effect)
      {
        j := j - 1;
        assert ts[..j + 1][..j] == ts[..j];
        match ts[j] {
          case DividerToken =>
            if divider {
              return None;
            }
            divider := true;
          case Typename(ty) =>
            effect := if divider then effect.(input := effect.input + [ty])
                else effect.(output := effect.output + [ty]);
          case _ =>
            return None;
        }
      }
      r := Some(StackEffect(Reverse(effect.input), Reverse(effect.output)));
    }

    /** The `end` at index `i`. */
    method CloseAt(ts: seq<Token>, i: nat, p: Progress) returns (r: Turn)
      requires i < |ts| && p.functions == functions
      modifies this
      ensures r == CloseBlock(words, ts[..i + 1], p)
      ensures r.More? ==> functions == r.progress.functions
      decreases i + 1, 0
    {
      ghost var now := ts[..i + 1];
      assert now[..i] == ts[..i];
      var opener := FindOpener(ts, i);
      if opener.None? {
        return Stop(Failed(UnexpectedEnd));
      }
      var k := opener.value;
      assert now[k] == ts[k];
      if ts[k].IfToken? || ts[k].WhileToken? {
        return More(i, p.(body := p.body + [End]));
      }
      var key := KeyAt(ts, k);
      assert KeyAt(now, k) == key;
      if key.None? {
        return Stop(Failed(Nameless));
      }
      if key.value !in words {
        return Stop(Failed(UnknownWord));
      }
      assert now[k + 1..i] == ts[k + 1..i];
      var inner := Read(Inside, ts[k + 1..i], Resume(functions, key.value));
      if inner.Failed? {
        return Stop(inner);
      }
      functions := Record(inner.progress, key.value);
      r := More(Cut(ts, k), AfterFunction(words, key.value, p, functions));
    }

    /** The token at index `i`. */
    method ReadToken(level: Level, ts: seq<Token>, i: nat, p: Progress) returns (r: Turn)
      requires i < |ts| && p.functions == functions
      modifies this
      ensures r == TakeTurn(words, level, ts[..i + 1], p)
      ensures r.More? ==> functions == r.progress.functions
      ensures r.Stop? && r.result.Done? ==> functions == r.result.progress.functions
      decreases i + 1, 1
    {
      ghost var now := ts[..i + 1];
      assert now[..i] == ts[..i] && now[i] == ts[i];
      match ts[i] {
        case ArrayToken =>
          r := if level.Global? then More(if i < 2 then 0 else i - 2, p) else Stop(Failed(DefinitionInside));
        case ConstantToken =>
          r := if level.Global? then More(if i < 2 then 0 else i - 2, p) else Stop(Failed(DefinitionInside));
        case DynamicToken =>
          r := Stop(if level.Global? then Failed(Untranslatable) else if i > 0 then Failed(MisplacedDynamic)
              else Finish(p.(dynamic := true)));
        case DefinitionToken =>
          if level.Global? {
            return Stop(Failed(Untranslatable));
          }
          var declared := StackEffectBefore(ts, i);
          r := Stop(if declared.None? then Failed(BadEffect) else Finish(p.(effect := declared)));
        case EndToken =>
          r := CloseAt(ts, i, p);
        case _ =>
          r := Trivial(Translate(words, ts[i]), i, p);
      }
    }

    /** `function_into_operations`, and `into_operations` at the top. */
    method Read(level: Level, ts: seq<Token>, start: Progress) returns (r: Parsed)
      requires start.functions == functions
      modifies this
      ensures r == Backward(words, level, ts, start)
      ensures r.Done? ==> functions == r.progress.functions
      decreases |ts|, 2
    {
      var p, n: nat := start, |ts|;
      assert ts[..n] == ts;
      while n > 0
        invariant n <= |ts| && p.functions == functions
        invariant Backward(words, level, ts, start) == Backward(words, level, ts[..n], p)
      {
        var turn := ReadToken(level, ts, n - 1, p);
        if turn.Stop? {
          return turn.result;
        }
        assert ts[..n][..turn.left] == ts[..turn.left];
        p, n := turn.progress, turn.left;
      }
      r := Finish(p);
    }

    /** The whole program: the body of `main`, and every function in `functions`. */
    method IntoOperations(ts: seq<Token>) returns (r: Parsed)
      modifies this
      ensures r == Backward(words, Global, ts, Progress([], map[], false, None))
      ensures r.Done? ==> functions == r.progress.functions
    {
      functions := map[];
      r := Read(Global, ts, Progress([], map[], false, None));
    }
  }
}
