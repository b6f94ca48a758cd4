/** Types, stack effects and the effects of every operation the checker knows. */
module Types {
  import opened Wrappers
  import opened Words
  import opened Operations
  import opened Machine

  datatype StackEffect = StackEffect(input: seq<Type>, output: seq<Type>)

  datatype FunctionDecl = FunctionDecl(body: seq<Operation>, effect: Option<StackEffect>)

  type Declarations = map<nat, FunctionDecl>

  /** `Type::operator==`: `Any` equals everything, so this is not transitive. */
  predicate TypeEqual(a: Type, b: Type) {
    a.Any? || b.Any? || a == b || (a.Variable? && b.Variable?)
  }

  // ----- matching one effect -----

  /** Compares one stack entry with one declared input, binding type variables on first sight. */
  function Bind(generics: map<nat, Type>, onStack: Type, declared: Type): Option<map<nat, Type>> {
    if declared.Variable? then
      if declared.id in generics then
        if TypeEqual(generics[declared.id], onStack) then Some(generics) else None
      else Some(generics[declared.id := onStack])
    else if TypeEqual(onStack, declared) then Some(generics) else None
  }

  /** Matches inputs from the top of the stack down, `k` of them already matched. */
  function MatchInputs(st: seq<Type>, input: seq<Type>, k: nat, generics: map<nat, Type>): Option<map<nat, Type>>
    requires k <= |input|
    decreases |input| - k
  {
    if k == |input| then Some(generics)
    else if k >= |st| then None
    else
      match Bind(generics, st[|st| - 1 - k], input[|input| - 1 - k])
      case None => None
      case Some(g) => MatchInputs(st, input, k + 1, g)
  }

  /** The outputs with type variables replaced; `None` when one was never bound. */
  function Substitute(output: seq<Type>, generics: map<nat, Type>): Option<seq<Type>> {
    if output == [] then Some([])
    else
      var n := |output| - 1;
      match Substitute(output[..n], generics)
      case None => None
      case Some(rest) =>
        if !output[n].Variable? then Some(rest + [output[n]])
        else if output[n].id in generics then Some(rest + [generics[output[n].id]])
        else None
  }

  /** The first effect whose inputs match is applied; without one the program is rejected. */
  function ApplyEffects(st: seq<Type>, effects: seq<StackEffect>): Option<seq<Type>> {
    if effects == [] then None
    else
      match MatchInputs(st, effects[0].input, 0, map[])
      case None => ApplyEffects(st, effects[1..])
      case Some(g) =>
        (match Substitute(effects[0].output, g)
         case None => None
         case Some(out) => if |effects[0].input| <= |st| then Some(st[..|st| - |effects[0].input|] + out) else None)
  }

  /** `typecheck_stack_effects`, up to its error messages. */
  method TypecheckStackEffects(st: seq<Type>, effects: seq<StackEffect>) returns (r: Option<seq<Type>>)
    ensures r == ApplyEffects(st, effects)
  {
    var id := 0;
    while id < |effects|
      invariant id <= |effects|
      invariant ApplyEffects(st, effects[id..]) == ApplyEffects(st, effects)
    {
      var effect := effects[id];
      var generics: map<nat, Type> := map[];
      var k := 0;
      var matched := true;
      while matched && k < |effect.input|
        invariant k <= |effect.input|
        invariant matched ==> MatchInputs(st, effect.input, k, generics) == MatchInputs(st, effect.input, 0, map[])
        invariant !matched ==> MatchInputs(st, effect.input, 0, map[]) == None
        decreases matched, |effect.input| - k
      {
        if k >= |st| {
          matched := false;
        } else {
          var g := Bind(generics, st[|st| - 1 - k], effect.input[|effect.input| - 1 - k]);
          if g.None? {
            matched := false;
          } else {
            generics, k := g.value, k + 1;
          }
        }
      }
      if matched {
        MatchedFits(st, effect.input, 0, map[]);
        var out := Substitute(effect.output, generics);
        return if out.None? then None else Some(st[..|st| - |effect.input|] + out.value);
      }
      id := id + 1;
    }
    r := None;
  }

  lemma {:induction false} MatchedFits(st: seq<Type>, input: seq<Type>, k: nat, generics: map<nat, Type>)
    requires k <= |input| && (k > 0 ==> k <= |st|) && MatchInputs(st, input, k, generics).Some?
    ensures |input| <= |st| || |input| == k
    decreases |input| - k
  {
    if k < |input| && k < |st| {
      var g := Bind(generics, st[|st| - 1 - k], input[|input| - 1 - k]).value;
      MatchedFits(st, input, k + 1, g);
    }
  }

  lemma {:induction false} SubstituteLength(output: seq<Type>, generics: map<nat, Type>)
    requires Substitute(output, generics).Some?
    ensures |Substitute(output, generics).value| == |output|
    decreases |output|
  {
    if output != [] {
      SubstituteLength(output[..|output| - 1], generics);
    }
  }

  // ----- the effects of operations -----

  function E(input: seq<Type>, output: seq<Type>): StackEffect {
    StackEffect(input, output)
  }

  function V(n: nat): Type {
    Variable(n)
  }

  function BinaryEffects(op: BinaryOp): seq<StackEffect> {
    match op
    case Add => [E([Pointer, Int], [Pointer]), E([Int, Pointer], [Pointer]), E([Int, Int], [Int])]
    case Subtract => [E([Pointer, Pointer], [Int]), E([Pointer, Int], [Pointer]), E([Int, Int], [Int])]
    case Less => Comparison()
    case LessEq => Comparison()
    case Greater => Comparison()
    case GreaterEq => Comparison()
    case Equal => Comparison()
    case NotEqual => Comparison()
    case BooleanAnd => [E([Bool, Bool], [Bool])]
    case BooleanOr => [E([Bool, Bool], [Bool])]
    case _ => [E([Int, Int], [Int])]
  }

  function Comparison(): seq<StackEffect> {
    [E([Pointer, Pointer], [Bool]), E([Int, Int], [Bool]), E([Bool, Bool], [Bool])]
  }

  function ShuffleEffect(s: ShuffleOp): StackEffect {
    match s
    case Drop => E([Any], [])
    case TwoDrop => E([Any, Any], [])
    case Dup => E([V(1)], [V(1), V(1)])
    case TwoDup => E([V(1), V(2)], [V(1), V(2), V(1), V(2)])
    case Over => E([V(1), V(2)], [V(1), V(2), V(1)])
    case TwoOver => E([V(1), V(2), V(3), V(4)], [V(1), V(2), V(3), V(4), V(1), V(2)])
    case Swap => E([V(1), V(2)], [V(2), V(1)])
    case TwoSwap => E([V(1), V(2), V(3), V(4)], [V(3), V(4), V(1), V(2)])
    case Tuck => E([V(1), V(2)], [V(2), V(1), V(2)])
    case Rot => E([V(1), V(2), V(3)], [V(2), V(3), V(1)])
  }

  function Variables(n: nat): (r: seq<Type>)
    ensures |r| == n
  {
    seq(n, i requires 0 <= i < n => V(i + 1))
  }

  /** `call` is not supported by the checker. */
  function IntrinsicEffects(i: Intrinsic): seq<StackEffect> {
    match i
    case Binary(op) => BinaryEffects(op)
    case Shuffle(s) => [ShuffleEffect(s)]
    case DivMod => [E([Int, Int], [Int, Int])]
    case BooleanNegate => [E([Bool], [Bool])]
    case Load(_) => [E([Pointer], [Int])]
    case Store(_) => [E([Pointer, Any], [])]
    case Top => [E([V(1)], [V(1), Pointer])]
    case Argv => [E([], [Pointer])]
    case Argc => [E([], [Int])]
    case Random32 => [E([], [Int])]
    case Random64 => [E([], [Int])]
    case Syscall(count) => [E(Variables(count) + [Int], [Int])]
    case Call => []
  }

  function PlainEffects(decls: Declarations, p: Plain): seq<StackEffect>
    requires !p.Return?
  {
    match p
    case PushInt(_, ty) => [E([], [ty])]
    case PushSymbol(_) => [E([], [Pointer])]
    case Cast(ty) => [E([Any], [ty])]
    case Intrinsic(i) => IntrinsicEffects(i)
    case CallSymbol(id) => if id in decls && decls[id].effect.Some? then [decls[id].effect.value] else []
  }

  /** What the checker does to its type stack at an operation that falls through. */
  function CheckPlain(decls: Declarations, p: Plain, st: seq<Type>): Option<seq<Type>>
    requires !p.Return?
  {
    match p
    case PushInt(_, ty) => Some(st + [ty])
    case PushSymbol(_) => Some(st + [Pointer])
    case _ => ApplyEffects(st, PlainEffects(decls, p))
  }

  // ----- heights -----

  function Inputs(decls: Declarations, p: Plain): nat
    requires !p.Return?
  {
    var e := PlainEffects(decls, p);
    if e == [] then 0 else |e[0].input|
  }

  function Outputs(decls: Declarations, p: Plain): nat
    requires !p.Return?
  {
    var e := PlainEffects(decls, p);
    if e == [] then 0 else |e[0].output|
  }

  /** All alternatives of an operation move the stack alike. */
  ghost predicate Uniform(effects: seq<StackEffect>, input: nat, output: nat) {
    forall k :: 0 <= k < |effects| ==> |effects[k].input| == input && |effects[k].output| == output
  }

  lemma EffectsUniform(decls: Declarations, p: Plain)
    requires !p.Return?
    ensures Uniform(PlainEffects(decls, p), Inputs(decls, p), Outputs(decls, p))
  {
  }

  lemma {:induction false} AppliedHeight(st: seq<Type>, effects: seq<StackEffect>, input: nat, output: nat)
    requires Uniform(effects, input, output) && ApplyEffects(st, effects).Some?
    ensures |st| >= input && |ApplyEffects(st, effects).value| == |st| - input + output
    decreases |effects|
  {
    var g := MatchInputs(st, effects[0].input, 0, map[]);
    if g.None? {
      AppliedHeight(st, effects[1..], input, output);
    } else {
      SubstituteLength(effects[0].output, g.value);
    }
  }

  lemma CheckedHeight(decls: Declarations, p: Plain, st: seq<Type>)
    requires !p.Return? && CheckPlain(decls, p, st).Some?
    ensures |st| >= Inputs(decls, p) && |CheckPlain(decls, p, st).value| == |st| - Inputs(decls, p) + Outputs(decls, p)
  {
    hide ApplyEffects;
    if !p.PushInt? && !p.PushSymbol? {
      hide PlainEffects;
      EffectsUniform(decls, p);
      AppliedHeight(st, PlainEffects(decls, p), Inputs(decls, p), Outputs(decls, p));
    }
  }

  /** The machine needs no more operands than the checker asked for, and touches nothing below them. */
  lemma MachineHeight(env: Env, decls: Declarations, p: Plain, st: seq<Word>, world: World)
    requires IsLocal(p) && |st| >= Inputs(decls, p)
    ensures var r := ApplyPlain(env, p, st, world);
      var keep := |st| - Inputs(decls, p);
      match r
      case Fault(why) => why == DivideFault
      case Continue(st', _) => |st'| == keep + Outputs(decls, p) && st'[..keep] == st[..keep]
  {
    hide ApplyIntrinsic;
    hide IntrinsicEffects;
    if p.Intrinsic? {
      IntrinsicHasEffects(p.intrinsic);
      IntrinsicHeight(env, p.intrinsic, st, world);
    }
  }

  lemma IntrinsicHasEffects(i: Intrinsic)
    requires !i.Call?
    ensures |IntrinsicEffects(i)| > 0
  {
  }

  lemma BinaryShape(op: BinaryOp)
    ensures |BinaryEffects(op)| > 0 && |BinaryEffects(op)[0].input| == 2 && |BinaryEffects(op)[0].output| == 1
  {
  }

  lemma IntrinsicHeight(env: Env, i: Intrinsic, st: seq<Word>, world: World)
    requires !i.Call? && |IntrinsicEffects(i)| > 0 && |st| >= |IntrinsicEffects(i)[0].input|
    ensures var keep := |st| - |IntrinsicEffects(i)[0].input|;
      match ApplyIntrinsic(env, i, st, world)
      case Fault(why) => why == DivideFault
      case Continue(st', _) => |st'| == keep + |IntrinsicEffects(i)[0].output| && st'[..keep] == st[..keep]
  {
    hide MachineBinary;
    hide BinaryEffects;
    hide ShuffleStack;
    hide ShuffleEffect;
    hide LoadWord;
    hide StoreWord;
    hide Quotient;
    match i
    case Binary(op) => BinaryShape(op);
    case Shuffle(s) => ShuffleHeight(s, st);
    case _ =>
  }

  lemma ShuffleHeight(s: ShuffleOp, st: seq<Word>)
    requires |st| >= |ShuffleEffect(s).input|
    ensures var keep := |st| - |ShuffleEffect(s).input|;
      && ShuffleStack(s, st).Some?
      && |ShuffleStack(s, st).value| == keep + |ShuffleEffect(s).output|
      && ShuffleStack(s, st).value[..keep] == st[..keep]
  {
  }

  // ----- stack words move types as they move values -----

  predicate InTop(n: nat, k: nat, i: nat) {
    n - k < i
  }

  /** The bindings of the inputs `1 .. n` after the top `k` of them have been matched. */
  function TopBindings(st: seq<Type>, n: nat, k: nat): map<nat, Type>
    requires k <= n <= |st|
  {
    map i: nat | 0 <= i <= n && InTop(n, k, i) :: st[|st| - n + i - 1]
  }

  lemma {:induction false} VariablesMatch(st: seq<Type>, n: nat, k: nat)
    requires k <= n <= |st|
    ensures MatchInputs(st, Variables(n), k, TopBindings(st, n, k)) == Some(TopBindings(st, n, n))
    decreases n - k
  {
    if k < n {
      var g := TopBindings(st, n, k);
      assert Variables(n)[n - 1 - k] == V(n - k);
      assert g[n - k := st[|st| - 1 - k]] == TopBindings(st, n, k + 1);
      VariablesMatch(st, n, k + 1);
    }
  }

  lemma {:induction false} SubstituteVariables(output: seq<Type>, g: map<nat, Type>)
    requires forall k :: 0 <= k < |output| ==> output[k].Variable? && output[k].id in g
    ensures Substitute(output, g).Some? && |Substitute(output, g).value| == |output|
    ensures forall k :: 0 <= k < |output| ==>
        output[k].Variable? && output[k].id in g && Substitute(output, g).value[k] == g[output[k].id]
    decreases |output|
  {
    if output != [] {
      SubstituteVariables(output[..|output| - 1], g);
    }
  }

  lemma {:induction false} AnyMatches(st: seq<Type>, input: seq<Type>, k: nat)
    requires k <= |input| <= |st| && forall i :: 0 <= i < |input| ==> input[i] == Any
    ensures MatchInputs(st, input, k, map[]) == Some(map[])
    decreases |input| - k
  {
    if k < |input| {
      AnyMatches(st, input, k + 1);
    }
  }

  lemma TooFewFail(st: seq<Type>, input: seq<Type>)
    requires |st| < |input|
    ensures MatchInputs(st, input, 0, map[]) == None
  {
    if MatchInputs(st, input, 0, map[]).Some? {
      MatchedFits(st, input, 0, map[]);
    }
  }

  lemma SingleEffect(st: seq<Type>, e: StackEffect)
    ensures ApplyEffects(st, [e]) ==
      match MatchInputs(st, e.input, 0, map[])
      case None => None
      case Some(g) =>
        (match Substitute(e.output, g)
         case None => None
         case Some(out) => if |e.input| <= |st| then Some(st[..|st| - |e.input|] + out) else None)
  {
    assert ApplyEffects(st, []) == None;
    assert [e][1..] == [];
  }

  predicate Picks(n: nat, output: seq<Type>) {
    forall k :: 0 <= k < |output| ==> output[k].Variable? && 1 <= output[k].id <= n
  }

  /** The top `n` entries, picked by the variables of an effect. */
  function Picked(st: seq<Type>, n: nat, output: seq<Type>): seq<Type>
    requires n <= |st| && Picks(n, output)
  {
    seq(|output|, k requires 0 <= k < |output| => st[|st| - n + output[k].id - 1])
  }

  ghost predicate PicksRight(s: ShuffleOp, st: seq<Type>)
    requires |st| >= |ShuffleEffect(s).input|
  {
    var e := ShuffleEffect(s);
    && e.input == Variables(|e.input|) && Picks(|e.input|, e.output)
    && ShuffleStack(s, st) == Some(st[..|st| - |e.input|] + Picked(st, |e.input|, e.output))
  }

  lemma PicksOneOrTwo(s: ShuffleOp, st: seq<Type>)
    requires s in {Dup, Over, TwoDup} && |st| >= |ShuffleEffect(s).input|
    ensures PicksRight(s, st)
  {
    var e := ShuffleEffect(s);
    var n := |st|;
    var r := st[..n - |e.input|] + Picked(st, |e.input|, e.output);
    match s
    case Dup => assert r == st + [st[n-1]];
    case TwoDup => assert r == st + [st[n-2], st[n-1]];
    case Over => assert r == st + [st[n-2]];
  }

  lemma PicksSwapped(s: ShuffleOp, st: seq<Type>)
    requires s in {Swap, Tuck, Rot} && |st| >= |ShuffleEffect(s).input|
    ensures PicksRight(s, st)
  {
    var e := ShuffleEffect(s);
    var n := |st|;
    var r := st[..n - |e.input|] + Picked(st, |e.input|, e.output);
    match s
    case Swap => assert r == st[..n-2] + [st[n-1], st[n-2]];
    case Tuck => assert r == st[..n-2] + [st[n-1], st[n-2], st[n-1]];
    case Rot => assert r == st[..n-3] + [st[n-2], st[n-1], st[n-3]];
  }

  lemma PicksFour(s: ShuffleOp, st: seq<Type>)
    requires s in {TwoOver, TwoSwap} && |st| >= |ShuffleEffect(s).input|
    ensures PicksRight(s, st)
  {
    var e := ShuffleEffect(s);
    var n := |st|;
    var r := st[..n - |e.input|] + Picked(st, |e.input|, e.output);
    match s
    case TwoOver => assert r == st + [st[n-4], st[n-3]];
    case TwoSwap => assert r == st[..n-4] + [st[n-2], st[n-1], st[n-4], st[n-3]];
  }

  lemma ShufflePicks(s: ShuffleOp, st: seq<Type>)
    requires s != Drop && s != TwoDrop && |st| >= |ShuffleEffect(s).input|
    ensures PicksRight(s, st)
  {
    hide PicksRight;
    if s in {Dup, Over, TwoDup} {
      PicksOneOrTwo(s, st);
    } else if s in {Swap, Tuck, Rot} {
      PicksSwapped(s, st);
    } else {
      PicksFour(s, st);
    }
  }

  lemma VariablesApply(st: seq<Type>, e: StackEffect)
    requires |e.input| <= |st| && e.input == Variables(|e.input|) && Picks(|e.input|, e.output)
    ensures ApplyEffects(st, [e]) == Some(st[..|st| - |e.input|] + Picked(st, |e.input|, e.output))
  {
    hide MatchInputs;
    hide Substitute;
    hide ApplyEffects;
    var n := |e.input|;
    SingleEffect(st, e);
    assert TopBindings(st, n, 0) == map[];
    VariablesMatch(st, n, 0);
    SubstituteVariables(e.output, TopBindings(st, n, n));
    assert Substitute(e.output, TopBindings(st, n, n)).value == Picked(st, n, e.output);
  }

  /** The checker's rule for a stack word is that very word, applied to the stack of types. */
  lemma ShuffleChecks(s: ShuffleOp, st: seq<Type>)
    ensures ApplyEffects(st, [ShuffleEffect(s)]) == ShuffleStack(s, st)
  {
    hide MatchInputs;
    hide Substitute;
    hide ApplyEffects;
    var e := ShuffleEffect(s);
    var n := |e.input|;
    SingleEffect(st, e);
    if |st| < n {
      TooFewFail(st, e.input);
    } else if s == Drop || s == TwoDrop {
      AnyMatches(st, e.input, 0);
      SubstituteVariables([], map[]);
      assert st[..|st| - n] + [] == st[..|st| - n];
    } else {
      ShufflePicks(s, st);
      VariablesApply(st, e);
    }
  }

  /** A sequence of stack words on a stack of anything. */
  function ShuffleAll<T>(words: seq<ShuffleOp>, st: seq<T>): Option<seq<T>> {
    if words == [] then Some(st)
    else
      var st' :- ShuffleStack(words[0], st);
      ShuffleAll(words[1..], st')
  }

  /** The checker's run over a sequence of stack words. */
  function CheckAll(decls: Declarations, words: seq<ShuffleOp>, st: seq<Type>): Option<seq<Type>> {
    if words == [] then Some(st)
    else
      var st' :- CheckPlain(decls, Intrinsic(Shuffle(words[0])), st);
      CheckAll(decls, words[1..], st')
  }

  /**
   However values are typed, checking a sequence of stack words on their types gives the types of the
   values the machine ends with, and fails exactly when the machine underflows.
   */
  lemma {:induction false} TypesFollowValues(decls: Declarations, typing: Word -> Type, words: seq<ShuffleOp>,
      st: seq<Word>)
    ensures CheckAll(decls, words, MapStack(typing, st)) ==
      match ShuffleAll(words, st)
      case None => None
      case Some(r) => Some(MapStack(typing, r))
    decreases |words|
  {
    hide ApplyEffects;
    hide MapStack;
    if words != [] {
      ShuffleChecks(words[0], MapStack(typing, st));
      ShuffleNatural(typing, words[0], st);
      var r := ShuffleStack(words[0], st);
      if r.Some? {
        TypesFollowValues(decls, typing, words[1..], r.value);
      }
    }
  }
}
