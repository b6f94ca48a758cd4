/**
 The type rules, operation by operation, and what matching a declared effect means. The checker's tables of effects
 and its matching from the top down come to exactly this wherever no `Any` is on the stack.
 */
module TypeRules {
  import opened Wrappers
  import opened Words
  import opened Operations
  import opened Machine
  import opened Types
  import opened Typechecker

  // ----- the rules -----

  /** The type of `x y op`. */
  function BinaryRule(op: BinaryOp, x: Type, y: Type): Option<Type> {
    if op in {Less, LessEq, Greater, GreaterEq, Equal, NotEqual} then
      if x == y then Some(Bool) else None
    else if op == BooleanAnd || op == BooleanOr then
      if x == Bool && y == Bool then Some(Bool) else None
    else if op == Add then
      if x == Bool || y == Bool || (x == Pointer && y == Pointer) then None
      else Some(if x == Pointer || y == Pointer then Pointer else Int)
    else if op == Subtract then
      if x == Pointer && y == Pointer then Some(Int)
      else if x == Pointer && y == Int then Some(Pointer)
      else if x == Int && y == Int then Some(Int)
      else None
    else
      if x == Int && y == Int then Some(Int) else None
  }

  function IntrinsicRule(i: Intrinsic, st: seq<Type>): Option<seq<Type>> {
    var n := |st|;
    match i
    case Binary(op) =>
      if n < 2 then None
      else
        var ty :- BinaryRule(op, st[n-2], st[n-1]);
        Some(st[..n-2] + [ty])
    case Shuffle(s) => ShuffleStack(s, st)
    case DivMod => if n < 2 || st[n-2] != Int || st[n-1] != Int then None else Some(st[..n-2] + [Int, Int])
    case BooleanNegate => if n < 1 || st[n-1] != Bool then None else Some(st)
    case Load(_) => if n < 1 || st[n-1] != Pointer then None else Some(st[..n-1] + [Int])
    case Store(_) => if n < 2 || st[n-2] != Pointer then None else Some(st[..n-2])
    case Top => if n < 1 then None else Some(st + [Pointer])
    case Argv => Some(st + [Pointer])
    case Argc => Some(st + [Int])
    case Random32 => Some(st + [Int])
    case Random64 => Some(st + [Int])
    case Syscall(count) => if n < count + 1 || st[n-1] != Int then None else Some(st[..n-count-1] + [Int])
    case Call => None
  }

  /** Everything but calls and `return`. */
  function Rule(p: Plain, st: seq<Type>): Option<seq<Type>>
    requires !p.Return? && !p.CallSymbol?
  {
    var n := |st|;
    match p
    case PushInt(_, ty) => Some(st + [ty])
    case PushSymbol(_) => Some(st + [Pointer])
    case Cast(ty) => if n < 1 then None else Some(st[..n-1] + [ty])
    case Intrinsic(i) => IntrinsicRule(i, st)
  }

  // ----- matching, declaratively -----

  predicate FitsUnder(g: map<nat, Type>, declared: Type, actual: Type) {
    match declared
    case Any => true
    case Variable(id) => id in g && g[id] == actual
    case _ => actual == declared
  }

  /** The top of the stack is an instance of the declared inputs, under this choice for the type variables. */
  ghost predicate Instance(g: map<nat, Type>, input: seq<Type>, st: seq<Type>) {
    |input| <= |st| && forall j :: 0 <= j < |input| ==> FitsUnder(g, input[j], st[|st| - |input| + j])
  }

  predicate Under(g: map<nat, Type>, g': map<nat, Type>) {
    g.Keys <= g'.Keys && forall id :: id in g ==> g[id] == g'[id]
  }

  lemma BindFits(g: map<nat, Type>, actual: Type, declared: Type, all: map<nat, Type>)
    requires Concrete(actual) && ConcreteMap(g) && Under(g, all) && FitsUnder(all, declared, actual)
    ensures Bind(g, actual, declared).Some? && Under(Bind(g, actual, declared).value, all)
    ensures ConcreteMap(Bind(g, actual, declared).value)
  {
  }

  lemma {:induction false} MatchFollows(st: seq<Type>, input: seq<Type>, k: nat, g: map<nat, Type>, all: map<nat, Type>)
    requires k <= |input| && ConcreteStack(st) && ConcreteMap(g) && Instance(all, input, st) && Under(g, all)
    ensures MatchInputs(st, input, k, g).Some? && Under(MatchInputs(st, input, k, g).value, all)
    decreases |input| - k
  {
    if k < |input| {
      var j := |input| - 1 - k;
      assert FitsUnder(all, input[j], st[|st| - |input| + j]);
      BindFits(g, st[|st| - 1 - k], input[j], all);
      MatchFollows(st, input, k + 1, Bind(g, st[|st| - 1 - k], input[j]).value, all);
    }
  }

  lemma BoundFits(g: map<nat, Type>, actual: Type, declared: Type)
    requires Concrete(actual) && ConcreteMap(g) && Bind(g, actual, declared).Some?
    ensures var r := Bind(g, actual, declared).value;
      Under(g, r) && ConcreteMap(r) && FitsUnder(r, declared, actual)
  {
  }

  lemma StillFits(g: map<nat, Type>, r: map<nat, Type>, declared: Type, actual: Type)
    requires Under(g, r) && FitsUnder(g, declared, actual)
    ensures FitsUnder(r, declared, actual)
  {
  }

  lemma {:induction false} MatchGrows(st: seq<Type>, input: seq<Type>, k: nat, g: map<nat, Type>)
    requires k <= |input| && (k > 0 ==> |input| <= |st| || k <= |st|) && ConcreteStack(st) && ConcreteMap(g)
    requires MatchInputs(st, input, k, g).Some?
    ensures var r := MatchInputs(st, input, k, g).value;
      && Under(g, r)
      && forall j :: 0 <= j < |input| - k && j + |st| >= |input| ==> FitsUnder(r, input[j], st[|st| - |input| + j])
    decreases |input| - k
  {
    if k < |input| {
      var j := |input| - 1 - k;
      BoundFits(g, st[|st| - 1 - k], input[j]);
      var g' := Bind(g, st[|st| - 1 - k], input[j]).value;
      MatchGrows(st, input, k + 1, g');
      StillFits(g', MatchInputs(st, input, k, g).value, input[j], st[|st| - 1 - k]);
    }
  }

  /** Matching from the top down finds a choice for the type variables exactly when there is one, and no other fits. */
  lemma MatchExactly(st: seq<Type>, input: seq<Type>)
    requires ConcreteStack(st)
    ensures MatchInputs(st, input, 0, map[]).Some? <==> exists g :: Instance(g, input, st)
    ensures MatchInputs(st, input, 0, map[]).Some? ==>
      var r := MatchInputs(st, input, 0, map[]).value;
      Instance(r, input, st) && forall g :: Instance(g, input, st) ==> Under(r, g)
  {
    if MatchInputs(st, input, 0, map[]).Some? {
      MatchedFits(st, input, 0, map[]);
      MatchGrows(st, input, 0, map[]);
      assert Instance(MatchInputs(st, input, 0, map[]).value, input, st);
    }
    forall g | Instance(g, input, st)
      ensures MatchInputs(st, input, 0, map[]).Some? && Under(MatchInputs(st, input, 0, map[]).value, g)
    {
      MatchFollows(st, input, 0, map[], g);
    }
  }

  // ----- effects without type variables -----

  predicate Ground(types: seq<Type>) {
    forall k :: 0 <= k < |types| ==> !types[k].Variable?
  }

  /** The top of the stack, entry by entry. */
  predicate OnTop(input: seq<Type>, st: seq<Type>) {
    |input| <= |st| && forall j :: 0 <= j < |input| ==> input[j] == Any || input[j] == st[|st| - |input| + j]
  }

  lemma {:induction false} GroundOutput(output: seq<Type>, g: map<nat, Type>)
    requires Ground(output)
    ensures Substitute(output, g) == Some(output)
    decreases |output|
  {
    if output != [] {
      var n := |output| - 1;
      GroundOutput(output[..n], g);
      assert output[..n] + [output[n]] == output;
    }
  }

  lemma GroundMatch(st: seq<Type>, input: seq<Type>)
    requires ConcreteStack(st) && Ground(input)
    ensures MatchInputs(st, input, 0, map[]).Some? <==> OnTop(input, st)
  {
    MatchExactly(st, input);
    if g :| Instance(g, input, st) {
      forall j | 0 <= j < |input|
        ensures input[j] == Any || input[j] == st[|st| - |input| + j]
      {
        assert FitsUnder(g, input[j], st[|st| - |input| + j]);
      }
    }
    if OnTop(input, st) {
      assert Instance(map[], input, st);
    }
  }

  /** The first alternative applies if it is on top, otherwise the others decide. */
  lemma FirstApplies(st: seq<Type>, e: StackEffect, rest: seq<StackEffect>)
    requires ConcreteStack(st) && Ground(e.input) && Ground(e.output)
    ensures ApplyEffects(st, [e] + rest)
         == if OnTop(e.input, st) then Some(st[..|st| - |e.input|] + e.output) else ApplyEffects(st, rest)
  {
    hide MatchInputs;
    GroundMatch(st, e.input);
    var all := [e] + rest;
    assert all[1..] == rest;
    var m := MatchInputs(st, e.input, 0, map[]);
    if m.Some? {
      GroundOutput(e.output, m.value);
    }
  }

  lemma TwoOnTop(a: Type, b: Type, st: seq<Type>)
    requires !a.Any? && !b.Any?
    ensures OnTop([a, b], st) <==> |st| >= 2 && st[|st|-2] == a && st[|st|-1] == b
  {
    if OnTop([a, b], st) {
      assert [a, b][0] == st[|st|-2] && [a, b][1] == st[|st|-1];
    }
  }

  lemma OneOnTop(a: Type, st: seq<Type>)
    ensures OnTop([a], st) <==> |st| >= 1 && (a == Any || st[|st|-1] == a)
  {
    if OnTop([a], st) {
      assert [a][0] == Any || [a][0] == st[|st|-1];
    }
  }

  /** One alternative on two operands. */
  lemma OneAlternative(st: seq<Type>, a: Type, b: Type, output: seq<Type>)
    requires ConcreteStack(st) && Concrete(a) && Concrete(b) && Ground(output)
    ensures ApplyEffects(st, [E([a, b], output)])
         == if |st| >= 2 && st[|st|-2] == a && st[|st|-1] == b then Some(st[..|st|-2] + output) else None
  {
    hide ApplyEffects;
    var e := E([a, b], output);
    assert [e] + [] == [e];
    FirstApplies(st, e, []);
    TwoOnTop(a, b, st);
    NoEffects(st);
  }

  lemma NoEffects(st: seq<Type>)
    ensures ApplyEffects(st, []) == None
  {
  }

  /** Three alternatives on two operands. */
  lemma ThreeAlternatives(st: seq<Type>, a: seq<Type>, b: seq<Type>, c: seq<Type>, x: Type, y: Type, z: Type)
    requires ConcreteStack(st) && |a| == 2 && |b| == 2 && |c| == 2
    requires ConcreteStack(a) && ConcreteStack(b) && ConcreteStack(c) && Concrete(x) && Concrete(y) && Concrete(z)
    ensures ApplyEffects(st, [E(a, [x]), E(b, [y]), E(c, [z])]) ==
      if |st| < 2 then None
      else
        var top, below := st[|st|-2..], st[..|st|-2];
        if top == a then Some(below + [x]) else if top == b then Some(below + [y])
        else if top == c then Some(below + [z]) else None
  {
    hide ApplyEffects;
    var e, f, g := E(a, [x]), E(b, [y]), E(c, [z]);
    assert [e, f, g] == [e] + ([f] + ([g] + []));
    FirstApplies(st, e, [f] + ([g] + []));
    FirstApplies(st, f, [g] + []);
    FirstApplies(st, g, []);
    NoEffects(st);
    TopPair(a, st);
    TopPair(b, st);
    TopPair(c, st);
  }

  lemma TopPair(a: seq<Type>, st: seq<Type>)
    requires |a| == 2 && ConcreteStack(a)
    ensures OnTop(a, st) <==> |st| >= 2 && st[|st|-2..] == a
  {
    if OnTop(a, st) {
      assert a[0] == st[|st|-2] && a[1] == st[|st|-1];
    }
  }

  lemma TopTwo(st: seq<Type>)
    requires ConcreteStack(st)
    ensures |st| >= 2 ==> var n := |st|;
      && st[n-2..] == [st[n-2], st[n-1]]
      && (st[n-2] == Int || st[n-2] == Bool || st[n-2] == Pointer)
      && (st[n-1] == Int || st[n-1] == Bool || st[n-1] == Pointer)
  {
    var n := |st|;
    if n >= 2 {
      assert st[n-2..] == [st[n-2], st[n-1]];
      KnownTypes(st, n - 2);
      KnownTypes(st, n - 1);
    }
  }

  lemma AddExact(st: seq<Type>)
    requires ConcreteStack(st)
    ensures ApplyEffects(st, BinaryEffects(Add)) == IntrinsicRule(Binary(Add), st)
  {
    hide ApplyEffects;
    TopTwo(st);
    ThreeAlternatives(st, [Pointer, Int], [Int, Pointer], [Int, Int], Pointer, Pointer, Int);
  }

  lemma SubtractExact(st: seq<Type>)
    requires ConcreteStack(st)
    ensures ApplyEffects(st, BinaryEffects(Subtract)) == IntrinsicRule(Binary(Subtract), st)
  {
    hide ApplyEffects;
    TopTwo(st);
    ThreeAlternatives(st, [Pointer, Pointer], [Pointer, Int], [Int, Int], Int, Pointer, Int);
  }

  lemma ComparisonExact(op: BinaryOp, st: seq<Type>)
    requires ConcreteStack(st) && op in {Less, LessEq, Greater, GreaterEq, Equal, NotEqual}
    ensures ApplyEffects(st, BinaryEffects(op)) == IntrinsicRule(Binary(op), st)
  {
    hide ApplyEffects;
    TopTwo(st);
    ThreeAlternatives(st, [Pointer, Pointer], [Int, Int], [Bool, Bool], Bool, Bool, Bool);
  }

  lemma BinaryExact(op: BinaryOp, st: seq<Type>)
    requires ConcreteStack(st)
    ensures ApplyEffects(st, BinaryEffects(op)) == IntrinsicRule(Binary(op), st)
  {
    hide ApplyEffects;
    hide ConcreteStack;
    TopTwo(st);
    if op == Add {
      AddExact(st);
    } else if op == Subtract {
      SubtractExact(st);
    } else if op in {Less, LessEq, Greater, GreaterEq, Equal, NotEqual} {
      ComparisonExact(op, st);
    } else if op == BooleanAnd || op == BooleanOr {
      OneAlternative(st, Bool, Bool, [Bool]);
    } else {
      OneAlternative(st, Int, Int, [Int]);
    }
  }

  lemma KnownTypes(st: seq<Type>, k: nat)
    requires ConcreteStack(st) && k < |st|
    ensures st[k] == Int || st[k] == Bool || st[k] == Pointer
  {
  }

  lemma OneInput(st: seq<Type>, a: Type, output: seq<Type>)
    requires ConcreteStack(st) && !a.Variable? && Ground(output)
    ensures ApplyEffects(st, [E([a], output)])
         == if |st| >= 1 && (a == Any || st[|st|-1] == a) then Some(st[..|st|-1] + output) else None
  {
    hide ApplyEffects;
    var e := E([a], output);
    assert [e] + [] == [e];
    FirstApplies(st, e, []);
    OneOnTop(a, st);
    NoEffects(st);
  }

  lemma NoInput(st: seq<Type>, ty: Type)
    requires ConcreteStack(st) && !ty.Variable?
    ensures ApplyEffects(st, [E([], [ty])]) == Some(st + [ty])
  {
    hide ApplyEffects;
    var e := E([], [ty]);
    assert [e] + [] == [e] && st[..|st|] == st;
    FirstApplies(st, e, []);
  }

  lemma StoreExact(st: seq<Type>, size: nat)
    requires ConcreteStack(st)
    ensures ApplyEffects(st, [E([Pointer, Any], [])]) == IntrinsicRule(Store(size), st)
  {
    hide ApplyEffects;
    var e := E([Pointer, Any], []);
    assert [e] + [] == [e];
    FirstApplies(st, e, []);
    NoEffects(st);
    if OnTop(e.input, st) {
      assert e.input[0] == st[|st|-2];
      assert st[..|st|-2] + [] == st[..|st|-2];
    }
  }

  /** `top` keeps what it found. */
  lemma TopExact(st: seq<Type>)
    requires ConcreteStack(st)
    ensures ApplyEffects(st, [E([V(1)], [V(1), Pointer])]) == IntrinsicRule(Top, st)
  {
    SingleEffect(st, E([V(1)], [V(1), Pointer]));
    if |st| >= 1 {
      var n := |st|;
      var g := map[1 := st[n-1]];
      assert MatchInputs(st, [V(1)], 1, g) == Some(g);
      assert MatchInputs(st, [V(1)], 0, map[]) == Some(g);
      var out: seq<Type> := [V(1), Pointer];
      assert out[..1] == [V(1)] && out[..1][..0] == [];
      assert Substitute([V(1)], g) == Some([st[n-1]]) by {
        assert [V(1)][..0] == [] && Substitute([], g) == Some([]);
        assert [] + [st[n-1]] == [st[n-1]];
      }
      assert Substitute(out, g) == Some([st[n-1]] + [Pointer]);
      assert st[..n-1] + ([st[n-1]] + [Pointer]) == st + [Pointer];
    } else {
      TooFewFail(st, [V(1)]);
    }
  }

  /** What a system call finds for its argument `i`. */
  function Argument(st: seq<Type>, count: nat, i: nat): Type
    requires 1 <= i <= count < |st|
  {
    st[|st| - count - 2 + i]
  }

  lemma SyscallMatch(st: seq<Type>, count: nat)
    requires ConcreteStack(st)
    ensures MatchInputs(st, Variables(count) + [Int], 0, map[]).Some? <==> |st| >= count + 1 && st[|st|-1] == Int
  {
    hide MatchInputs;
    var input := Variables(count) + [Int];
    MatchExactly(st, input);
    if g :| Instance(g, input, st) {
      assert FitsUnder(g, input[count], st[|st| - |input| + count]);
    }
    if |st| >= count + 1 && st[|st|-1] == Int {
      var g := map i: nat | 1 <= i <= count :: Argument(st, count, i);
      forall j | 0 <= j < |input|
        ensures FitsUnder(g, input[j], st[|st| - |input| + j])
      {
        if j < count {
          assert input[j] == V(j + 1);
        }
      }
      assert Instance(g, input, st);
    }
  }

  lemma SyscallExact(st: seq<Type>, count: nat)
    requires ConcreteStack(st)
    ensures ApplyEffects(st, IntrinsicEffects(Syscall(count))) == IntrinsicRule(Syscall(count), st)
  {
    hide MatchInputs;
    hide ApplyEffects;
    var e := E(Variables(count) + [Int], [Int]);
    SingleEffect(st, e);
    SyscallMatch(st, count);
    var m := MatchInputs(st, e.input, 0, map[]);
    if m.Some? {
      GroundOutput([Int], m.value);
    }
  }

  lemma IntrinsicExact(i: Intrinsic, st: seq<Type>)
    requires ConcreteStack(st)
    ensures ApplyEffects(st, IntrinsicEffects(i)) == IntrinsicRule(i, st)
  {
    hide ApplyEffects;
    hide ShuffleStack;
    hide ShuffleEffect;
    hide BinaryEffects;
    match i
    case Binary(op) => BinaryExact(op, st);
    case Shuffle(s) => ShuffleChecks(s, st);
    case DivMod => OneAlternative(st, Int, Int, [Int, Int]);
    case BooleanNegate => NegateExact(st);
    case Load(_) => OneInput(st, Pointer, [Int]);
    case Store(size) => StoreExact(st, size);
    case Top => TopExact(st);
    case Argv => NoInput(st, Pointer);
    case Argc => NoInput(st, Int);
    case Random32 => NoInput(st, Int);
    case Random64 => NoInput(st, Int);
    case Syscall(count) => SyscallExact(st, count);
    case Call => NoEffects(st);
  }

  lemma NegateExact(st: seq<Type>)
    requires ConcreteStack(st)
    ensures ApplyEffects(st, [E([Bool], [Bool])]) == IntrinsicRule(BooleanNegate, st)
  {
    hide ApplyEffects;
    OneInput(st, Bool, [Bool]);
    if |st| >= 1 && st[|st|-1] == Bool {
      assert st[..|st|-1] + [Bool] == st;
    }
  }

  /**
   Wherever no `Any` is on the stack, the checker accepts an operation exactly when its rule does, with its result.
   */
  lemma RuleExact(decls: Declarations, p: Plain, st: seq<Type>)
    requires ConcreteStack(st) && !p.Return? && !p.CallSymbol?
    requires p.Cast? ==> !p.target.Variable?
    ensures CheckPlain(decls, p, st) == Rule(p, st)
  {
    hide ApplyEffects;
    hide IntrinsicEffects;
    hide IntrinsicRule;
    match p
    case PushInt(_, _) =>
    case PushSymbol(_) =>
    case Cast(ty) => OneInput(st, Any, [ty]);
    case Intrinsic(i) => IntrinsicExact(i, st);
  }

  /** `if` and `do` take exactly a truth value. */
  lemma BranchRule(st: seq<Type>)
    requires ConcreteStack(st)
    ensures CheckBool(st) == if |st| >= 1 && st[|st|-1] == Bool then Some(st[..|st|-1]) else None
  {
    hide ApplyEffects;
    OneInput(st, Bool, []);
    if |st| >= 1 {
      assert st[..|st|-1] + [] == st[..|st|-1];
    }
  }

  /** At an exit, and where a loop comes round, exactly the same types must be there. */
  lemma ExitRule(st: seq<Type>, output: seq<Type>)
    requires ConcreteStack(st) && ConcreteStack(output)
    ensures OutputMatches(st, output) <==> st == output
  {
    if OutputMatches(st, output) {
      ConcreteMatches(st, output);
    }
  }

  // ----- calls -----

  predicate Occurs(id: nat, input: seq<Type>) {
    exists j :: 0 <= j < |input| && input[j] == Variable(id)
  }

  /** The type an output stands for, once the type variables of the inputs are chosen. */
  predicate StandsFor(g: map<nat, Type>, input: seq<Type>, declared: Type, actual: Type) {
    match declared
    case Variable(id) => Occurs(id, input) && id in g && g[id] == actual
    case _ => actual == declared
  }

  /** The stack behind a call: inputs gone, outputs there, under one choice for the type variables. */
  ghost predicate Called(g: map<nat, Type>, e: StackEffect, st: seq<Type>, r: seq<Type>) {
    && Instance(g, e.input, st)
    && |r| == |st| - |e.input| + |e.output| && r[..|st| - |e.input|] == st[..|st| - |e.input|]
    && forall k :: 0 <= k < |e.output| ==> StandsFor(g, e.input, e.output[k], r[|st| - |e.input| + k])
  }

  lemma {:induction false} MatchKeys(st: seq<Type>, input: seq<Type>, k: nat, g: map<nat, Type>)
    requires k <= |input| && MatchInputs(st, input, k, g).Some?
    ensures forall id :: id in MatchInputs(st, input, k, g).value ==> id in g || Occurs(id, input)
    decreases |input| - k
  {
    if k < |input| {
      var j := |input| - 1 - k;
      var g' := Bind(g, st[|st| - 1 - k], input[j]).value;
      assert forall id :: id in g' && id !in g ==> input[j] == Variable(id);
      MatchKeys(st, input, k + 1, g');
    }
  }

  /** The variables bound are those of the inputs. */
  lemma BoundExactly(st: seq<Type>, input: seq<Type>)
    requires ConcreteStack(st) && MatchInputs(st, input, 0, map[]).Some?
    ensures forall id :: id in MatchInputs(st, input, 0, map[]).value <==> Occurs(id, input)
  {
    MatchKeys(st, input, 0, map[]);
    MatchExactly(st, input);
    var r := MatchInputs(st, input, 0, map[]).value;
    forall id | Occurs(id, input)
      ensures id in r
    {
      var j :| 0 <= j < |input| && input[j] == Variable(id);
      assert FitsUnder(r, input[j], st[|st| - |input| + j]);
    }
  }

  lemma {:induction false} SubstituteExactly(input: seq<Type>, output: seq<Type>, g: map<nat, Type>, out: seq<Type>)
    requires forall id :: id in g <==> Occurs(id, input)
    ensures Substitute(output, g) == Some(out)
       <==> |out| == |output| && forall k :: 0 <= k < |out| ==> StandsFor(g, input, output[k], out[k])
    decreases |output|
  {
    hide Occurs;
    if output != [] {
      var n := |output| - 1;
      if |out| == |output| {
        SubstituteExactly(input, output[..n], g, out[..n]);
        assert out == out[..n] + [out[n]];
        if Substitute(output, g) == Some(out) {
          assert forall k :: 0 <= k < n ==> output[..n][k] == output[k] && out[..n][k] == out[k];
        }
      } else if Substitute(output, g).Some? {
        SubstituteLength(output, g);
      }
    }
  }

  lemma SameChoice(g: map<nat, Type>, g': map<nat, Type>, input: seq<Type>, declared: Type, actual: Type)
    requires Under(g, g') && forall id :: id in g <==> Occurs(id, input)
    ensures StandsFor(g, input, declared, actual) <==> StandsFor(g', input, declared, actual)
  {
    hide Occurs;
  }

  lemma CalledSame(g: map<nat, Type>, g': map<nat, Type>, e: StackEffect, st: seq<Type>, r: seq<Type>)
    requires Under(g, g') && (forall id :: id in g <==> Occurs(id, e.input))
    requires Instance(g, e.input, st) && Called(g', e, st, r)
    ensures Called(g, e, st, r)
  {
    hide Occurs;
    hide StandsFor;
    forall k | 0 <= k < |e.output|
      ensures StandsFor(g, e.input, e.output[k], r[|st| - |e.input| + k])
    {
      SameChoice(g, g', e.input, e.output[k], r[|st| - |e.input| + k]);
    }
  }

  /**
   A call is accepted with a stack exactly when some choice for the type variables makes the declared inputs the top
   of the stack and the declared outputs what replaces it.
   */
  lemma CallExact(decls: Declarations, id: nat, st: seq<Type>, r: seq<Type>)
    requires ConcreteStack(st)
    ensures CheckPlain(decls, CallSymbol(id), st) == Some(r)
       <==> id in decls && decls[id].effect.Some? && exists g :: Called(g, decls[id].effect.value, st, r)
  {
    hide MatchInputs;
    hide Substitute;
    hide Called;
    if id in decls && decls[id].effect.Some? {
      var e := decls[id].effect.value;
      EffectExact(e, st, r);
    }
  }

  lemma EffectExact(e: StackEffect, st: seq<Type>, r: seq<Type>)
    requires ConcreteStack(st)
    ensures ApplyEffects(st, [e]) == Some(r) <==> exists g :: Called(g, e, st, r)
  {
    hide ApplyEffects;
    hide Called;
    if ApplyEffects(st, [e]) == Some(r) {
      var g := AppliedIsCalled(e, st, r);
    }
    if g :| Called(g, e, st, r) {
      CalledIsApplied(g, e, st, r);
    }
  }

  lemma AppliedIsCalled(e: StackEffect, st: seq<Type>, r: seq<Type>) returns (g: map<nat, Type>)
    requires ConcreteStack(st) && ApplyEffects(st, [e]) == Some(r)
    ensures Called(g, e, st, r)
  {
    hide MatchInputs;
    hide Substitute;
    hide ApplyEffects;
    hide Occurs;
    hide StandsFor;
    hide FitsUnder;
    SingleEffect(st, e);
    MatchExactly(st, e.input);
    BoundExactly(st, e.input);
    g := MatchInputs(st, e.input, 0, map[]).value;
    AppliedSuffix(e, st, g, r);
    SubstituteExactly(e.input, e.output, g, r[|st| - |e.input|..]);
  }

  lemma CalledIsApplied(g: map<nat, Type>, e: StackEffect, st: seq<Type>, r: seq<Type>)
    requires ConcreteStack(st) && Called(g, e, st, r)
    ensures ApplyEffects(st, [e]) == Some(r)
  {
    hide MatchInputs;
    hide Substitute;
    hide ApplyEffects;
    hide Occurs;
    hide StandsFor;
    hide FitsUnder;
    SingleEffect(st, e);
    MatchExactly(st, e.input);
    BoundExactly(st, e.input);
    var m, keep := MatchInputs(st, e.input, 0, map[]).value, |st| - |e.input|;
    CalledSame(m, g, e, st, r);
    SubstituteExactly(e.input, e.output, m, r[keep..]);
    assert r == r[..keep] + r[keep..];
  }

  lemma AppliedSuffix(e: StackEffect, st: seq<Type>, g: map<nat, Type>, r: seq<Type>)
    requires |e.input| <= |st| && Substitute(e.output, g).Some?
    requires r == st[..|st| - |e.input|] + Substitute(e.output, g).value
    ensures |r| == |st| - |e.input| + |e.output| && r[..|st| - |e.input|] == st[..|st| - |e.input|]
    ensures r[|st| - |e.input|..] == Substitute(e.output, g).value
  {
    SubstituteLength(e.output, g);
  }

  // ----- whole bodies, by the rules -----

  ghost predicate Follows(decls: Declarations, p: Plain, st: seq<Type>, r: seq<Type>)
    requires !p.Return?
  {
    if p.CallSymbol? then
      p.id in decls && decls[p.id].effect.Some? && exists g :: Called(g, decls[p.id].effect.value, st, r)
    else Rule(p, st) == Some(r)
  }

  predicate Flagged(st: seq<Type>) {
    |st| >= 1 && st[|st|-1] == Bool
  }

  /** One step of a body on types, by the rules alone. */
  ghost predicate Moves(decls: Declarations, ops: seq<Operation>, s: CheckState, s': CheckState) {
    s.ip < |ops| &&
    var op, n := ops[s.ip], |s.stack|;
    match op.kind
    case Plain(p) => !p.Return? && Follows(decls, p, s.stack, s'.stack) && s'.ip == s.ip + 1
    case While => s' == CheckState(s.stack, s.ip + 1)
    case Else => op.jump.To? && s' == CheckState(s.stack, op.jump.target)
    case End => op.jump.To? && s' == CheckState(s.stack, op.jump.target)
    case _ =>
      && op.jump.To? && Flagged(s.stack) && s'.stack == s.stack[..n-1]
      && (s'.ip == s.ip + 1 || s'.ip == op.jump.target)
  }

  ghost predicate TypedPath(decls: Declarations, ops: seq<Operation>, input: seq<Type>, path: seq<CheckState>) {
    && |path| > 0 && path[0] == CheckState(input, 0)
    && forall k :: 0 <= k < |path| - 1 ==> Moves(decls, ops, path[k], path[k + 1])
  }

  ghost predicate Arises(decls: Declarations, ops: seq<Operation>, input: seq<Type>, s: CheckState) {
    exists path :: TypedPath(decls, ops, input, path) && path[|path| - 1] == s
  }

  /** A state in which the body is ill-typed: a wrong exit, an operation no rule admits, a branch on no truth value. */
  ghost predicate Wrong(decls: Declarations, ops: seq<Operation>, output: seq<Type>, s: CheckState) {
    if s.ip >= |ops| || ops[s.ip].kind == Plain(Return) then s.stack != output
    else
      match ops[s.ip].kind
      case Plain(p) => forall r :: !Follows(decls, p, s.stack, r)
      case While => false
      case Else => !ops[s.ip].jump.To?
      case End => !ops[s.ip].jump.To?
      case _ => !Flagged(s.stack) || !ops[s.ip].jump.To?
  }

  /** Two ways to the same `do` that do not leave the same types. */
  predicate Disagree(ops: seq<Operation>, s: CheckState, s': CheckState) {
    && s.ip == s'.ip < |ops| && ops[s.ip].kind == Do && Flagged(s.stack) && Flagged(s'.stack)
    && s.stack != s'.stack
  }

  ghost predicate IllTyped(decls: Declarations, ops: seq<Operation>, input: seq<Type>, output: seq<Type>) {
    || (exists s :: Arises(decls, ops, input, s) && Wrong(decls, ops, output, s))
    || (exists s, s' :: Arises(decls, ops, input, s) && Arises(decls, ops, input, s') && Disagree(ops, s, s'))
  }

  ghost predicate NoVariables(ops: seq<Operation>) {
    forall k :: 0 <= k < |ops| && ops[k].kind.Plain? && ops[k].kind.plain.Cast? ==> !ops[k].kind.plain.target.Variable?
  }

  lemma FollowsExactly(decls: Declarations, p: Plain, st: seq<Type>, r: seq<Type>)
    requires ConcreteStack(st) && !p.Return? && (p.Cast? ==> !p.target.Variable?)
    ensures CheckPlain(decls, p, st) == Some(r) <==> Follows(decls, p, st, r)
  {
    hide Called;
    hide Rule;
    hide CheckPlain;
    if p.CallSymbol? {
      CallExact(decls, p.id, st, r);
    } else {
      RuleExact(decls, p, st);
    }
  }

  lemma MovesExactly(decls: Declarations, ops: seq<Operation>, s: CheckState, s': CheckState)
    requires ConcreteStack(s.stack) && NoVariables(ops)
    ensures Edge(decls, ops, s, s') <==> Moves(decls, ops, s, s')
  {
    hide CheckPlain;
    hide CheckBool;
    hide Follows;
    if s.ip < |ops| {
      BranchRule(s.stack);
      if ops[s.ip].kind.Plain? && !ops[s.ip].kind.plain.Return? {
        FollowsExactly(decls, ops[s.ip].kind.plain, s.stack, s'.stack);
      }
    }
  }

  lemma WrongExactly(decls: Declarations, ops: seq<Operation>, output: seq<Type>, s: CheckState)
    requires ConcreteStack(s.stack) && ConcreteStack(output) && NoVariables(ops)
    ensures Stuck(decls, ops, output, s) <==> Wrong(decls, ops, output, s)
  {
    hide CheckPlain;
    hide CheckBool;
    hide OutputMatches;
    hide Follows;
    ExitRule(s.stack, output);
    BranchRule(s.stack);
    if s.ip < |ops| && ops[s.ip].kind.Plain? && !ops[s.ip].kind.plain.Return? {
      var p := ops[s.ip].kind.plain;
      var c := CheckPlain(decls, p, s.stack);
      forall r
        ensures c == Some(r) <==> Follows(decls, p, s.stack, r)
      {
        FollowsExactly(decls, p, s.stack, r);
      }
      if c.Some? {
        assert Follows(decls, p, s.stack, c.value);
      }
    }
  }

  lemma {:induction false} PathConcrete(decls: Declarations, ops: seq<Operation>, input: seq<Type>,
      path: seq<CheckState>, k: nat)
    requires Definite(decls, ops, input) && AbstractPath(decls, ops, input, path) && k < |path|
    ensures ConcreteStack(path[k].stack)
    decreases k
  {
    hide Edge;
    hide Definite;
    if k == 0 {
      StartConcrete(decls, ops, input);
    } else {
      PathConcrete(decls, ops, input, path, k - 1);
      assert Edge(decls, ops, path[k - 1], path[k - 1 + 1]);
      EdgeConcrete(decls, ops, input, path[k - 1], path[k]);
    }
  }

  lemma StartConcrete(decls: Declarations, ops: seq<Operation>, input: seq<Type>)
    requires Definite(decls, ops, input)
    ensures ConcreteStack(input)
  {
  }

  lemma {:induction false} TypedConcrete(decls: Declarations, ops: seq<Operation>, input: seq<Type>,
      path: seq<CheckState>, k: nat)
    requires Definite(decls, ops, input) && NoVariables(ops) && TypedPath(decls, ops, input, path) && k < |path|
    ensures ConcreteStack(path[k].stack)
    decreases k
  {
    hide Edge;
    hide Moves;
    hide Definite;
    hide NoVariables;
    if k == 0 {
      StartConcrete(decls, ops, input);
    } else {
      TypedConcrete(decls, ops, input, path, k - 1);
      assert Moves(decls, ops, path[k - 1], path[k - 1 + 1]);
      MovesExactly(decls, ops, path[k - 1], path[k]);
      EdgeConcrete(decls, ops, input, path[k - 1], path[k]);
    }
  }

  /** The states the checker can reach are those that arise by the rules. */
  lemma ArisesExactly(decls: Declarations, ops: seq<Operation>, input: seq<Type>, s: CheckState)
    requires Definite(decls, ops, input) && NoVariables(ops)
    ensures Reached(decls, ops, input, s) <==> Arises(decls, ops, input, s)
    ensures Reached(decls, ops, input, s) ==> ConcreteStack(s.stack)
  {
    hide Edge;
    hide Moves;
    hide Definite;
    hide NoVariables;
    if path :| AbstractPath(decls, ops, input, path) && path[|path| - 1] == s {
      forall k | 0 <= k < |path| - 1
        ensures Moves(decls, ops, path[k], path[k + 1])
      {
        PathConcrete(decls, ops, input, path, k);
        MovesExactly(decls, ops, path[k], path[k + 1]);
      }
      assert TypedPath(decls, ops, input, path);
      PathConcrete(decls, ops, input, path, |path| - 1);
    }
    if path :| TypedPath(decls, ops, input, path) && path[|path| - 1] == s {
      forall k | 0 <= k < |path| - 1
        ensures Edge(decls, ops, path[k], path[k + 1])
      {
        TypedConcrete(decls, ops, input, path, k);
        MovesExactly(decls, ops, path[k], path[k + 1]);
      }
      assert AbstractPath(decls, ops, input, path);
    }
  }

  lemma ClashExactly(ops: seq<Operation>, s: CheckState, s': CheckState)
    requires ConcreteStack(s.stack) && ConcreteStack(s'.stack)
    ensures Clash(ops, s, s') <==> Disagree(ops, s, s')
  {
    hide CheckBool;
    hide OutputMatches;
    BranchRule(s.stack);
    BranchRule(s'.stack);
    if s.ip == s'.ip && IsDo(ops, s.ip) && Flagged(s.stack) && Flagged(s'.stack) {
      var a, b := s.stack[..|s.stack|-1], s'.stack[..|s'.stack|-1];
      ExitRule(b, a);
      assert s.stack == a + [Bool] && s'.stack == b + [Bool];
    }
  }

  /**
   Without `Any`, what the checker finds at fault is exactly what is ill-typed by the rules: with `Typecheck`, a body
   is accepted if and only if it is well-typed.
   */
  lemma FaultyExactly(decls: Declarations, ops: seq<Operation>, input: seq<Type>, output: seq<Type>)
    requires Definite(decls, ops, input) && NoVariables(ops) && ConcreteStack(output)
    ensures Faulty(decls, ops, input, output) <==> IllTyped(decls, ops, input, output)
  {
    hide Reached;
    hide Arises;
    hide Stuck;
    hide Wrong;
    hide Clash;
    hide Disagree;
    hide Definite;
    hide NoVariables;
    forall s: CheckState
      ensures Reached(decls, ops, input, s) <==> Arises(decls, ops, input, s)
      ensures Reached(decls, ops, input, s) ==> (Stuck(decls, ops, output, s) <==> Wrong(decls, ops, output, s))
    {
      ArisesExactly(decls, ops, input, s);
      if Reached(decls, ops, input, s) {
        WrongExactly(decls, ops, output, s);
      }
    }
    forall s, s' | Reached(decls, ops, input, s) && Reached(decls, ops, input, s')
      ensures Clash(ops, s, s') <==> Disagree(ops, s, s')
    {
      ArisesExactly(decls, ops, input, s);
      ArisesExactly(decls, ops, input, s');
      ClashExactly(ops, s, s');
    }
  }
}
