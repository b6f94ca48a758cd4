/**
 Structured programs: what `if … else … end` and `while … do … end` nest into, their token order,
 their linked jump code, and a big-step semantics that knows nothing about indices.
 */
module Structured {
  import opened Words
  import opened Operations
  import opened Machine

  datatype Stmt =
    | Simple(op: Plain)
    | IfThen(thn: Block)
    | IfElse(thn: Block, els: Block)
    | Loop(cond: Block, body: Block)

  datatype Block = Nil | Seq(head: Stmt, tail: Block)

  function Append(a: Block, b: Block): Block {
    match a
    case Nil => b
    case Seq(s, rest) => Seq(s, Append(rest, b))
  }

  // ----- token order -----

  function Size(b: Block): nat {
    match b
    case Nil => 0
    case Seq(s, rest) => StmtSize(s) + Size(rest)
  }

  function StmtSize(s: Stmt): nat {
    match s
    case Simple(_) => 1
    case IfThen(t) => Size(t) + 2
    case IfElse(t, e) => Size(t) + Size(e) + 3
    case Loop(c, b) => Size(c) + Size(b) + 3
  }

  function Flatten(b: Block): (r: seq<Kind>)
    ensures |r| == Size(b)
  {
    match b
    case Nil => []
    case Seq(s, rest) => FlattenStmt(s) + Flatten(rest)
  }

  function FlattenStmt(s: Stmt): (r: seq<Kind>)
    ensures |r| == StmtSize(s)
  {
    match s
    case Simple(p) => [Plain(p)]
    case IfThen(t) => [If] + Flatten(t) + [End]
    case IfElse(t, e) => [If] + Flatten(t) + [Else] + Flatten(e) + [End]
    case Loop(c, b) => [While] + Flatten(c) + [Do] + Flatten(b) + [End]
  }

  // ----- linked jump code -----

  /** The code of a block placed at index `at`. */
  function Link(b: Block, at: nat): (r: seq<Operation>)
    ensures |r| == Size(b)
  {
    match b
    case Nil => []
    case Seq(s, rest) => LinkStmt(s, at) + Link(rest, at + StmtSize(s))
  }

  function LinkStmt(s: Stmt, at: nat): (r: seq<Operation>)
    ensures |r| == StmtSize(s)
  {
    match s
    case Simple(p) => [Operation(Plain(p), NoJump)]
    case IfThen(t) =>
      var end := at + 1 + Size(t);
      [Operation(If, To(end))] + Link(t, at + 1) + [Operation(End, To(end + 1))]
    case IfElse(t, e) =>
      var els := at + 1 + Size(t);
      var end := els + 1 + Size(e);
      [Operation(If, To(els + 1))] + Link(t, at + 1)
      + [Operation(Else, To(end))] + Link(e, els + 1) + [Operation(End, To(end + 1))]
    case Loop(c, b) =>
      var do := at + 1 + Size(c);
      var end := do + 1 + Size(b);
      [Operation(While, NoJump)] + Link(c, at + 1)
      + [Operation(Do, To(end + 1))] + Link(b, do + 1) + [Operation(End, To(at))]
  }

  function Kinds(ops: seq<Operation>): (r: seq<Kind>)
    ensures |r| == |ops|
  {
    seq(|ops|, i requires 0 <= i < |ops| => ops[i].kind)
  }

  lemma KindsAppend(a: seq<Operation>, b: seq<Operation>)
    ensures Kinds(a + b) == Kinds(a) + Kinds(b)
  {
  }

  lemma ConcatAssoc<T>(a: seq<T>, b: seq<T>, c: seq<T>)
    ensures a + (b + c) == (a + b) + c
  {
  }

  lemma {:induction false} AppendNil(b: Block)
    ensures Append(b, Nil) == b
  {
    if b.Seq? {
      AppendNil(b.tail);
    }
  }

  lemma {:induction false} AppendAssoc(a: Block, b: Block, c: Block)
    ensures Append(Append(a, b), c) == Append(a, Append(b, c))
  {
    if a.Seq? {
      AppendAssoc(a.tail, b, c);
    }
  }

  lemma {:induction false} FlattenAppend(a: Block, b: Block)
    ensures Flatten(Append(a, b)) == Flatten(a) + Flatten(b)
    ensures Size(Append(a, b)) == Size(a) + Size(b)
  {
    match a
    case Nil =>
    case Seq(s, rest) =>
      FlattenAppend(rest, b);
      ConcatAssoc(FlattenStmt(s), Flatten(rest), Flatten(b));
  }

  lemma {:induction false} LinkAppend(a: Block, b: Block, at: nat)
    ensures Link(Append(a, b), at) == Link(a, at) + Link(b, at + Size(a))
  {
    hide LinkStmt;
    hide StmtSize;
    match a
    case Nil =>
    case Seq(s, rest) =>
      LinkAppend(rest, b, at + StmtSize(s));
      ConcatAssoc(LinkStmt(s, at), Link(rest, at + StmtSize(s)), Link(b, at + Size(a)));
  }

  // ----- big-step semantics -----

  type StructuredProgram = map<FunctionRef, Block>

  /** `OutOfFuel` says only that this much fuel was too little. */
  datatype Outcome =
    | Next(stack: seq<Word>, world: World)
    | Returned(stack: seq<Word>, world: World)
    | Aborted(why: Stop, stack: seq<Word>, world: World)
    | OutOfFuel

  /** Fuel bounds loop iterations and call depth. */
  function Exec(env: Env, p: StructuredProgram, fuel: nat, b: Block, st: seq<Word>, world: World): Outcome
    decreases fuel, 1, b
  {
    match b
    case Nil => Next(st, world)
    case Seq(s, rest) =>
      var r := ExecStmt(env, p, fuel, s, st, world);
      if r.Next? then Exec(env, p, fuel, rest, r.stack, r.world) else r
  }

  function ExecStmt(env: Env, p: StructuredProgram, fuel: nat, s: Stmt, st: seq<Word>, world: World): Outcome
    decreases fuel, 1, s
  {
    var n := |st|;
    match s
    case Simple(op) => ExecSimple(env, p, fuel, op, st, world)
    case IfThen(t) =>
      if n < 1 then Aborted(Underflow, st, world)
      else if st[n-1] == 0 then Next(st[..n-1], world)
      else Exec(env, p, fuel, t, st[..n-1], world)
    case IfElse(t, e) =>
      if n < 1 then Aborted(Underflow, st, world)
      else if st[n-1] == 0 then Exec(env, p, fuel, e, st[..n-1], world)
      else Exec(env, p, fuel, t, st[..n-1], world)
    case Loop(c, b) =>
      if fuel == 0 then OutOfFuel
      else
        var r := Exec(env, p, fuel, c, st, world);
        if !r.Next? then r
        else if |r.stack| < 1 then Aborted(Underflow, r.stack, r.world)
        else if r.stack[|r.stack|-1] == 0 then Next(r.stack[..|r.stack|-1], r.world)
        else
          var r' := Exec(env, p, fuel, b, r.stack[..|r.stack|-1], r.world);
          if r'.Next? then ExecStmt(env, p, fuel - 1, s, r'.stack, r'.world) else r'
  }

  function ExecSimple(env: Env, p: StructuredProgram, fuel: nat, op: Plain, st: seq<Word>, world: World): Outcome
    decreases fuel, 0, 1
  {
    var n := |st|;
    if op.Return? then Returned(st, world)
    else if op.CallSymbol? then ExecCall(env, p, fuel, op.id, st, world)
    else if !IsLocal(op) then
      if n < 1 then Aborted(Underflow, st, world)
      else (match env.resolve(st[n-1])
            case None => Aborted(BadCall, st, world)
            case Some(id) => ExecCall(env, p, fuel, id, st[..n-1], world))
    else
      match ApplyPlain(env, op, st, world)
      case Fault(why) => Aborted(why, st, world)
      case Continue(st', world') => Next(st', world')
  }

  function ExecCall(env: Env, p: StructuredProgram, fuel: nat, id: nat, st: seq<Word>, world: World): Outcome
    decreases fuel, 0, 0
  {
    if Function(id) !in p then Aborted(BadCall, st, world)
    else if fuel == 0 then OutOfFuel
    else
      var r := Exec(env, p, fuel - 1, p[Function(id)], st, world);
      if r.Returned? then Next(r.stack, r.world) else r
  }

  /** The jump code of a whole structured program. */
  function LinkProgram(p: StructuredProgram): (r: Program)
    ensures r.Keys == p.Keys
  {
    map f | f in p :: Link(p[f], 0)
  }
}
