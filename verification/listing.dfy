/**
 `generate_jump_targets_lookup`, `generate_instructions` and the function prologue and epilogue: the
 listing of a body, its labels, and where each operation's lines start.
 */
module Listing {
  import opened Wrappers
  import opened Words
  import opened Operations
  import opened Machine
  import opened Assembly
  import opened Codegen
  import opened Simulation

  // ----- jump targets -----

  predicate HasTarget(op: Operation) {
    Jumps(op.kind) && op.jump.To?
  }

  function Targets(body: seq<Operation>): set<nat> {
    set k | 0 <= k < |body| && HasTarget(body[k]) :: body[k].jump.target
  }

  method GenerateJumpTargets(body: seq<Operation>) returns (lookup: set<nat>)
    ensures lookup == Targets(body)
  {
    lookup := {};
    for i := 0 to |body|
      invariant lookup == set k | 0 <= k < i && HasTarget(body[k]) :: body[k].jump.target
    {
      if HasTarget(body[i]) {
        lookup := lookup + {body[i].jump.target};
      }
    }
  }

  // ----- lines -----

  /** Bodies the generator accepts: every control operation jumps within the body or to its end. */
  predicate Linkable(body: seq<Operation>) {
    forall k :: 0 <= k < |body| ==>
      && (Jumps(body[k].kind) ==> body[k].jump.To? && body[k].jump.target <= |body|)
      && (body[k].kind.Plain? && body[k].kind.plain.Intrinsic? ==> Emittable(body[k].kind.plain.intrinsic))
  }

  function Emit(body: seq<Operation>, i: nat): seq<Line>
    requires Linkable(body) && i < |body|
  {
    var op := body[i];
    match op.kind
    case Plain(Intrinsic(intrinsic)) =>
      if intrinsic.Call? then [Comment, Pop(RAX), CallRax] else IntrinsicCode(intrinsic)
    case Plain(Cast(_)) => [Comment]
    case Plain(CallSymbol(id)) => [Comment, CallFunction(id)]
    case Plain(PushSymbol(s)) => [Comment, PushAddress(s)]
    case Plain(PushInt(v, _)) => [Comment, MovImm(v), Push(RAX)]
    case Plain(Return) => [Comment, Jmp(|body|)]
    case End => if i + 1 != op.jump.target then [Comment, Jmp(op.jump.target)] else [Comment]
    case Do => [Comment, Pop(RAX), TestSelf(RAX), Jz(op.jump.target)]
    case If => [Comment, Pop(RAX), TestSelf(RAX), Jz(op.jump.target)]
    case Else => [Comment, Jmp(op.jump.target)]
    case While => [Comment]
  }

  function OperationLines(body: seq<Operation>, i: nat): seq<Line>
    requires Linkable(body) && i < |body|
  {
    (if i in Targets(body) then [Label(i)] else []) + Emit(body, i)
  }

  /** The lines of the first `n` operations. */
  function BodyLines(body: seq<Operation>, n: nat): seq<Line>
    requires Linkable(body) && n <= |body|
  {
    if n == 0 then [] else BodyLines(body, n - 1) + OperationLines(body, n - 1)
  }

  /** A function moves its return address to the call stack first; `main` has none. */
  function Prologue(f: FunctionRef): seq<Line> {
    if f == Main then [Comment] else [Comment, Pop(RAX), CallPointerToRbx, SaveReturn, IncCallPointer]
  }

  function Epilogue(f: FunctionRef): seq<Line> {
    if f == Main then [ExitProcess] else [DecCallPointer, CallPointerToRbx, LoadReturn, Push(RAX), Ret]
  }

  function FunctionLines(f: FunctionRef, body: seq<Operation>): seq<Line>
    requires Linkable(body)
  {
    Prologue(f) + BodyLines(body, |body|) + [Label(|body|)] + Epilogue(f)
  }

  /** Every operation's lines, and the label behind the last one. */
  function Instructions(body: seq<Operation>): seq<Line>
    requires Linkable(body)
  {
    BodyLines(body, |body|) + [Label(|body|)]
  }

  /** `generate_instructions`, appending to the listing operation by operation. */
  method GenerateInstructions(body: seq<Operation>) returns (lines: seq<Line>)
    requires Linkable(body)
    ensures lines == Instructions(body)
    ensures forall f :: FunctionLines(f, body) == Prologue(f) + lines + Epilogue(f)
  {
    var lookup := GenerateJumpTargets(body);
    lines := [];
    for i := 0 to |body|
      invariant lines == BodyLines(body, i)
    {
      var block := Emit(body, i);
      if i in lookup {
        block := [Label(i)] + block;
      } else {
        assert [] + block == block;
      }
      lines := lines + block;
    }
    lines := lines + [Label(|body|)];
    forall f
      ensures FunctionLines(f, body) == Prologue(f) + lines + Epilogue(f)
    {
      Around(Prologue(f), BodyLines(body, |body|), [Label(|body|)], Epilogue(f));
    }
  }

  lemma Around(p: seq<Line>, a: seq<Line>, b: seq<Line>, e: seq<Line>)
    ensures p + a + b + e == p + (a + b) + e
  {
  }

  /** Where operation `ip` of `f` starts, label included. */
  function LineOf(f: FunctionRef, body: seq<Operation>, ip: nat): nat
    requires Linkable(body) && ip <= |body|
  {
    |Prologue(f)| + |BodyLines(body, ip)|
  }

  // ----- labels -----

  predicate NoLabels(code: seq<Line>) {
    forall k :: 0 <= k < |code| ==> !code[k].Label?
  }

  predicate NoJumps(code: seq<Line>) {
    forall k :: 0 <= k < |code| ==> !code[k].Jmp? && !code[k].Jz?
  }

  lemma ConcatNoLabels(a: seq<Line>, b: seq<Line>)
    requires NoLabels(a) && NoJumps(a) && NoLabels(b) && NoJumps(b)
    ensures NoLabels(a + b) && NoJumps(a + b)
  {
  }

  lemma MathNoLabels(implementation: seq<Line>)
    requires NoLabels(implementation) && NoJumps(implementation)
    ensures NoLabels(MathCode(implementation)) && NoJumps(MathCode(implementation))
  {
    ConcatNoLabels([Comment, Pop(RBX), Pop(RAX)], implementation);
    ConcatNoLabels([Comment, Pop(RBX), Pop(RAX)] + implementation, [Push(RAX)]);
  }

  lemma DivNoLabels(end: seq<Line>)
    requires NoLabels(end) && NoJumps(end)
    ensures NoLabels(DivCode(end)) && NoJumps(DivCode(end))
  {
    ConcatNoLabels([Comment, Compute(XorTo, RDX, RDX), Pop(RBX), Pop(RAX), DivRbx], end);
  }

  lemma CompareNoLabels(c: Cond)
    ensures NoLabels(CompareCode(c)) && NoJumps(CompareCode(c))
  {
  }

  lemma BinaryNoLabels(op: BinaryOp)
    ensures NoLabels(BinaryCode(op)) && NoJumps(BinaryCode(op))
  {
    hide MathCode;
    hide DivCode;
    hide CompareCode;
    match op
    case Add => MathNoLabels([Compute(AddTo, RAX, RBX)]);
    case BitwiseAnd => MathNoLabels([Compute(AndTo, RAX, RBX)]);
    case BitwiseOr => MathNoLabels([Compute(OrTo, RAX, RBX)]);
    case BitwiseXor => MathNoLabels([Compute(XorTo, RAX, RBX)]);
    case LeftShift => MathNoLabels([Mov(RCX, RBX), Sal]);
    case Mul => MathNoLabels([Compute(ImulTo, RAX, RBX)]);
    case RightShift => MathNoLabels([Mov(RCX, RBX), Sar]);
    case Subtract => MathNoLabels([Compute(SubFrom, RAX, RBX)]);
    case Min => MathNoLabels([Cmp(RAX, RBX), Cmov(IfA, RAX, RBX)]);
    case Max => MathNoLabels([Cmp(RAX, RBX), Cmov(IfB, RAX, RBX)]);
    case BooleanOr => MathNoLabels([Compute(XorTo, RCX, RCX), Compute(OrTo, RAX, RBX), Set(IfNE, RCX), Mov(RAX, RCX)]);
    case BooleanAnd => MathNoLabels([Compute(XorTo, RCX, RCX), Compute(AndTo, RAX, RBX), Set(IfNE, RCX),
        Mov(RAX, RCX)]);
    case Div => DivNoLabels([Push(RAX)]);
    case Mod => DivNoLabels([Push(RDX)]);
    case Equal => CompareNoLabels(IfE);
    case Greater => CompareNoLabels(IfA);
    case GreaterEq => CompareNoLabels(IfNB);
    case Less => CompareNoLabels(IfB);
    case LessEq => CompareNoLabels(IfBE);
    case NotEqual => CompareNoLabels(IfNE);
  }

  lemma SyscallNoLabels(count: nat)
    requires count <= 6
    ensures var code := IntrinsicCode(Syscall(count)); NoLabels(code) && NoJumps(code)
  {
    ConcatNoLabels([Comment], SyscallPops(count));
    ConcatNoLabels([Comment] + SyscallPops(count), [SyscallLine(count), Push(RAX)]);
  }

  lemma IntrinsicNoLabels(i: Intrinsic)
    requires Emittable(i) && !i.Call?
    ensures NoLabels(IntrinsicCode(i)) && NoJumps(IntrinsicCode(i))
  {
    hide BinaryCode;
    hide DivCode;
    hide Pops;
    match i
    case Binary(op) => BinaryNoLabels(op);
    case DivMod => DivNoLabels([Push(RDX), Push(RAX)]);
    case Syscall(count) => SyscallNoLabels(count);
    case _ =>
  }

  lemma EmitHasNoLabel(body: seq<Operation>, i: nat)
    requires Linkable(body) && i < |body|
    ensures NoLabels(Emit(body, i))
  {
    hide IntrinsicCode;
    match body[i].kind
    case Plain(Intrinsic(intrinsic)) =>
      if !intrinsic.Call? {
        IntrinsicNoLabels(intrinsic);
      }
    case _ =>
  }

  lemma {:induction false} BodyLabels(body: seq<Operation>, n: nat, k: nat, t: nat)
    requires Linkable(body) && n <= |body| && k < |BodyLines(body, n)| && BodyLines(body, n)[k] == Label(t)
    ensures t < n && t in Targets(body) && k == |BodyLines(body, t)|
    decreases n
  {
    hide Emit;
    hide Targets;
    var m := |BodyLines(body, n - 1)|;
    if k < m {
      BodyLabels(body, n - 1, k, t);
    } else {
      var block := OperationLines(body, n - 1);
      assert block[k - m] == Label(t);
      EmitHasNoLabel(body, n - 1);
    }
  }

  lemma {:induction false} LinesGrow(body: seq<Operation>, m: nat, n: nat)
    requires Linkable(body) && m <= n <= |body|
    ensures |BodyLines(body, m)| <= |BodyLines(body, n)|
    ensures BodyLines(body, n)[..|BodyLines(body, m)|] == BodyLines(body, m)
    decreases n - m
  {
    hide OperationLines;
    if m < n {
      LinesGrow(body, m, n - 1);
    }
  }

  /** The lines of operation `ip` sit where `LineOf` says. */
  lemma LinesAt(f: FunctionRef, body: seq<Operation>, ip: nat)
    requires Linkable(body) && ip < |body|
    ensures var lines, at := FunctionLines(f, body), LineOf(f, body, ip);
      && LineOf(f, body, ip + 1) == at + |OperationLines(body, ip)| <= |lines|
      && lines[at..at + |OperationLines(body, ip)|] == OperationLines(body, ip)
  {
    hide OperationLines;
    hide Prologue;
    hide Epilogue;
    var all, before, upto := BodyLines(body, |body|), BodyLines(body, ip), BodyLines(body, ip + 1);
    LinesGrow(body, ip + 1, |body|);
    SliceOfPrefix(all, before, OperationLines(body, ip));
    SliceOfMiddle(Prologue(f), all, [Label(|body|)] + Epilogue(f), |before|, |upto|);
    assert FunctionLines(f, body) == Prologue(f) + all + ([Label(|body|)] + Epilogue(f));
  }

  lemma SliceOfPrefix(all: seq<Line>, a: seq<Line>, b: seq<Line>)
    requires |a| + |b| <= |all| && all[..|a| + |b|] == a + b
    ensures all[|a|..|a| + |b|] == b
  {
    assert all[|a|..|a| + |b|] == all[..|a| + |b|][|a|..];
  }

  lemma SliceOfMiddle(p: seq<Line>, m: seq<Line>, e: seq<Line>, i: nat, j: nat)
    requires i <= j <= |m|
    ensures |p| + j <= |p + m + e| && (p + m + e)[|p| + i..|p| + j] == m[i..j]
  {
  }

  predicate NamesLabel(l: Line, t: nat) {
    l == Jmp(t) || l == Jz(t)
  }

  /** Label `t` of `f`'s listing is the first line of operation `t`, or the line behind the last one. */
  lemma LabelPlaced(f: FunctionRef, body: seq<Operation>, t: nat)
    requires Linkable(body) && (t in Targets(body) || t == |body|) && t <= |body|
    ensures var lines, at := FunctionLines(f, body), LineOf(f, body, t);
      && at < |lines| && lines[at] == Label(t)
      && forall k :: 0 <= k < |lines| && lines[k] == Label(t) ==> k == at
  {
    hide FunctionLines;
    hide LineOf;
    hide Targets;
    LabelHere(f, body, t);
    var lines, at := FunctionLines(f, body), LineOf(f, body, t);
    forall k | 0 <= k < |lines| && lines[k] == Label(t)
      ensures k == at
    {
      LabelOnlyHere(f, body, t, k);
    }
  }

  lemma LabelHere(f: FunctionRef, body: seq<Operation>, t: nat)
    requires Linkable(body) && (t in Targets(body) || t == |body|) && t <= |body|
    ensures var lines, at := FunctionLines(f, body), LineOf(f, body, t);
      at < |lines| && lines[at] == Label(t)
  {
    hide Emit;
    hide Targets;
    hide BodyLines;
    hide Prologue;
    hide Epilogue;
    var lines, at := FunctionLines(f, body), LineOf(f, body, t);
    if t < |body| {
      LinesAt(f, body, t);
      assert lines[at] == lines[at..at + |OperationLines(body, t)|][0];
    } else {
      assert lines[at] == Label(t);
    }
  }

  lemma LabelOnlyHere(f: FunctionRef, body: seq<Operation>, t: nat, k: nat)
    requires Linkable(body) && k < |FunctionLines(f, body)| && FunctionLines(f, body)[k] == Label(t)
    ensures t <= |body| && k == LineOf(f, body, t)
  {
    hide Emit;
    hide Targets;
    hide OperationLines;
    hide BodyLines;
    var p, all := |Prologue(f)|, BodyLines(body, |body|);
    if p <= k < p + |all| {
      assert FunctionLines(f, body)[k] == all[k - p];
      BodyLabels(body, |body|, k - p, t);
    }
  }

  lemma EmitNames(body: seq<Operation>, i: nat, k: nat, t: nat)
    requires Linkable(body) && i < |body| && k < |Emit(body, i)| && NamesLabel(Emit(body, i)[k], t)
    ensures t <= |body| && (t in Targets(body) || t == |body|)
  {
    hide IntrinsicCode;
    match body[i].kind
    case Plain(Intrinsic(intrinsic)) =>
      if !intrinsic.Call? {
        IntrinsicNoLabels(intrinsic);
      }
    case Plain(_) =>
    case While =>
    case _ =>
      assert HasTarget(body[i]);
      assert body[i].jump.target in Targets(body);
  }

  lemma {:induction false} BodyNames(body: seq<Operation>, n: nat, k: nat, t: nat)
    requires Linkable(body) && n <= |body| && k < |BodyLines(body, n)| && NamesLabel(BodyLines(body, n)[k], t)
    ensures t <= |body| && (t in Targets(body) || t == |body|)
    decreases n
  {
    hide Emit;
    hide Targets;
    var m := |BodyLines(body, n - 1)|;
    if k < m {
      BodyNames(body, n - 1, k, t);
    } else {
      var block := OperationLines(body, n - 1);
      assert NamesLabel(block[k - m], t);
      EmitNames(body, n - 1, if n - 1 in Targets(body) then k - m - 1 else k - m, t);
    }
  }

  /** Every label a listing jumps to is defined in that listing, exactly once. */
  lemma LabelClosure(f: FunctionRef, body: seq<Operation>, k: nat, t: nat)
    requires Linkable(body) && k < |FunctionLines(f, body)| && NamesLabel(FunctionLines(f, body)[k], t)
    ensures var lines := FunctionLines(f, body);
      exists d :: 0 <= d < |lines| && lines[d] == Label(t) &&
        forall e :: 0 <= e < |lines| && lines[e] == Label(t) ==> e == d
  {
    hide BodyLines;
    var p, all := |Prologue(f)|, BodyLines(body, |body|);
    assert p <= k < p + |all|;
    assert FunctionLines(f, body)[k] == all[k - p];
    BodyNames(body, |body|, k - p, t);
    LabelPlaced(f, body, t);
  }

  function FindLabel(lines: seq<Line>, t: nat, from: nat): Option<nat>
    requires from <= |lines|
    decreases |lines| - from
  {
    if from == |lines| then None
    else if lines[from] == Label(t) then Some(from)
    else FindLabel(lines, t, from + 1)
  }

  lemma {:induction false} FindsLabel(lines: seq<Line>, t: nat, from: nat, at: nat)
    requires from <= at < |lines| && lines[at] == Label(t)
    requires forall k :: 0 <= k < |lines| && lines[k] == Label(t) ==> k == at
    ensures FindLabel(lines, t, from) == Some(at)
    decreases at - from
  {
    if from < at {
      FindsLabel(lines, t, from + 1, at);
    }
  }
}
