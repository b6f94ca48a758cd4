/**
 What the parser accepts is source: from tokens on which reading backwards succeeds, with every block closed, the
 nested source they print is recovered. With the other direction, reading accepts exactly the printed well-formed
 sources.
 */
module RecoveredSource {
  import opened Wrappers
  import opened Operations
  import opened Types
  import opened Parsing
  import opened ForwardTranslation

  // ----- the forward stack over parts -----

  function Shifted(s: seq<nat>, offset: nat): (r: seq<nat>)
    ensures |r| == |s|
  {
    seq(|s|, i requires 0 <= i < |s| => s[i] + offset)
  }

  lemma {:induction false} OpenConcat(a: seq<Token>, b: seq<Token>)
    requires OpenStack(a).Some? && OpenStack(b).Some?
    ensures OpenStack(a + b) == Some(OpenStack(a).value + Shifted(OpenStack(b).value, |a|))
    decreases |b|
  {
    hide OpenStack;
    NothingOpen();
    var s := OpenStack(a).value;
    if b == [] {
      assert a + b == a;
      assert s + Shifted([], |a|) == s;
    } else {
      var n := |b| - 1;
      assert b == b[..n] + [b[n]] && a + b == (a + b[..n]) + [b[n]];
      OpenSnoc(b[..n], b[n]);
      OpenSnoc(a + b[..n], b[n]);
      OpenConcat(a, b[..n]);
      ShiftedSnoc(s, OpenStack(b[..n]).value, |a|, n);
    }
  }

  lemma ShiftedSnoc(s: seq<nat>, t: seq<nat>, offset: nat, n: nat)
    ensures s + Shifted(t, offset) + [offset + n] == s + Shifted(t + [n], offset)
    ensures t != [] ==> var whole := s + Shifted(t, offset); whole[..|whole|-1] == s + Shifted(t[..|t|-1], offset)
  {
  }

  ghost predicate Balanced(ts: seq<Token>) {
    OpenStack(ts) == Some([])
  }

  lemma OpenSnoc(ts: seq<Token>, t: Token)
    ensures OpenStack(ts + [t]) ==
      match OpenStack(ts)
      case None => None
      case Some(s) =>
        if Opens(t) then Some(s + [|ts|]) else if !t.EndToken? then Some(s) else if s == [] then None
            else Some(s[..|s|-1])
  {
    assert (ts + [t])[..|ts|] == ts;
  }

  lemma BalancedBlock(a: seq<Token>, o: Token, b: seq<Token>)
    requires Balanced(a) && Opens(o) && Balanced(b)
    ensures Balanced(a + [o] + b + [EndToken])
  {
    OpenSnoc(a, o);
    OpenConcat(a + [o], b);
    assert Shifted([], |a| + 1) == [];
    OpenSnoc(a + [o] + b, EndToken);
  }

  lemma LastOfStack(init: seq<nat>, n: nat, s: seq<nat>, k: nat)
    requires init + [n] == s + [k]
    ensures init == s && n == k
  {
    assert (init + [n])[..|init|] == init && (s + [k])[..|s|] == s;
    assert (init + [n])[|init|] == n && (s + [k])[|s|] == k;
  }

  /** Below the last open position lies what was open before it; behind it everything is closed. */
  lemma {:induction false} StackSplits(x: seq<Token>, s: seq<nat>, k: nat)
    requires OpenStack(x) == Some(s + [k])
    ensures k < |x| && Opens(x[k]) && OpenStack(x[..k]) == Some(s) && Balanced(x[k + 1..])
    decreases |x|
  {
    hide OpenStack;
    NothingOpen();
    assert x != [];
    var n := |x| - 1;
    assert x == x[..n] + [x[n]];
    OpenSnoc(x[..n], x[n]);
    var init := OpenStack(x[..n]).value;
    if Opens(x[n]) {
      LastOfStack(init, n, s, k);
      assert x[n + 1..] == [];
    } else if !x[n].EndToken? {
      StackSplits(x[..n], s, k);
      SplitsPlain(x, n, k);
    } else {
      var j := init[|init|-1];
      assert init == (s + [k]) + [j];
      StackSplits(x[..n], s + [k], j);
      assert x[..n][..j] == x[..j];
      StackSplits(x[..j], s, k);
      assert x[..j][..k] == x[..k];
      SplitsEnd(x, n, j, k);
    }
  }

  lemma NothingOpen()
    ensures OpenStack([]) == Some([])
  {
  }

  lemma SplitsPlain(x: seq<Token>, n: nat, k: nat)
    requires k < n == |x| - 1 && Balanced(x[..n][k + 1..]) && !Opens(x[n]) && !x[n].EndToken?
    ensures x[..n][..k] == x[..k] && Balanced(x[k + 1..])
  {
    hide OpenStack;
    assert x[k + 1..] == x[..n][k + 1..] + [x[n]];
    OpenSnoc(x[..n][k + 1..], x[n]);
  }

  lemma SplitsEnd(x: seq<Token>, n: nat, j: nat, k: nat)
    requires k < j < n == |x| - 1 && Opens(x[j]) && x[n].EndToken?
    requires Balanced(x[..j][k + 1..]) && Balanced(x[..n][j + 1..])
    ensures Balanced(x[k + 1..])
  {
    hide OpenStack;
    var u, v := x[..j][k + 1..], x[..n][j + 1..];
    assert x[k + 1..] == u + [x[j]] + v + [EndToken];
    BalancedBlock(u, x[j], v);
  }

  /** A balanced sequence that ends with `end`: what comes before its opener, and what it encloses. */
  lemma LastBlock(mid: seq<Token>) returns (a: seq<Token>, o: Token, b: seq<Token>)
    requires Balanced(mid) && mid != [] && mid[|mid|-1].EndToken?
    ensures mid == a + [o] + b + [EndToken] && Opens(o) && Balanced(a) && Balanced(b)
  {
    var n := |mid| - 1;
    var x := mid[..n];
    assert mid == x + [mid[n]];
    OpenSnoc(x, mid[n]);
    var stack := OpenStack(x).value;
    var k := stack[|stack|-1];
    assert stack == [] + [k];
    StackSplits(x, [], k);
    a, o, b := x[..k], x[k], x[k + 1..];
    assert x == a + [o] + b;
  }

  /** Counting back from the `end` finds that opener. */
  lemma OpenerFound(pre: seq<Token>, a: seq<Token>, o: Token, b: seq<Token>)
    requires Opens(o) && Balanced(b)
    ensures Opener(pre + a + [o] + b, 1) == Some(|pre| + |a|)
  {
    hide Opener;
    hide Balanced;
    OpenerIsLast(pre + a, o);
    SkipsBalanced(pre + a + [o], b, 1);
  }

  lemma OpenerIsLast(ts: seq<Token>, o: Token)
    requires Opens(o)
    ensures Opener(ts + [o], 1) == Some(|ts|)
  {
    hide Opener;
    NoneLeft(ts);
    OpenerSnoc(ts, o, 1);
  }

  lemma NoneLeft(ts: seq<Token>)
    ensures Opener(ts, 0) == Some(|ts|)
  {
  }

  lemma {:induction false} SkipsBalanced(pre: seq<Token>, b: seq<Token>, c: nat)
    requires Balanced(b) && c > 0
    ensures Opener(pre + b, c) == Opener(pre, c)
    decreases |b|
  {
    if b == [] {
      assert pre + b == pre;
    } else {
      var n := |b| - 1;
      if b[n].EndToken? {
        var x, o, y := LastBlock(b);
        assert pre + b == (pre + x + [o] + y) + [EndToken];
        OpenerSnoc(pre + x + [o] + y, EndToken, c);
        SkipsBalanced(pre + x + [o], y, c + 1);
        OpenerSnoc(pre + x, o, c + 1);
        SkipsBalanced(pre, x, c);
      } else {
        assert b == b[..n] + [b[n]] && pre + b == (pre + b[..n]) + [b[n]];
        OpenSnoc(b[..n], b[n]);
        assert !Opens(b[n]);
        OpenerSnoc(pre + b[..n], b[n], c);
        SkipsBalanced(pre, b[..n], c);
      }
    }
  }

  // ----- headers -----

  lemma {:induction false} OnlyTypes(ts: seq<Token>, e: StackEffect) returns (types: seq<Type>)
    requires ReadEffect(ts, true, e).Some?
    ensures ts == Typenames(types)
    decreases |ts|
  {
    if ts == [] {
      types := [];
    } else {
      var n := |ts| - 1;
      var ty := ts[n].ty;
      types := OnlyTypes(ts[..n], e.(input := e.input + [ty]));
      types := types + [ty];
      assert ts == ts[..n] + [ts[n]];
    }
  }

  lemma TypenamesSnoc(types: seq<Type>, ty: Type)
    ensures Typenames(types + [ty]) == Typenames(types) + [Typename(ty)]
  {
  }

  /** Tokens that are read as a stack effect are one. */
  lemma {:induction false} HeaderRecovered(ts: seq<Token>, e: StackEffect) returns (h: Header)
    requires ReadEffect(ts, false, e).Some?
    ensures PrintHeader(h) == ts + [DefinitionToken] && (h.TypedHeader? || h.OutputHeader?)
    decreases |ts|
  {
    if ts == [] {
      h := OutputHeader([]);
      assert Typenames([]) == [];
    } else {
      var n := |ts| - 1;
      assert ts == ts[..n] + [ts[n]];
      if ts[n].DividerToken? {
        var types := OnlyTypes(ts[..n], e);
        h := TypedHeader(StackEffect(types, []));
        assert Typenames([]) == [];
        assert PrintHeader(h) == Typenames(types) + [DividerToken] + [] + [DefinitionToken];
      } else {
        var ty := ts[n].ty;
        var inner := HeaderRecovered(ts[..n], e.(output := e.output + [ty]));
        h := MoreOutput(inner, ty);
        OutputGrows(inner, ty, ts[..n]);
      }
    }
  }

  function MoreOutput(h: Header, ty: Type): Header {
    match h
    case TypedHeader(e) => TypedHeader(StackEffect(e.input, e.output + [ty]))
    case OutputHeader(output) => OutputHeader(output + [ty])
    case _ => h
  }

  lemma OutputGrows(h: Header, ty: Type, ts: seq<Token>)
    requires (h.TypedHeader? || h.OutputHeader?) && PrintHeader(h) == ts + [DefinitionToken]
    ensures PrintHeader(MoreOutput(h, ty)) == ts + [Typename(ty)] + [DefinitionToken]
  {
    hide Typenames;
    match h
    case TypedHeader(e) =>
      TypenamesSnoc(e.output, ty);
      var x := Typenames(e.input) + [DividerToken] + Typenames(e.output);
      assert ts == x by {
        assert (ts + [DefinitionToken])[..|ts|] == ts && (x + [DefinitionToken])[..|x|] == x;
      }
    case OutputHeader(output) =>
      TypenamesSnoc(output, ty);
      assert ts == Typenames(output) by {
        assert (ts + [DefinitionToken])[..|ts|] == ts;
        assert (Typenames(output) + [DefinitionToken])[..|Typenames(output)|] == Typenames(output);
      }
  }

  lemma {:induction false} EffectTokens(ts: seq<Token>, input: bool, e: StackEffect, k: nat)
    requires ReadEffect(ts, input, e).Some? && k < |ts|
    ensures ts[k].Typename? || ts[k].DividerToken?
    decreases |ts|
  {
    var n := |ts| - 1;
    if k < n {
      if ts[n].DividerToken? {
        EffectTokens(ts[..n], true, e, k);
      } else {
        var ty := ts[n].ty;
        EffectTokens(ts[..n], input, if input then e.(input := e.input + [ty]) else e.(output := e.output + [ty]), k);
      }
    }
  }

  // ----- source read from its end -----

  function Snoc(source: Source, item: Item): Source {
    match source
    case Empty => Then(item, Empty)
    case Then(first, rest) => Then(first, Snoc(rest, item))
  }

  lemma {:induction false} PrintSnoc(source: Source, item: Item)
    ensures Print(Snoc(source, item)) == Print(source) + PrintItem(item)
    decreases source
  {
    hide PrintItem;
    match source
    case Empty => assert PrintItem(item) + [] == [] + PrintItem(item);
    case Then(first, rest) =>
      PrintSnoc(rest, item);
      Assoc(PrintItem(first), Print(rest), PrintItem(item));
  }

  lemma {:induction false} FormedSnoc(words: Dictionary, level: Level, source: Source, item: Item)
    requires Formed(words, level, source) && ItemFormed(words, level, item)
    ensures Formed(words, level, Snoc(source, item))
    decreases source
  {
    if source.Then? {
      FormedSnoc(words, level, source.rest, item);
    }
  }

  /** Definitions of arrays and constants as registering the words has left them. */
  ghost predicate Shaped(ts: seq<Token>) {
    forall i :: 0 <= i < |ts| && (ts[i].ArrayToken? || ts[i].ConstantToken?) ==> ShapedAt(ts, i)
  }

  predicate ShapedAt(ts: seq<Token>, i: nat)
    requires i < |ts|
  {
    i >= 2 && ts[i-2].Name? && (ts[i-1].Integer? || ts[i-1].Name?)
  }

  lemma ShapedPrefix(ts: seq<Token>, n: nat)
    requires Shaped(ts) && n <= |ts|
    ensures Shaped(ts[..n])
  {
    forall i | 0 <= i < n && (ts[..n][i].ArrayToken? || ts[..n][i].ConstantToken?)
      ensures ShapedAt(ts[..n], i)
    {
      assert ShapedAt(ts, i);
    }
  }

  /** What stands before a part of source: nothing, or the opener of the block it is in. */
  predicate Before(pre: seq<Token>) {
    pre == [] || Opens(pre[|pre|-1])
  }

  /** How many blocks operations open more than they close. */
  function Surplus(kinds: seq<Kind>): int {
    if kinds == [] then 0
    else
      var k := kinds[|kinds|-1];
      Surplus(kinds[..|kinds|-1]) + (if k == If || k == While then 1 else if k == End then -1 else 0)
  }

  lemma SurplusSnoc(kinds: seq<Kind>, k: Kind)
    ensures Surplus(kinds + [k]) == Surplus(kinds) + (if k == If || k == While then 1 else if k == End then -1 else 0)
  {
    assert (kinds + [k])[..|kinds|] == kinds;
  }

  lemma BackwardStep(words: Dictionary, level: Level, ts: seq<Token>, p: Progress)
    requires ts != []
    ensures Backward(words, level, ts, p) ==
      match TakeTurn(words, level, ts, p) case Stop(r) => r
          case More(left, p') => Backward(words, level, ts[..left], p')
  {
    hide TakeTurn;
  }

  /** Reading `mid` behind `pre` succeeds: then it is source, with a header only if nothing stands before it. */
  ghost predicate Recovered(words: Dictionary, level: Level, pre: seq<Token>, mid: seq<Token>, p: Progress, h: Header,
                            source: Source, p': Progress) {
    && mid == PrintHeader(h) + Print(source) && Formed(words, level, source)
    && (h != NoHeader ==> pre == [] && level == Inside)
    && (h == NoHeader ==>
          Backward(words, level, pre + mid, p) == Backward(words, level, pre, p')
              && Surplus(p'.body) == Surplus(p.body))
  }

  /** One more item at the end. */
  lemma RecoveredSnoc(words: Dictionary, level: Level, pre: seq<Token>, mid: seq<Token>, p1: Progress, h: Header,
                      source: Source, p': Progress, item: Item, p: Progress)
    requires Recovered(words, level, pre, mid, p1, h, source, p') && ItemFormed(words, level, item)
    requires Surplus(p1.body) == Surplus(p.body)
    requires Backward(words, level, pre + (mid + PrintItem(item)), p) == Backward(words, level, pre + mid, p1)
    ensures Recovered(words, level, pre, mid + PrintItem(item), p, h, Snoc(source, item), p')
  {
    hide Backward;
    hide Print;
    hide PrintItem;
    hide PrintHeader;
    hide Surplus;
    PrintSnoc(source, item);
    FormedSnoc(words, level, source, item);
    Assoc(PrintHeader(h), Print(source), PrintItem(item));
  }

  // ----- recovering -----

  lemma TranslatedIsWord(words: Dictionary, t: Token)
    requires Translate(words, t).Some? && !Opens(t)
    ensures IsWord(words, t)
  {
  }

  /** A token that does not close a block and stands at the end of balanced tokens is none that opens one. */
  lemma LastIsNoOpener(mid: seq<Token>)
    requires Balanced(mid) && mid != [] && !mid[|mid|-1].EndToken?
    ensures !Opens(mid[|mid|-1]) && Balanced(mid[..|mid|-1])
  {
    hide OpenStack;
    var n := |mid| - 1;
    assert mid == mid[..n] + [mid[n]];
    OpenSnoc(mid[..n], mid[n]);
  }

  lemma NothingRecovered(words: Dictionary, level: Level, pre: seq<Token>, p: Progress)
    ensures Recovered(words, level, pre, [], p, NoHeader, Empty, p)
  {
    hide Backward;
    assert pre + [] == pre;
  }

  lemma {:induction false} Recover(words: Dictionary, level: Level, pre: seq<Token>, mid: seq<Token>, p: Progress)
      returns (h: Header, source: Source, p': Progress)
    requires Balanced(mid) && Before(pre) && (level.Global? ==> Shaped(pre + mid))
    requires Backward(words, level, pre + mid, p).Done?
    ensures Recovered(words, level, pre, mid, p, h, source, p')
    decreases |mid|, 2
  {
    hide Backward;
    hide TakeTurn;
    hide OpenStack;
    hide Recovered;
    if mid == [] {
      h, source, p' := NoHeader, Empty, p;
      NothingRecovered(words, level, pre, p);
    } else {
      var t := mid[|mid|-1];
      BackwardStep(words, level, pre + mid, p);
      if t.EndToken? {
        h, source, p' := RecoverBlock(words, level, pre, mid, p);
      } else if t.ArrayToken? || t.ConstantToken? {
        h, source, p' := RecoverDefine(words, level, pre, mid, p);
      } else if t.DynamicToken? || t.DefinitionToken? {
        h, source, p' := RecoverHeader(words, level, pre, mid, p);
      } else {
        h, source, p' := RecoverWord(words, level, pre, mid, p);
      }
    }
  }

  lemma {:induction false} RecoverWord(words: Dictionary, level: Level, pre: seq<Token>, mid: seq<Token>, p: Progress)
      returns (h: Header, source: Source, p': Progress)
    requires Balanced(mid) && Before(pre) && (level.Global? ==> Shaped(pre + mid))
    requires Backward(words, level, pre + mid, p).Done? && mid != []
    requires var t := mid[|mid|-1];
      !t.EndToken? && !t.ArrayToken? && !t.ConstantToken? && !t.DynamicToken? && !t.DefinitionToken?
    ensures Recovered(words, level, pre, mid, p, h, source, p')
    decreases |mid|, 0
  {
    hide Backward;
    hide OpenStack;
    hide Recovered;
    hide Translate;
    var m, ts := |mid| - 1, pre + mid;
    var t, init := mid[m], mid[..m];
    BackwardStep(words, level, ts, p);
    assert ts[|ts|-1] == t && ts[..|ts|-1] == pre + init;
    LastIsNoOpener(mid);
    TranslatedIsWord(words, t);
    var p1 := p.(body := p.body + [Translate(words, t).value]);
    SurplusSnoc(p.body, Translate(words, t).value);
    WordKind(words, t);
    ShapedPart(level, ts, |ts| - 1);
    h, source, p' := Recover(words, level, pre, init, p1);
    assert mid == init + PrintItem(Leaf(t));
    RecoveredSnoc(words, level, pre, init, p1, h, source, p', Leaf(t), p);
    source := Snoc(source, Leaf(t));
  }

  lemma WordKind(words: Dictionary, t: Token)
    requires IsWord(words, t)
    ensures Translate(words, t).Some? && Translate(words, t).value !in {If, While, End}
  {
  }

  lemma ShapedPart(level: Level, ts: seq<Token>, n: nat)
    requires (level.Global? ==> Shaped(ts)) && n <= |ts|
    ensures level.Global? ==> Shaped(ts[..n])
  {
    if level.Global? {
      ShapedPrefix(ts, n);
    }
  }

  lemma RecoverHeader(words: Dictionary, level: Level, pre: seq<Token>, mid: seq<Token>, p: Progress)
      returns (h: Header, source: Source, p': Progress)
    requires Before(pre) && Backward(words, level, pre + mid, p).Done? && mid != []
    requires mid[|mid|-1].DynamicToken? || mid[|mid|-1].DefinitionToken?
    ensures Recovered(words, level, pre, mid, p, h, source, p')
  {
    hide Backward;
    hide PrintHeader;
    var ts := pre + mid;
    BackwardStep(words, level, ts, p);
    assert ts[|ts|-1] == mid[|mid|-1];
    source, p' := Empty, p;
    HeaderTurn(words, level, ts, p);
    if ts[|ts|-1].DynamicToken? {
      h := DynamicHeader;
      DynamicPrints();
      assert mid == [DynamicToken] + [];
    } else {
      h := RecoverEffect(pre, mid);
      assert mid == mid + [];
    }
  }

  lemma DynamicPrints()
    ensures PrintHeader(DynamicHeader) == [DynamicToken]
  {
  }

  /** A header is read only inside a function, `dynamic` only at its start, `is` only behind a stack effect. */
  lemma HeaderTurn(words: Dictionary, level: Level, ts: seq<Token>, p: Progress)
    requires ts != [] && (ts[|ts|-1].DynamicToken? || ts[|ts|-1].DefinitionToken?)
    requires TakeTurn(words, level, ts, p).More? || TakeTurn(words, level, ts, p).result.Done?
    ensures level == Inside
    ensures if ts[|ts|-1].DynamicToken? then |ts| == 1
            else ReadEffect(ts[..|ts|-1], false, StackEffect([], [])).Some?
  {
  }

  lemma RecoverEffect(pre: seq<Token>, mid: seq<Token>) returns (h: Header)
    requires Before(pre) && mid != [] && mid[|mid|-1] == DefinitionToken
    requires ReadEffect((pre + mid)[..|pre + mid|-1], false, StackEffect([], [])).Some?
    ensures pre == [] && PrintHeader(h) == mid && h != NoHeader
  {
    hide ReadEffect;
    hide PrintHeader;
    var all := pre + mid;
    var ts := all[..|all|-1];
    if pre != [] {
      assert ts[|pre|-1] == pre[|pre|-1];
      EffectTokens(ts, false, StackEffect([], []), |pre| - 1);
    }
    h := HeaderRecovered(ts, StackEffect([], []));
    assert mid == ts + [DefinitionToken];
    NotNone(h);
  }

  lemma NotNone(h: Header)
    requires PrintHeader(h) != []
    ensures h != NoHeader
  {
  }

  /** The three tokens of a definition stand together. */
  lemma DefineTail(pre: seq<Token>, mid: seq<Token>) returns (init: seq<Token>, item: Item)
    requires Balanced(mid) && Before(pre) && mid != [] && ShapedAt(pre + mid, |pre + mid| - 1)
    requires mid[|mid|-1].ArrayToken? || mid[|mid|-1].ConstantToken?
    ensures mid == init + PrintItem(item) && item.Define? && Balanced(init) && |init| + 3 == |mid|
    ensures (item.size.Integer? || item.size.Name?) && (item.what.ArrayToken? || item.what.ConstantToken?)
  {
    hide OpenStack;
    var ts, m := pre + mid, |mid| - 1;
    var n := |ts| - 1;
    assert m >= 2;
    assert mid[m-2] == ts[n-2] && mid[m-1] == ts[n-1];
    init, item := mid[..m-2], Define(mid[m-2].name, mid[m-1], mid[m]);
    LastIsNoOpener(mid);
    assert mid[..m][..m-1] == mid[..m-1] && mid[..m-1][..m-2] == init;
    LastIsNoOpener(mid[..m]);
    LastIsNoOpener(mid[..m-1]);
    assert mid == init + [mid[m-2], mid[m-1], mid[m]];
  }

  lemma {:induction false} RecoverDefine(words: Dictionary, level: Level, pre: seq<Token>, mid: seq<Token>, p: Progress)
      returns (h: Header, source: Source, p': Progress)
    requires Balanced(mid) && Before(pre) && (level.Global? ==> Shaped(pre + mid))
    requires Backward(words, level, pre + mid, p).Done? && mid != []
    requires mid[|mid|-1].ArrayToken? || mid[|mid|-1].ConstantToken?
    ensures Recovered(words, level, pre, mid, p, h, source, p')
    decreases |mid|, 0
  {
    hide Backward;
    hide TakeTurn;
    hide Balanced;
    hide Shaped;
    hide Recovered;
    hide PrintItem;
    var ts := pre + mid;
    var n := |ts| - 1;
    BackwardStep(words, level, ts, p);
    assert ts[n] == mid[|mid|-1];
    DefineTurn(words, level, ts, p);
    var init, item := DefineTail(pre, mid);
    assert ts[..n-2] == pre + init;
    ShapedPart(level, ts, n - 2);
    h, source, p' := Recover(words, level, pre, init, p);
    RecoveredSnoc(words, level, pre, init, p, h, source, p', item, p);
    source := Snoc(source, item);
  }

  lemma {:induction false} RecoverBlock(words: Dictionary, level: Level, pre: seq<Token>, mid: seq<Token>, p: Progress)
      returns (h: Header, source: Source, p': Progress)
    requires Balanced(mid) && Before(pre) && (level.Global? ==> Shaped(pre + mid))
    requires Backward(words, level, pre + mid, p).Done? && mid != [] && mid[|mid|-1].EndToken?
    ensures Recovered(words, level, pre, mid, p, h, source, p')
    decreases |mid|, 1
  {
    hide Backward;
    hide OpenStack;
    hide Recovered;
    var a, o, b := LastBlock(mid);
    if o.IfToken? || o.WhileToken? {
      h, source, p' := RecoverBranch(words, level, pre, a, o, b, p);
    } else {
      h, source, p' := RecoverFunction(words, level, pre, a, o, b, p);
    }
  }

  /** The turn at an `end`, its opener known. */
  lemma EndTurn(words: Dictionary, level: Level, pre: seq<Token>, a: seq<Token>, o: Token, b: seq<Token>, p: Progress)
    requires Opens(o) && Balanced(b)
    ensures var ts := pre + (a + [o] + b + [EndToken]);
      var n, k := |ts| - 1, |pre| + |a|;
      && ts[..n] == pre + a + [o] + b && ts[k] == o && ts[k + 1..n] == b && ts[n] == EndToken
      && Opener(ts[..n], 1) == Some(k) && TakeTurn(words, level, ts, p) == CloseBlock(words, ts, p)
  {
    hide Opener;
    hide OpenStack;
    hide CloseBlock;
    var ts := pre + (a + [o] + b + [EndToken]);
    var n := |ts| - 1;
    assert ts == pre + a + [o] + b + [EndToken];
    assert ts[..n] == pre + a + [o] + b;
    OpenerFound(pre, a, o, b);
  }

  /** Where something stands before, there is no header. */
  lemma NoHeaderInside(words: Dictionary, level: Level, pre: seq<Token>, mid: seq<Token>, p: Progress, h: Header,
                       source: Source, p': Progress)
    requires Recovered(words, level, pre, mid, p, h, source, p') && pre != []
    ensures mid == Print(source) && Formed(words, level, source) && Surplus(p'.body) == Surplus(p.body)
    ensures Backward(words, level, pre + mid, p) == Backward(words, level, pre, p')
  {
    hide Backward;
    hide Print;
    assert [] + Print(source) == Print(source);
  }

  lemma BranchPrinted(a: seq<Token>, o: Token, inside: Source)
    ensures a + [o] + Print(inside) + [EndToken] == a + PrintItem(Block(o, inside))
  {
    hide Print;
  }

  lemma {:induction false} RecoverBranch(words: Dictionary, level: Level, pre: seq<Token>, a: seq<Token>, o: Token,
                                         b: seq<Token>, p: Progress)
      returns (h: Header, source: Source, p': Progress)
    requires (o.IfToken? || o.WhileToken?) && Balanced(a) && Balanced(b) && Before(pre)
    requires var mid := a + [o] + b + [EndToken];
      (level.Global? ==> Shaped(pre + mid)) && Backward(words, level, pre + mid, p).Done?
    ensures Recovered(words, level, pre, a + [o] + b + [EndToken], p, h, source, p')
    decreases |a| + |b| + 2, 0
  {
    hide Backward;
    hide Balanced;
    hide Shaped;
    hide Opener;
    hide TakeTurn;
    hide Recovered;
    hide Formed;
    hide Print;
    hide PrintItem;
    hide Surplus;
    var ts := pre + (a + [o] + b + [EndToken]);
    var n := |ts| - 1;
    BackwardStep(words, level, ts, p);
    EndTurn(words, level, pre, a, o, b, p);
    var p1, outer := p.(body := p.body + [End]), pre + a + [o];
    BranchCloses(words, ts, |pre| + |a|, p);
    SurplusSnoc(p.body, End);
    ShapedPart(level, ts, n);
    var h1, inside, p2 := Recover(words, level, outer, b, p1);
    NoHeaderInside(words, level, outer, b, p1, h1, inside, p2);
    var p3 := OpenerTurn(words, level, pre + a, o, p2);
    ShapedPart(level, ts, |pre| + |a|);
    assert ts[..|pre| + |a|] == pre + a;
    h, source, p' := Recover(words, level, pre, a, p3);
    BranchPrinted(a, o, inside);
    RecoveredSnoc(words, level, pre, a, p3, h, source, p', Block(o, inside), p);
    source := Snoc(source, Block(o, inside));
  }

  lemma BranchCloses(words: Dictionary, ts: seq<Token>, k: nat, p: Progress)
    requires ts != [] && k < |ts| - 1 && Opener(ts[..|ts|-1], 1) == Some(k) && (ts[k].IfToken? || ts[k].WhileToken?)
    ensures CloseBlock(words, ts, p) == More(|ts| - 1, p.(body := p.body + [End]))
  {
    hide Opener;
  }

  /** The opener of a branch is read as a word. */
  lemma OpenerTurn(words: Dictionary, level: Level, ts: seq<Token>, o: Token, p: Progress) returns (p': Progress)
    requires o.IfToken? || o.WhileToken?
    ensures Backward(words, level, ts + [o], p) == Backward(words, level, ts, p')
    ensures Surplus(p'.body) == Surplus(p.body) + 1
  {
    hide Backward;
    BackwardStep(words, level, ts + [o], p);
    SurplusSnoc(p.body, if o.IfToken? then If else While);
    assert (ts + [o])[..|ts|] == ts;
    p' := p.(body := p.body + [if o.IfToken? then If else While]);
  }

  lemma FunctionPrinted(rest: seq<Token>, opening: seq<Token>, key: Key, h: Header, body: Source)
    requires Opening(key) == opening
    ensures rest + opening + (PrintHeader(h) + Print(body)) + [EndToken] == rest + PrintItem(Fun(key, h, body))
  {
    hide Print;
    hide PrintHeader;
  }

  /** A function is closed only with a key that is known and a body that reads. */
  lemma FunctionCloses(words: Dictionary, ts: seq<Token>, k: nat, p: Progress)
    requires ts != [] && k < |ts| - 1 && Opener(ts[..|ts|-1], 1) == Some(k) && !ts[k].IfToken? && !ts[k].WhileToken?
    requires CloseBlock(words, ts, p).More? || CloseBlock(words, ts, p).result.Done?
    ensures KeyAt(ts, k).Some? && KeyAt(ts, k).value in words
    ensures var key := KeyAt(ts, k).value;
      var inner := Backward(words, Inside, ts[k+1..|ts|-1], Resume(p.functions, key));
      && inner.Done?
      && CloseBlock(words, ts, p) == More(Cut(ts, k), AfterFunction(words, key, p, Record(inner.progress, key)))
  {
    hide Opener;
    hide Backward;
  }

  lemma {:induction false} RecoverFunction(words: Dictionary, level: Level, pre: seq<Token>, a: seq<Token>, o: Token,
                                           b: seq<Token>, p: Progress)
      returns (h: Header, source: Source, p': Progress)
    requires Opens(o) && !o.IfToken? && !o.WhileToken? && Balanced(a) && Balanced(b) && Before(pre)
    requires var mid := a + [o] + b + [EndToken];
      (level.Global? ==> Shaped(pre + mid)) && Backward(words, level, pre + mid, p).Done?
    ensures Recovered(words, level, pre, a + [o] + b + [EndToken], p, h, source, p')
    decreases |a| + |b| + 2, 0
  {
    hide Backward;
    hide Balanced;
    hide Shaped;
    hide Opener;
    hide TakeTurn;
    hide CloseBlock;
    hide Recovered;
    hide Formed;
    hide Print;
    hide PrintItem;
    hide PrintHeader;
    hide KeyAt;
    hide Cut;
    hide AfterFunction;
    hide Resume;
    hide Surplus;
    var ts := pre + (a + [o] + b + [EndToken]);
    var n, k := |ts| - 1, |pre| + |a|;
    BackwardStep(words, level, ts, p);
    EndTurn(words, level, pre, a, o, b, p);
    FunctionCloses(words, ts, k, p);
    var key := KeyAt(ts, k).value;
    var start := Resume(p.functions, key);
    assert [] + b == b;
    var h1, body, p2 := Recover(words, Inside, [], b, start);
    FunctionBody(words, b, start, h1, body, p2);
    var p3 := AfterFunction(words, key, p, Record(Backward(words, Inside, b, start).progress, key));
    SurplusAfter(words, key, p, Record(Backward(words, Inside, b, start).progress, key));
    assert ts[..k] == pre + a;
    KeyFront(pre, a, o, ts, k);
    var front := Cut(ts, k) - |pre|;
    var rest, item := a[..front], Fun(key, h1, body);
    assert ts[..Cut(ts, k)] == pre + rest;
    ShapedPart(level, ts, Cut(ts, k));
    h, source, p' := Recover(words, level, pre, rest, p3);
    FunctionPrinted(rest, a[front..] + [o], key, h1, body);
    assert a + [o] == rest + (a[front..] + [o]);
    RecoveredSnoc(words, level, pre, rest, p3, h, source, p', item, p);
    source := Snoc(source, item);
  }

  lemma SurplusAfter(words: Dictionary, key: Key, p: Progress, functions: Functions)
    requires key in words
    ensures Surplus(AfterFunction(words, key, p, functions).body) == Surplus(p.body)
  {
    if key.Anonymous? {
      SurplusSnoc(p.body, Plain(PushSymbol(FunctionSymbol(words[key].id))));
    }
  }

  lemma FunctionBody(words: Dictionary, b: seq<Token>, start: Progress, h: Header, body: Source, p': Progress)
    requires Recovered(words, Inside, [], b, start, h, body, p')
    ensures b == PrintHeader(h) + Print(body) && Formed(words, Inside, body)
  {
    hide Backward;
  }

  /** The name of a function stands in the tokens before its opener, not among what they stand behind. */
  lemma KeyFront(pre: seq<Token>, a: seq<Token>, o: Token, ts: seq<Token>, k: nat)
    requires Before(pre) && Balanced(a) && k == |pre| + |a| && k < |ts| && ts[..k] == pre + a && ts[k] == o
    requires Opens(o) && !o.IfToken? && !o.WhileToken? && KeyAt(ts, k).Some?
    ensures var front := Cut(ts, k) - |pre|;
      && 0 <= front <= |a| && Opening(KeyAt(ts, k).value) == a[front..] + [o] && Balanced(a[..front])
  {
    hide OpenStack;
    if o.LambdaToken? {
      assert a[..|a|] == a && a[|a|..] == [];
    } else {
      assert ts[k-1] == ts[..k][k-1];
      assert a != [];
      var m := |a| - 1;
      assert ts[k-1] == a[m] && a[m..] == [a[m]];
      LastIsNoOpener(a);
    }
  }

  /**
   Tokens whose blocks are all closed are read without a failure only if they print well-formed source: what is read
   is what is written.
   */
  lemma ReadIsSource(words: Dictionary, ts: seq<Token>) returns (source: Source)
    requires Balanced(ts) && Shaped(ts)
    requires Backward(words, Global, ts, Progress([], map[], false, None)).Done?
    ensures ts == Print(source) && Formed(words, Global, source)
  {
    hide Backward;
    hide OpenStack;
    var p := Progress([], map[], false, None);
    assert [] + ts == ts;
    var h, s, p' := Recover(words, Global, [], ts, p);
    source := s;
    assert [] + Print(s) == Print(s);
  }

  // ----- blocks left open -----

  lemma {:induction false} SurplusConcat(a: seq<Kind>, b: seq<Kind>)
    ensures Surplus(a + b) == Surplus(a) + Surplus(b)
    decreases |b|
  {
    if b == [] {
      assert a + b == a;
    } else {
      var n := |b| - 1;
      assert a + b == (a + b[..n]) + [b[n]] && b == b[..n] + [b[n]];
      SurplusSnoc(a + b[..n], b[n]);
      SurplusSnoc(b[..n], b[n]);
      SurplusConcat(a, b[..n]);
    }
  }

  lemma SurplusOne(k: Kind)
    ensures Surplus([k]) == if k == If || k == While then 1 else if k == End then -1 else 0
  {
    NoSurplus();
    SurplusSnoc([], k);
    assert [] + [k] == [k];
  }

  lemma {:induction false} SurplusReverse(a: seq<Kind>)
    ensures Surplus(Reverse(a)) == Surplus(a)
    decreases |a|
  {
    hide Surplus;
    if a == [] {
      assert Reverse(a) == [];
    } else {
      var n := |a| - 1;
      assert a == a[..n] + [a[n]];
      ReverseConcat(a[..n], [a[n]]);
      assert Reverse([a[n]]) == [a[n]];
      SurplusConcat([a[n]], Reverse(a[..n]));
      SurplusConcat(a[..n], [a[n]]);
      SurplusReverse(a[..n]);
    }
  }

  /** Blocks that are never closed show in the operations that are left. */
  lemma {:induction false} OpenBlocksShow(words: Dictionary, ts: seq<Token>, p: Progress)
    requires OpenStack(ts).Some? && Shaped(ts) && Backward(words, Global, ts, p).Done?
    ensures Surplus(Backward(words, Global, ts, p).progress.body) == Surplus(p.body) + |OpenStack(ts).value|
    decreases |ts|
  {
    hide Backward;
    hide OpenStack;
    hide Surplus;
    var stack := OpenStack(ts).value;
    if stack == [] {
      assert [] + ts == ts;
      var h, source, p' := Recover(words, Global, [], ts, p);
      AllRead(words, p');
      SurplusReverse(p'.body);
    } else {
      var s, k := stack[..|stack|-1], stack[|stack|-1];
      assert stack == s + [k];
      StackSplits(ts, s, k);
      var pre, o, mid := ts[..k], ts[k], ts[k + 1..];
      var outer := pre + [o];
      assert ts == outer + mid;
      var h, source, p1 := Recover(words, Global, outer, mid, p);
      NoHeaderInside(words, Global, outer, mid, p, h, source, p1);
      OnlyBranchesOpen(words, pre, o, p1);
      var p2 := OpenerTurn(words, Global, pre, o, p1);
      ShapedPrefix(ts, k);
      OpenBlocksShow(words, pre, p2);
    }
  }

  lemma AllRead(words: Dictionary, p: Progress)
    ensures Backward(words, Global, [], p) == Done(p.(body := Reverse(p.body)))
  {
  }

  /** A function that is never closed is not read. */
  lemma OnlyBranchesOpen(words: Dictionary, pre: seq<Token>, o: Token, p: Progress)
    requires Opens(o) && Backward(words, Global, pre + [o], p).Done?
    ensures o.IfToken? || o.WhileToken?
  {
    hide Backward;
    BackwardStep(words, Global, pre + [o], p);
  }

  // ----- ends without a block -----

  lemma {:induction false} FlatOpen(ts: seq<Token>)
    requires forall k :: 0 <= k < |ts| ==> !Opens(ts[k]) && !ts[k].EndToken?
    ensures Balanced(ts)
    decreases |ts|
  {
    if ts != [] {
      FlatOpen(ts[..|ts|-1]);
    }
  }

  lemma {:induction false} OpenerWithin(pre: seq<Token>, b: seq<Token>, c: nat)
    requires c > 0 && Opener(b, c).Some?
    ensures Opener(pre + b, c) == Some(|pre| + Opener(b, c).value)
    decreases |b|
  {
    var n := |b| - 1;
    var all := pre + b;
    assert all[..|all|-1] == pre + b[..n] && all[|all|-1] == b[n];
    var c' := if b[n].EndToken? then c + 1 else if Opens(b[n]) then c - 1 else c;
    if c' > 0 {
      OpenerWithin(pre, b[..n], c');
    }
  }

  /** What a function encloses is closed. */
  lemma EnclosedClosed(pre: seq<Token>, b: seq<Token>)
    requires pre != [] && OpenStack(b).Some? && Opener(pre + b, 1) == Some(|pre| - 1)
    ensures Balanced(b)
  {
    hide Opener;
    hide OpenStack;
    CountingMatchesStack(b, 1);
    if OpenStack(b).value != [] {
      OpenerWithin(pre, b, 1);
    }
  }

  /** An `end` that closes nothing is never read over. */
  lemma {:induction false} NoStray(words: Dictionary, level: Level, ts: seq<Token>, p: Progress)
    requires Backward(words, level, ts, p).Done? && (level.Global? ==> Shaped(ts))
    ensures OpenStack(ts).Some?
    decreases |ts|, 1
  {
    hide Backward;
    hide OpenStack;
    hide TakeTurn;
    if ts == [] {
      NothingOpen();
    } else {
      var n := |ts| - 1;
      var t := ts[n];
      assert ts == ts[..n] + [t];
      BackwardStep(words, level, ts, p);
      if t.EndToken? {
        StrayEnd(words, level, ts, p);
      } else if t.ArrayToken? || t.ConstantToken? {
        DefineTurn(words, level, ts, p);
        ShapedPart(level, ts, n - 2);
        NoStray(words, level, ts[..n-2], p);
        assert ts[..n-1] == ts[..n-2] + [ts[n-2]] && ts[..n] == ts[..n-1] + [ts[n-1]];
        OpenSnoc(ts[..n-2], ts[n-2]);
        OpenSnoc(ts[..n-1], ts[n-1]);
        OpenSnoc(ts[..n], t);
      } else if t.DynamicToken? || t.DefinitionToken? {
        HeaderTurn(words, level, ts, p);
        HeaderFlatTokens(ts);
      } else {
        var p1 := WordTurn(words, level, ts, p);
        ShapedPart(level, ts, n);
        NoStray(words, level, ts[..n], p1);
        OpenSnoc(ts[..n], t);
      }
    }
  }

  lemma DefineTurn(words: Dictionary, level: Level, ts: seq<Token>, p: Progress)
    requires ts != [] && (ts[|ts|-1].ArrayToken? || ts[|ts|-1].ConstantToken?) && (level.Global? ==> Shaped(ts))
    requires TakeTurn(words, level, ts, p).More? || TakeTurn(words, level, ts, p).result.Done?
    ensures level.Global? && ShapedAt(ts, |ts| - 1) && TakeTurn(words, level, ts, p) == More(|ts| - 3, p)
  {
    if level.Global? {
      assert ShapedAt(ts, |ts| - 1);
    }
  }

  lemma WordTurn(words: Dictionary, level: Level, ts: seq<Token>, p: Progress) returns (p': Progress)
    requires ts != [] && (TakeTurn(words, level, ts, p).More? || TakeTurn(words, level, ts, p).result.Done?)
    requires var t := ts[|ts|-1];
      !t.EndToken? && !t.ArrayToken? && !t.ConstantToken? && !t.DynamicToken? && !t.DefinitionToken?
    ensures TakeTurn(words, level, ts, p) == More(|ts| - 1, p')
  {
    p' := p.(body := p.body + [Translate(words, ts[|ts|-1]).value]);
  }

  lemma HeaderFlatTokens(ts: seq<Token>)
    requires ts != [] && (ts[|ts|-1].DynamicToken? || ts[|ts|-1].DefinitionToken?)
    requires if ts[|ts|-1].DynamicToken? then |ts| == 1
             else ReadEffect(ts[..|ts|-1], false, StackEffect([], [])).Some?
    ensures OpenStack(ts).Some?
  {
    hide OpenStack;
    hide ReadEffect;
    var n := |ts| - 1;
    forall k | 0 <= k < |ts|
      ensures !Opens(ts[k]) && !ts[k].EndToken?
    {
      if k < n {
        EffectTokens(ts[..n], false, StackEffect([], []), k);
      }
    }
    FlatOpen(ts);
  }

  lemma {:induction false} StrayEnd(words: Dictionary, level: Level, ts: seq<Token>, p: Progress)
    requires ts != [] && ts[|ts|-1].EndToken? && Backward(words, level, ts, p).Done? && (level.Global? ==> Shaped(ts))
    ensures OpenStack(ts).Some?
    decreases |ts|, 0
  {
    hide Backward;
    hide OpenStack;
    hide Opener;
    var n := |ts| - 1;
    assert ts == ts[..n] + [ts[n]];
    BackwardStep(words, level, ts, p);
    OpenSnoc(ts[..n], ts[n]);
    ShapedPart(level, ts, n);
    var k := Opener(ts[..n], 1).value;
    if ts[k].IfToken? || ts[k].WhileToken? {
      BranchCloses(words, ts, k, p);
      NoStray(words, level, ts[..n], p.(body := p.body + [End]));
      CountingMatchesStack(ts[..n], 1);
    } else {
      FunctionCloses(words, ts, k, p);
      var key := KeyAt(ts, k).value;
      var b := ts[k+1..n];
      NoStray(words, Inside, b, Resume(p.functions, key));
      var inner := Backward(words, Inside, b, Resume(p.functions, key)).progress;
      ShapedPart(level, ts, Cut(ts, k));
      NoStray(words, level, ts[..Cut(ts, k)], AfterFunction(words, key, p, Record(inner, key)));
      OpenToKey(ts, k);
      assert ts[..n] == ts[..k+1] + b;
      EnclosedClosed(ts[..k+1], b);
      OpenConcat(ts[..k+1], b);
    }
  }

  lemma OpenToKey(ts: seq<Token>, k: nat)
    requires k < |ts| && Opens(ts[k]) && KeyAt(ts, k).Some? && OpenStack(ts[..Cut(ts, k)]).Some?
    ensures OpenStack(ts[..k+1]).Some? && OpenStack(ts[..k+1]).value != []
  {
    hide OpenStack;
    if !ts[k].LambdaToken? {
      assert ts[..k] == ts[..k-1] + [ts[k-1]];
      OpenSnoc(ts[..k-1], ts[k-1]);
    }
    assert ts[..k+1] == ts[..k] + [ts[k]];
    OpenSnoc(ts[..k], ts[k]);
  }

  /**
   Tokens that are read without a failure, and leave as many ends as openers in main, print well-formed source: what is
   accepted is what can be written.
   */
  lemma AcceptedIsSource(words: Dictionary, ts: seq<Token>) returns (source: Source)
    requires Shaped(ts) && Backward(words, Global, ts, Progress([], map[], false, None)).Done?
    requires Surplus(Backward(words, Global, ts, Progress([], map[], false, None)).progress.body) == 0
    ensures ts == Print(source) && Formed(words, Global, source)
  {
    hide Backward;
    hide OpenStack;
    hide Surplus;
    var p := Progress([], map[], false, None);
    NoStray(words, Global, ts, p);
    OpenBlocksShow(words, ts, p);
    NoSurplus();
    source := ReadIsSource(words, ts);
  }

  lemma NoSurplus()
    ensures Surplus([]) == 0
  {
  }
}
