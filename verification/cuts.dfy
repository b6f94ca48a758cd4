/**
 Erasing parts of a body and relabelling its jumps, which is all the condition pass does. What is left means
 the same when every jump that stays designates the operation it designated, and control would only have
 glided through the erased parts.
 */
module Cuts {
  import opened Wrappers
  import opened Operations
  import opened Machine
  import opened Simulation
  import opened FoldCorrectness
  import opened Conditions

  /** Operations `[x1, y1)`, `[x2, y2)` and those from `tail` on are erased. */
  datatype Cut = Cut(x1: nat, y1: nat, x2: nat, y2: nat, tail: nat)

  /** One call of `remap`. */
  datatype Shift = Shift(lo: int, hi: Option<int>, amount: int)

  const NO_SHIFT: Shift := Shift(0, Some(-1), 0)

  predicate Fits(cut: Cut, n: nat) {
    cut.x1 <= cut.y1 <= cut.x2 <= cut.y2 <= cut.tail <= n && (cut.tail == n || cut.y2 < cut.tail)
  }

  predicate Stays(cut: Cut, i: nat) {
    i < cut.x1 || cut.y1 <= i < cut.x2 || cut.y2 <= i < cut.tail
  }

  /** Indices with a place in the new body: operations that stay, and where erased parts begin. */
  predicate Lands(cut: Cut, n: nat, i: nat) {
    i <= cut.x1 || cut.y1 <= i <= cut.x2 || cut.y2 <= i < cut.tail || i == n
  }

  function Place(cut: Cut, n: nat, i: nat): nat
    requires Fits(cut, n) && Lands(cut, n, i)
  {
    var first, both := cut.y1 - cut.x1, cut.y1 - cut.x1 + cut.y2 - cut.x2;
    if i == n then cut.tail - both else if i <= cut.x1 then i else if i <= cut.x2 then i - first else i - both
  }

  function ShiftOps(s: Shift, body: seq<Operation>): (r: seq<Operation>)
    ensures |r| == |body|
  {
    Remap(body, s.lo, s.hi, s.amount)
  }

  function Relabel(s: Shift, j: Jump): Jump {
    if InRemap(j, s.lo, s.hi) then LowerJump(j, s.amount) else j
  }

  function Kept(body: seq<Operation>, cut: Cut): seq<Operation>
    requires Fits(cut, |body|)
  {
    body[..cut.x1] + body[cut.y1..cut.x2] + body[cut.y2..cut.tail]
  }

  /** The body left by a cut and two relabellings. */
  function Excised(body: seq<Operation>, cut: Cut, s: Shift, s': Shift): seq<Operation>
    requires Fits(cut, |body|)
  {
    ShiftOps(s', ShiftOps(s, Kept(body, cut)))
  }

  lemma ExcisedAt(body: seq<Operation>, cut: Cut, s: Shift, s': Shift, i: nat)
    requires Fits(cut, |body|) && i < |body| && Stays(cut, i)
    ensures var new_ := Excised(body, cut, s, s');
      && |new_| == Place(cut, |body|, |body|) && Place(cut, |body|, i) < |new_|
      && new_[Place(cut, |body|, i)] == body[i].(jump := Relabel(s', Relabel(s, body[i].jump)))
  {
    var k := Place(cut, |body|, i);
    assert Kept(body, cut)[k] == body[i];
  }

  lemma ExcisedSize(body: seq<Operation>, cut: Cut, s: Shift, s': Shift)
    requires Fits(cut, |body|)
    ensures |Excised(body, cut, s, s')| == Place(cut, |body|, |body|)
  {
  }

  // ----- jumps -----

  /** The jump of `body[i]`, relabelled, designates what it designated. */
  predicate JumpKept(body: seq<Operation>, cut: Cut, s: Shift, s': Shift, i: nat)
    requires Fits(cut, |body|) && i < |body|
  {
    var j := body[i].jump;
    j.To? && Lands(cut, |body|, j.target) && Relabel(s', Relabel(s, j)) == To(Place(cut, |body|, j.target))
  }

  /** Every jump that stays designates the operation it designated. */
  ghost predicate JumpsKept(body: seq<Operation>, cut: Cut, s: Shift, s': Shift)
    requires Fits(cut, |body|)
  {
    forall i :: 0 <= i < |body| && Stays(cut, i) && Jumps(body[i].kind) ==> JumpKept(body, cut, s, s', i)
  }

  // ----- meaning -----

  /** Control that enters an erased part leaves it at its end, with nothing done. */
  ghost predicate GlidesThrough(env: Env, p: Program, f: FunctionRef, x: nat, y: nat, n: nat) {
    x < y ==> n >= 1 && AlwaysGlides(env, p, f, x, y, n, [])
  }

  function PlaceMap(cut: Cut, n: nat): map<nat, nat>
    requires Fits(cut, n)
  {
    map i: nat | 0 <= i <= n && Lands(cut, n, i) :: Place(cut, n, i)
  }

  function CutGlides(cut: Cut, n1: nat, n2: nat): map<nat, Glide> {
    (if cut.x1 < cut.y1 then map[cut.x1 := Glide(cut.y1, n1, 0, [])] else map[])
    + (if cut.x2 < cut.y2 then map[cut.x2 := Glide(cut.y2, n2, 0, [])] else map[])
  }

  lemma NowhereGlides(env: Env, p: Program, f: FunctionRef, a: nat)
    ensures AlwaysGlides(env, p, f, a, a, 0, [])
  {
    forall callers, st, world
      ensures Glides(env, p, f, a, a, 0, [], callers, st, world)
    {
      RunZero(env, p, Here(f, a, callers, st, world));
      assert st + [] == st;
    }
  }

  lemma StaysInStep(body: seq<Operation>, cut: Cut, s: Shift, s': Shift, i: nat)
    requires Fits(cut, |body|) && i < |body| && Stays(cut, i) && (Jumps(body[i].kind) ==> JumpKept(body, cut, s, s', i))
    requires cut.tail < |body| ==> !FallsThrough(body[cut.tail - 1].kind)
    ensures i in PlaceMap(cut, |body|) && LockStep(body, Excised(body, cut, s, s'), PlaceMap(cut, |body|), i)
  {
    hide Excised;
    ExcisedAt(body, cut, s, s', i);
  }

  lemma LandsOrGlides(cut: Cut, n: nat, n1: nat, n2: nat, i: nat)
    requires Fits(cut, n) && i < n && Lands(cut, n, i) && i !in CutGlides(cut, n1, n2)
    ensures Stays(cut, i)
  {
  }

  lemma PlaceEnds(cut: Cut, n: nat)
    requires Fits(cut, n)
    ensures var at := PlaceMap(cut, n);
      && 0 in at && at[0] == 0 && n in at && at[n] == Place(cut, n, n)
      && (forall i: nat :: i in at <==> i <= n && Lands(cut, n, i))
      && (forall i: nat :: i in at ==> at[i] == Place(cut, n, i))
  {
  }

  lemma CutGlideOk(env: Env, p: Program, p': Program, f: FunctionRef, cut: Cut, n: nat, n1: nat, n2: nat, i: nat)
    requires Fits(cut, n) && i in CutGlides(cut, n1, n2)
    requires GlidesThrough(env, p, f, cut.x1, cut.y1, n1) && GlidesThrough(env, p, f, cut.x2, cut.y2, n2)
    ensures var w := Rewrite(f, PlaceMap(cut, n), CutGlides(cut, n1, n2));
      i in w.at && GlideOk(env, p, p', w, i)
  {
    hide AlwaysGlides;
    var w := Rewrite(f, PlaceMap(cut, n), CutGlides(cut, n1, n2));
    PlaceEnds(cut, n);
    assert (i == cut.x1 && cut.x1 < cut.y1 && !(i == cut.x2 && cut.x2 < cut.y2)) || (i == cut.x2 && cut.x2 < cut.y2);
    assert w.at[w.glides[i].to] == w.at[i];
    NowhereGlides(env, p', f, w.at[i]);
  }

  /** A cut that keeps its jumps, around parts control would only glide through, cannot be observed. */
  lemma CutUnobservable(env: Env, p: Program, f: FunctionRef, cut: Cut, s: Shift, s': Shift, n1: nat, n2: nat)
    requires f in p && Fits(cut, |p[f]|) && JumpsKept(p[f], cut, s, s')
    requires GlidesThrough(env, p, f, cut.x1, cut.y1, n1) && GlidesThrough(env, p, f, cut.x2, cut.y2, n2)
    requires cut.tail < |p[f]| ==> !FallsThrough(p[f][cut.tail - 1].kind)
    ensures Equivalent(env, p, p[f := Excised(p[f], cut, s, s')])
  {
    hide Excised;
    hide LockStep;
    hide GlideOk;
    hide GlidesThrough;
    hide JumpKept;
    hide Equivalent;
    hide Stays;
    hide Place;
    hide PlaceMap;
    hide CutGlides;
    var body := p[f];
    var new_ := Excised(body, cut, s, s');
    var p' := p[f := new_];
    var at := PlaceMap(cut, |body|);
    var w := Rewrite(f, at, CutGlides(cut, n1, n2));
    ExcisedSize(body, cut, s, s');
    PlaceEnds(cut, |body|);
    forall i | i in at && i !in w.glides && i < |body|
      ensures LockStep(body, new_, at, i)
    {
      LandsOrGlides(cut, |body|, n1, n2, i);
      StaysInStep(body, cut, s, s', i);
    }
    forall i | i in w.glides
      ensures i in at && GlideOk(env, p, p', w, i)
    {
      CutGlideOk(env, p, p', f, cut, |body|, n1, n2, i);
    }
    assert Valid(env, p, p', w);
    RewriteUnobservable(env, p, p', w);
  }

  // ----- folding what is left -----

  /** No run crosses a place where an erased part was. */
  ghost predicate SeamsClosed(body: seq<Operation>, cut: Cut)
    requires Fits(cut, |body|)
  {
    && (cut.x1 < cut.y1 ==> Landing(Kept(body, cut), cut.x1))
    && (cut.x2 < cut.y2 ==> Landing(Kept(body, cut), cut.x1 + cut.x2 - cut.y1))
  }

  lemma ExcisedKinds(body: seq<Operation>, cut: Cut, s: Shift, s': Shift)
    requires Fits(cut, |body|)
    ensures var new_, kept := Excised(body, cut, s, s'), Kept(body, cut);
      |new_| == |kept| && forall k :: 0 <= k < |new_| ==> new_[k].kind == kept[k].kind
  {
  }

  /** Where an operation of the new body comes from. */
  function Source(cut: Cut, k: nat): nat
    requires cut.x1 <= cut.y1 <= cut.x2 <= cut.y2
  {
    var first, both := cut.y1 - cut.x1, cut.y1 - cut.x1 + cut.y2 - cut.x2;
    if k < cut.x1 then k else if k < cut.x2 - first then k + first else k + both
  }

  lemma KeptAt(body: seq<Operation>, cut: Cut, k: nat)
    requires Fits(cut, |body|) && k < |Kept(body, cut)|
    ensures var i := Source(cut, k);
      i < |body| && Stays(cut, i) && Kept(body, cut)[k] == body[i] && Place(cut, |body|, i) == k
  {
  }

  /** A run over a place where an erased part was would take in what follows it. */
  lemma OverSeam(kept: seq<Operation>, x: nat, seam: nat, t: nat)
    requires x < seam <= t < |kept| && TakesIn(kept, x, t)
    ensures TakesIn(kept, x, seam)
  {
    PrefixFolds(kept[x..t + 1], seam + 1 - x);
    assert kept[x..t + 1][..seam + 1 - x] == kept[x..seam + 1];
  }

  predicate Crosses(cut: Cut, x: nat, t: nat)
    requires cut.x1 <= cut.y1 <= cut.x2
  {
    (cut.x1 < cut.y1 && x < cut.x1 <= t) || (cut.x2 < cut.y2 && x < cut.x1 + cut.x2 - cut.y1 <= t)
  }

  lemma NoRunCrosses(body: seq<Operation>, cut: Cut, x: nat, t: nat)
    requires Fits(cut, |body|) && SeamsClosed(body, cut) && TakesIn(Kept(body, cut), x, t)
    ensures !Crosses(cut, x, t)
  {
    hide FoldRun;
    hide Kept;
    var kept, seam := Kept(body, cut), cut.x1 + cut.x2 - cut.y1;
    if cut.x1 < cut.y1 && x < cut.x1 <= t {
      OverSeam(kept, x, cut.x1, t);
    }
    if cut.x2 < cut.y2 && x < seam <= t {
      OverSeam(kept, x, seam, t);
    }
  }

  /** Away from the seams what is left has the runs it had. */
  lemma KeptTaken(body: seq<Operation>, cut: Cut, x: nat, t: nat)
    requires Fits(cut, |body|) && TakesIn(Kept(body, cut), x, t) && !Crosses(cut, x, t)
    ensures TakesIn(body, Source(cut, x), Source(cut, t)) && Source(cut, t) == Source(cut, x) + (t - x)
  {
    hide FoldRun;
    hide Kept;
    var kept, i, j := Kept(body, cut), Source(cut, x), Source(cut, t);
    KeptAt(body, cut, t);
    forall k | x <= k <= t
      ensures kept[k] == body[i + (k - x)]
    {
      KeptAt(body, cut, k);
    }
    assert kept[x..t + 1] == body[i..j + 1];
  }

  /** Then the jumps of what is left keep out of foldable runs, as they did. */
  lemma CutGuarded(body: seq<Operation>, cut: Cut, s: Shift, s': Shift)
    requires Fits(cut, |body|) && JumpsKept(body, cut, s, s') && Guarded(body) && SeamsClosed(body, cut)
    ensures Guarded(Excised(body, cut, s, s'))
  {
    hide Excised;
    hide Kept;
    hide TakesIn;
    hide Place;
    hide SeamsClosed;
    hide Lands;
    hide Stays;
    hide Source;
    var new_, kept := Excised(body, cut, s, s'), Kept(body, cut);
    ExcisedKinds(body, cut, s, s');
    forall k | 0 <= k < |new_| && Jumps(new_[k].kind) && new_[k].jump.To?
      ensures Landing(new_, new_[k].jump.target)
    {
      KeptAt(body, cut, k);
      var i := Source(cut, k);
      ExcisedAt(body, cut, s, s', i);
      assert JumpKept(body, cut, s, s', i);
      LandingPlaced(body, cut, s, s', body[i].jump.target);
    }
  }

  lemma LandingPlaced(body: seq<Operation>, cut: Cut, s: Shift, s': Shift, t: nat)
    requires Fits(cut, |body|) && SeamsClosed(body, cut) && Landing(body, t) && Lands(cut, |body|, t)
    ensures Landing(Excised(body, cut, s, s'), Place(cut, |body|, t))
  {
    hide Excised;
    hide Kept;
    hide FoldRun;
    var new_, kept, t' := Excised(body, cut, s, s'), Kept(body, cut), Place(cut, |body|, t);
    ExcisedKinds(body, cut, s, s');
    ExcisedSize(body, cut, s, s');
    forall x | 0 <= x < t'
      ensures !TakesIn(new_, x, t')
    {
      SameTaken(new_, kept, x, t');
      if TakesIn(kept, x, t') {
        NoRunCrosses(body, cut, x, t');
        KeptTaken(body, cut, x, t');
        SourceOfPlace(cut, |body|, t, x);
      }
    }
  }

  lemma SourceOfPlace(cut: Cut, n: nat, t: nat, x: nat)
    requires Fits(cut, n) && Lands(cut, n, t) && x < Place(cut, n, t) < Place(cut, n, n)
    requires !Crosses(cut, x, Place(cut, n, t))
    ensures Source(cut, Place(cut, n, t)) == t && Source(cut, x) < t
  {
  }

  lemma SameTaken(a: seq<Operation>, b: seq<Operation>, x: nat, t: nat)
    requires |a| == |b| && forall k :: 0 <= k < |a| ==> a[k].kind == b[k].kind
    ensures TakesIn(a, x, t) <==> TakesIn(b, x, t)
  {
    if x <= t < |a| {
      SameKindsFold(a[x..t + 1], b[x..t + 1]);
    }
  }
}
