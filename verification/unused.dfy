/**
 `optimizer::remove_unused_words_and_strings`: a depth-first walk from `main` marks words and strings;
 whatever is not marked is erased. The walk looks words up by id and takes the first it meets, and ids are
 not unique: every intrinsic has id 0, and so has the first definition of a program.
 */
module UnusedWords {
  import opened Wrappers
  import opened Words
  import opened Operations
  import opened Machine

  datatype WordDef = FunctionWord(body: seq<Operation>) | ArrayWord(size: nat) | OtherWord

  datatype Entry = Entry(name: string, id: nat, def: WordDef)

  /** All words, intrinsics and constants included, in the order the hash table gives them. */
  type Dictionary = seq<Entry>

  function Ids(words: Dictionary): set<nat> {
    set k | 0 <= k < |words| :: words[k].id
  }

  /** `std::find_if` by id. */
  function First(words: Dictionary, id: nat): (r: Option<nat>)
    ensures r.None? <==> id !in Ids(words)
    ensures r.Some? ==> r.value < |words| && words[r.value].id == id
    ensures r.Some? ==> forall k :: 0 <= k < r.value ==> words[k].id != id
  {
    if words == [] then None
    else
      var n := |words| - 1;
      var r := First(words[..n], id);
      assert Ids(words) == Ids(words[..n]) + {words[n].id};
      if r.Some? then r else if words[n].id == id then Some(n) else None
  }

  method Find(words: Dictionary, id: nat) returns (r: Option<nat>)
    ensures r == First(words, id)
  {
    for k := 0 to |words|
      invariant forall j :: 0 <= j < k ==> words[j].id != id
    {
      if words[k].id == id {
        return Some(k);
      }
    }
    return None;
  }

  // ----- references -----

  function WordRef(op: Operation): Option<nat> {
    match op.kind
    case Plain(CallSymbol(id)) => Some(id)
    case Plain(PushSymbol(FunctionSymbol(id))) => Some(id)
    case Plain(PushSymbol(ArraySymbol(id))) => Some(id)
    case _ => None
  }

  function StringRef(op: Operation): Option<nat> {
    match op.kind
    case Plain(PushSymbol(StringSymbol(id))) => Some(id)
    case _ => None
  }

  predicate Refers(body: seq<Operation>, id: nat) {
    exists k :: 0 <= k < |body| && WordRef(body[k]) == Some(id)
  }

  predicate RefersToString(body: seq<Operation>, id: nat) {
    exists k :: 0 <= k < |body| && StringRef(body[k]) == Some(id)
  }

  /** The body the walk follows for this id. */
  function BodyOf(words: Dictionary, id: nat): seq<Operation> {
    var k := First(words, id);
    if k.Some? && words[k.value].def.FunctionWord? then words[k.value].def.body else []
  }

  predicate IsFunction(words: Dictionary, k: nat) {
    k < |words| && words[k].def.FunctionWord?
  }

  /** The strings of a program, each with the id its label is made of. */
  type Strings = map<string, nat>

  /** A function, an array or a string has this id, whichever the operation asks for. */
  predicate Serves(words: Dictionary, strings: Strings, op: Operation) {
    match op.kind
    case Plain(CallSymbol(id)) => exists k :: 0 <= k < |words| && words[k].id == id && words[k].def.FunctionWord?
    case Plain(PushSymbol(FunctionSymbol(id))) =>
      exists k :: 0 <= k < |words| && words[k].id == id && words[k].def.FunctionWord?
    case Plain(PushSymbol(ArraySymbol(id))) =>
      exists k :: 0 <= k < |words| && words[k].id == id && words[k].def.ArrayWord?
    case Plain(PushSymbol(StringSymbol(id))) => id in strings.Values
    case _ => true
  }

  ghost predicate ServesAll(words: Dictionary, strings: Strings, body: seq<Operation>) {
    forall k :: 0 <= k < |body| ==> Serves(words, strings, body[k])
  }

  /** No reference of any body dangles. */
  ghost predicate Defined(words: Dictionary, strings: Strings, main: seq<Operation>) {
    && ServesAll(words, strings, main)
    && forall k :: 0 <= k < |words| && IsFunction(words, k) ==> ServesAll(words, strings, words[k].def.body)
  }

  /** All the walk demands: whatever it looks up is there. */
  ghost predicate Walkable(words: Dictionary, body: seq<Operation>) {
    && (forall id :: Refers(body, id) ==> id in Ids(words))
    && (forall x, id :: Refers(BodyOf(words, x), id) ==> id in Ids(words))
  }

  lemma DefinedIsWalkable(words: Dictionary, strings: Strings, main: seq<Operation>)
    requires Defined(words, strings, main)
    ensures Walkable(words, main)
  {
    forall id: nat | Refers(main, id)
      ensures id in Ids(words)
    {
      ServedIsKnown(words, strings, main, id);
    }
    forall x: nat, id: nat | Refers(BodyOf(words, x), id)
      ensures id in Ids(words)
    {
      var k := First(words, x);
      if k.Some? && IsFunction(words, k.value) {
        ServedIsKnown(words, strings, words[k.value].def.body, id);
      } else {
        NoReferences(id);
      }
    }
  }

  lemma ServedIsKnown(words: Dictionary, strings: Strings, body: seq<Operation>, id: nat)
    requires ServesAll(words, strings, body) && Refers(body, id)
    ensures id in Ids(words)
  {
    var k :| 0 <= k < |body| && WordRef(body[k]) == Some(id);
    assert Serves(words, strings, body[k]);
  }

  /** `path` starts at a word of `body` and follows references to `id`. */
  ghost predicate IsPath(words: Dictionary, body: seq<Operation>, path: seq<nat>, id: nat) {
    && |path| > 0
    && Refers(body, path[0])
    && (forall i :: 0 <= i < |path| - 1 ==> Refers(BodyOf(words, path[i]), path[i + 1]))
    && path[|path| - 1] == id
  }

  ghost predicate Reachable(words: Dictionary, body: seq<Operation>, id: nat) {
    exists path :: IsPath(words, body, path, id)
  }

  lemma ReachDirect(words: Dictionary, body: seq<Operation>, id: nat)
    requires Refers(body, id)
    ensures Reachable(words, body, id)
  {
    assert IsPath(words, body, [id], id);
  }

  lemma ReachThrough(words: Dictionary, body: seq<Operation>, x: nat, id: nat)
    requires Refers(body, x) && Reachable(words, BodyOf(words, x), id)
    ensures Reachable(words, body, id)
  {
    var path :| IsPath(words, BodyOf(words, x), path, id);
    assert IsPath(words, body, [x] + path, id);
  }

  lemma ReachStep(words: Dictionary, body: seq<Operation>, x: nat, id: nat)
    requires Reachable(words, body, x) && Refers(BodyOf(words, x), id)
    ensures Reachable(words, body, id)
  {
    var path :| IsPath(words, body, path, x);
    assert IsPath(words, body, path + [id], id);
  }

  // ----- marking -----

  datatype Marks = Marks(words: set<nat>, strings: set<nat>)

  /** What a walk over `body` may add to `m`, and what it must. */
  ghost predicate Marked(words: Dictionary, body: seq<Operation>, m: Marks, m': Marks) {
    && m.words <= m'.words && m.strings <= m'.strings
    && (forall id :: Refers(body, id) ==> id in m'.words)
    && (forall id :: RefersToString(body, id) ==> id in m'.strings)
    && NewClosed(words, m, m')
    && (forall id :: id in m'.words && id !in m.words ==> Reachable(words, body, id))
    && (forall s :: s in m'.strings && s !in m.strings ==> StringReached(words, body, m, m', s))
  }

  /** Newly marked functions have their own references marked. */
  ghost predicate NewClosed(words: Dictionary, m: Marks, m': Marks) {
    forall x :: x in m'.words && x !in m.words ==>
      && (forall id :: Refers(BodyOf(words, x), id) ==> id in m'.words)
      && (forall s :: RefersToString(BodyOf(words, x), s) ==> s in m'.strings)
  }

  ghost predicate StringReached(words: Dictionary, body: seq<Operation>, m: Marks, m': Marks, s: nat) {
    RefersToString(body, s) || exists x :: x in m'.words && x !in m.words && RefersToString(BodyOf(words, x), s)
  }

  lemma RefersConcat(a: seq<Operation>, b: seq<Operation>, id: nat)
    ensures Refers(a + b, id) <==> Refers(a, id) || Refers(b, id)
    ensures RefersToString(a + b, id) <==> RefersToString(a, id) || RefersToString(b, id)
  {
    if Refers(b, id) {
      var k :| 0 <= k < |b| && WordRef(b[k]) == Some(id);
      assert (a + b)[|a| + k] == b[k];
    }
    if RefersToString(b, id) {
      var k :| 0 <= k < |b| && StringRef(b[k]) == Some(id);
      assert (a + b)[|a| + k] == b[k];
    }
    if Refers(a, id) {
      var k :| 0 <= k < |a| && WordRef(a[k]) == Some(id);
      assert (a + b)[k] == a[k];
    }
    if RefersToString(a, id) {
      var k :| 0 <= k < |a| && StringRef(a[k]) == Some(id);
      assert (a + b)[k] == a[k];
    }
  }

  lemma ReachConcat(words: Dictionary, a: seq<Operation>, b: seq<Operation>, id: nat)
    requires Reachable(words, a, id) || Reachable(words, b, id)
    ensures Reachable(words, a + b, id)
  {
    if Reachable(words, a, id) {
      var path :| IsPath(words, a, path, id);
      RefersConcat(a, b, path[0]);
      assert IsPath(words, a + b, path, id);
    } else {
      var path :| IsPath(words, b, path, id);
      RefersConcat(a, b, path[0]);
      assert IsPath(words, a + b, path, id);
    }
  }

  /** Walks compose. */
  lemma MarkedConcat(words: Dictionary, a: seq<Operation>, b: seq<Operation>, m: Marks, m1: Marks, m2: Marks)
    requires Marked(words, a, m, m1) && Marked(words, b, m1, m2)
    ensures Marked(words, a + b, m, m2)
  {
    hide Refers;
    hide RefersToString;
    hide Reachable;
    forall id
      ensures Refers(a + b, id) ==> id in m2.words
      ensures RefersToString(a + b, id) ==> id in m2.strings
    {
      RefersConcat(a, b, id);
    }
    forall id | id in m2.words && id !in m.words
      ensures Reachable(words, a + b, id)
    {
      ReachConcat(words, a, b, id);
    }
    forall s | s in m2.strings && s !in m.strings
      ensures StringReached(words, a + b, m, m2, s)
    {
      RefersConcat(a, b, s);
      if s in m1.strings {
        assert StringReached(words, a, m, m1, s);
      } else {
        assert StringReached(words, b, m1, m2, s);
      }
    }
    assert NewClosed(words, m, m2);
  }

  lemma RefersSingle(op: Operation, id: nat)
    ensures Refers([op], id) <==> WordRef(op) == Some(id)
    ensures RefersToString([op], id) <==> StringRef(op) == Some(id)
  {
    assert [op][0] == op;
  }

  lemma MarkedString(words: Dictionary, op: Operation, m: Marks)
    requires StringRef(op).Some?
    ensures Marked(words, [op], m, m.(strings := m.strings + {StringRef(op).value}))
  {
    forall id: nat
      ensures Refers([op], id) <==> WordRef(op) == Some(id)
      ensures RefersToString([op], id) <==> StringRef(op) == Some(id)
    {
      RefersSingle(op, id);
    }
  }

  lemma MarkedNothing(words: Dictionary, op: Operation, m: Marks)
    requires StringRef(op).None? && (WordRef(op).Some? ==> WordRef(op).value in m.words)
    ensures Marked(words, [op], m, m)
  {
    forall id: nat
      ensures Refers([op], id) <==> WordRef(op) == Some(id)
      ensures RefersToString([op], id) <==> StringRef(op) == Some(id)
    {
      RefersSingle(op, id);
    }
  }

  /** Marking a word, then everything its body reaches. */
  lemma MarkedWord(words: Dictionary, op: Operation, m: Marks, m': Marks)
    requires StringRef(op).None? && WordRef(op).Some? && WordRef(op).value !in m.words
    requires Marked(words, BodyOf(words, WordRef(op).value), m.(words := m.words + {WordRef(op).value}), m')
    ensures Marked(words, [op], m, m')
  {
    hide Refers;
    hide RefersToString;
    hide Reachable;
    var id := WordRef(op).value;
    var m1 := m.(words := m.words + {id});
    var body := BodyOf(words, id);
    RefersSingle(op, id);
    forall x: nat
      ensures Refers([op], x) <==> WordRef(op) == Some(x)
      ensures RefersToString([op], x) <==> StringRef(op) == Some(x)
    {
      RefersSingle(op, x);
    }
    forall x | x in m'.words && x !in m.words
      ensures Reachable(words, [op], x)
    {
      if x == id {
        ReachDirect(words, [op], id);
      } else {
        ReachThrough(words, [op], id, x);
      }
    }
    forall s | s in m'.strings && s !in m.strings
      ensures StringReached(words, [op], m, m', s)
    {
      assert StringReached(words, body, m1, m', s);
      if RefersToString(body, s) {
        assert id in m'.words && id !in m.words;
      }
    }
    assert NewClosed(words, m, m');
  }

  lemma MarkedEmpty(words: Dictionary, m: Marks)
    ensures Marked(words, [], m, m)
  {
  }

  /** Depth-first marking; the set of unmarked words shrinks at every recursive call. */
  method Mark(words: Dictionary, body: seq<Operation>, m: Marks) returns (m': Marks)
    requires Walkable(words, body)
    ensures Marked(words, body, m, m')
    decreases Ids(words) - m.words, 1
  {
    hide Marked;
    hide Walkable;
    m' := m;
    MarkedEmpty(words, m);
    for k := 0 to |body|
      invariant m.words <= m'.words
      invariant Marked(words, body[..k], m, m')
    {
      var next := MarkOperation(words, body, k, m');
      MarkedConcat(words, body[..k], [body[k]], m, m', next);
      assert body[..k + 1] == body[..k] + [body[k]];
      m' := next;
    }
    assert body[..|body|] == body;
  }

  method MarkOperation(words: Dictionary, body: seq<Operation>, k: nat, m: Marks) returns (m': Marks)
    requires Walkable(words, body) && k < |body|
    ensures m.words <= m'.words
    ensures Marked(words, [body[k]], m, m')
    decreases Ids(words) - m.words, 0
  {
    hide Marked;
    var op := body[k];
    if StringRef(op).Some? {
      m' := m.(strings := m.strings + {StringRef(op).value});
      MarkedString(words, op, m);
    } else if WordRef(op).Some? && WordRef(op).value !in m.words {
      var id := WordRef(op).value;
      assert Refers(body, id);
      m' := m.(words := m.words + {id});
      assert Ids(words) - m'.words < Ids(words) - m.words by {
        assert id in Ids(words) - m.words;
      }
      var found := Find(words, id);
      if words[found.value].def.FunctionWord? {
        assert BodyOf(words, id) == words[found.value].def.body;
        m' := Mark(words, words[found.value].def.body, m');
        MarkedGrows(words, words[found.value].def.body, m.(words := m.words + {id}), m');
      } else {
        MarkedEmpty(words, m');
      }
      MarkedWord(words, op, m, m');
    } else {
      m' := m;
      MarkedNothing(words, op, m);
    }
  }

  lemma MarkedGrows(words: Dictionary, body: seq<Operation>, m: Marks, m': Marks)
    requires Marked(words, body, m, m')
    ensures m.words <= m'.words
  {
  }

  // ----- erasing -----

  predicate Erasable(d: WordDef) {
    d.FunctionWord? || d.ArrayWord?
  }

  predicate Stays(e: Entry, used: set<nat>) {
    !Erasable(e.def) || e.id in used
  }

  /** `std::erase_if` on the words. */
  function KeepWords(words: Dictionary, used: set<nat>): (r: Dictionary)
    ensures |r| <= |words|
    ensures |r| == |words| ==> r == words
  {
    if words == [] then []
    else
      var n := |words| - 1;
      if Stays(words[n], used) then KeepWords(words[..n], used) + [words[n]] else KeepWords(words[..n], used)
  }

  method EraseWords(words: Dictionary, used: set<nat>) returns (r: Dictionary)
    ensures r == KeepWords(words, used)
  {
    r := [];
    assert words[..|words|] == words;
    for k := 0 to |words|
      invariant r == KeepWords(words[..k], used)
    {
      assert words[..k + 1][..k] == words[..k];
      if Stays(words[k], used) {
        r := r + [words[k]];
      }
    }
  }

  function KeepStrings(strings: Strings, used: set<nat>): Strings {
    map s | s in strings && strings[s] in used :: strings[s]
  }

  lemma {:induction false} KeptFrom(words: Dictionary, used: set<nat>, k: nat)
    requires k < |KeepWords(words, used)|
    ensures exists j :: 0 <= j < |words| && words[j] == KeepWords(words, used)[k] && Stays(words[j], used)
    decreases |words|
  {
    var n := |words| - 1;
    if k < |KeepWords(words[..n], used)| {
      KeptFrom(words[..n], used, k);
      var j :| 0 <= j < n && words[..n][j] == KeepWords(words[..n], used)[k] && Stays(words[..n][j], used);
      assert words[j] == KeepWords(words, used)[k];
    }
  }

  lemma {:induction false} KeptStays(words: Dictionary, used: set<nat>, j: nat)
    requires j < |words| && Stays(words[j], used)
    ensures exists k :: 0 <= k < |KeepWords(words, used)| && KeepWords(words, used)[k] == words[j]
    decreases |words|
  {
    var n := |words| - 1;
    var r := KeepWords(words, used);
    if j < n {
      KeptStays(words[..n], used, j);
      var k :| 0 <= k < |KeepWords(words[..n], used)| && KeepWords(words[..n], used)[k] == words[..n][j];
      assert r[k] == words[j];
    } else {
      assert r[|r| - 1] == words[j];
    }
  }

  /** Main mentions this string, or a body the walk follows does. */
  ghost predicate StringFound(words: Dictionary, main: seq<Operation>, s: nat) {
    RefersToString(main, s) || exists x :: Reachable(words, main, x) && RefersToString(BodyOf(words, x), s)
  }

  /** From an empty start, the marks are exactly the words the walk can reach and the strings they mention. */
  lemma MarksExact(words: Dictionary, main: seq<Operation>, m: Marks)
    requires Marked(words, main, Marks({}, {}), m)
    ensures forall id :: id in m.words <==> Reachable(words, main, id)
    ensures forall s :: s in m.strings <==> StringFound(words, main, s)
  {
    forall id | Reachable(words, main, id)
      ensures id in m.words
    {
      var path :| IsPath(words, main, path, id);
      PathMarked(words, main, m, path, id);
    }
    forall s | s in m.strings
      ensures StringFound(words, main, s)
    {
      assert StringReached(words, main, Marks({}, {}), m, s);
    }
  }

  lemma {:induction false} PathMarked(words: Dictionary, main: seq<Operation>, m: Marks, path: seq<nat>, id: nat)
    requires Marked(words, main, Marks({}, {}), m) && IsPath(words, main, path, id)
    ensures id in m.words
    decreases |path|
  {
    if |path| > 1 {
      var init := path[..|path| - 1];
      assert IsPath(words, main, init, init[|init| - 1]);
      PathMarked(words, main, m, init, init[|init| - 1]);
      assert Refers(BodyOf(words, path[|path| - 2]), id);
    }
  }

  /** What stays after erasing everything unmarked. */
  ghost predicate KeepsExactly(words: Dictionary, main: seq<Operation>, words': Dictionary) {
    exists used :: UsedExactly(words, main, used) && words' == KeepWords(words, used)
  }

  ghost predicate UsedExactly(words: Dictionary, main: seq<Operation>, used: set<nat>) {
    forall id :: id in used <==> Reachable(words, main, id)
  }

  /** Exactly the strings found stay, with their ids. */
  ghost predicate KeepsStrings(words: Dictionary, main: seq<Operation>, strings: Strings, strings': Strings) {
    && (forall s :: s in strings' <==> s in strings && StringFound(words, main, strings[s]))
    && forall s :: s in strings' ==> s in strings && strings'[s] == strings[s]
  }

  /** Entry by entry: functions and arrays stay if and only if reachable, everything else stays. */
  lemma KeptEntries(words: Dictionary, main: seq<Operation>, words': Dictionary, e: Entry)
    requires KeepsExactly(words, main, words')
    ensures e in words' <==> e in words && (Erasable(e.def) ==> Reachable(words, main, e.id))
  {
    hide Reachable;
    var used :| UsedExactly(words, main, used) && words' == KeepWords(words, used);
    if e in words' {
      var k :| 0 <= k < |words'| && words'[k] == e;
      KeptFrom(words, used, k);
    }
    if e in words && (Erasable(e.def) ==> Reachable(words, main, e.id)) {
      var j :| 0 <= j < |words| && words[j] == e;
      KeptStays(words, used, j);
    }
  }

  // ----- dangling references -----

  /** The walk meets another word of the same id first. */
  predicate Hidden(words: Dictionary, k: nat)
    requires k < |words|
  {
    First(words, words[k].id) != Some(k)
  }

  /** Whatever a reachable function refers to that the walk misses is reachable all the same. */
  ghost predicate NothingMissed(words: Dictionary, main: seq<Operation>) {
    forall k :: 0 <= k < |words| && Missed(words, main, k) ==> AllReached(words, main, words[k].def.body)
  }

  /** Whatever string such a function mentions is found all the same. */
  ghost predicate NoStringMissed(words: Dictionary, main: seq<Operation>) {
    forall k :: 0 <= k < |words| && Missed(words, main, k) ==> AllFound(words, main, words[k].def.body)
  }

  /** A reachable function whose body the walk does not follow. */
  ghost predicate Missed(words: Dictionary, main: seq<Operation>, k: nat)
    requires k < |words|
  {
    IsFunction(words, k) && Hidden(words, k) && Reachable(words, main, words[k].id)
  }

  ghost predicate AllReached(words: Dictionary, main: seq<Operation>, body: seq<Operation>) {
    forall id :: Refers(body, id) ==> Reachable(words, main, id)
  }

  ghost predicate AllFound(words: Dictionary, main: seq<Operation>, body: seq<Operation>) {
    forall s :: RefersToString(body, s) ==> StringFound(words, main, s)
  }

  lemma FoundBody(words: Dictionary, k: nat)
    requires k < |words| && IsFunction(words, k) && !Hidden(words, k)
    ensures BodyOf(words, words[k].id) == words[k].def.body
  {
  }

  /** Then every reachable function has all its references reached. */
  lemma ReachedBody(words: Dictionary, main: seq<Operation>, k: nat)
    requires NothingMissed(words, main) && k < |words| && IsFunction(words, k) && Reachable(words, main, words[k].id)
    ensures AllReached(words, main, words[k].def.body)
  {
    if !Hidden(words, k) {
      FoundBody(words, k);
      forall id | Refers(words[k].def.body, id)
        ensures Reachable(words, main, id)
      {
        ReachStep(words, main, words[k].id, id);
      }
    }
  }

  /** And all its strings found. */
  lemma FoundStrings(words: Dictionary, main: seq<Operation>, k: nat)
    requires NoStringMissed(words, main) && k < |words| && IsFunction(words, k) && Reachable(words, main, words[k].id)
    ensures AllFound(words, main, words[k].def.body)
  {
    hide Reachable;
    if !Hidden(words, k) {
      FoundBody(words, k);
    }
  }

  /** What a removal leaves of words and strings. */
  ghost predicate Removed(words: Dictionary, strings: Strings, main: seq<Operation>, words': Dictionary,
      strings': Strings) {
    KeepsExactly(words, main, words') && KeepsStrings(words, main, strings, strings')
  }

  lemma StillServed(words: Dictionary, strings: Strings, main: seq<Operation>, words': Dictionary, strings': Strings,
                    op: Operation)
    requires Removed(words, strings, main, words', strings') && Serves(words, strings, op)
    ensures Serves(words', strings', op) <==>
      && (WordRef(op).Some? ==> Reachable(words, main, WordRef(op).value))
      && (StringRef(op).Some? ==> StringFound(words, main, StringRef(op).value))
  {
    hide Reachable;
    hide KeepsExactly;
    hide StringFound;
    if WordRef(op).Some? {
      WordStillServed(words, strings, main, words', strings', op);
    } else if StringRef(op).Some? {
      var id := StringRef(op).value;
      var s :| s in strings && strings[s] == id;
      assert s in strings' <==> StringFound(words, main, id);
      if id in strings'.Values {
        var s' :| s' in strings' && strings'[s'] == id;
      } else {
        assert s !in strings';
      }
    }
  }

  lemma WordStillServed(words: Dictionary, strings: Strings, main: seq<Operation>, words': Dictionary,
      strings': Strings,
                        op: Operation)
    requires KeepsExactly(words, main, words') && Serves(words, strings, op) && WordRef(op).Some?
    ensures Serves(words', strings', op) <==> Reachable(words, main, WordRef(op).value)
  {
    hide Reachable;
    hide KeepsExactly;
    var id := WordRef(op).value;
    var asArray := op.kind.plain.PushSymbol? && op.kind.plain.symbol.ArraySymbol?;
    var k :| 0 <= k < |words| && words[k].id == id
             && (if asArray then words[k].def.ArrayWord? else words[k].def.FunctionWord?);
    KeptEntries(words, main, words', words[k]);
    if words[k] in words' {
      var j :| 0 <= j < |words'| && words'[j] == words[k];
    }
    if Serves(words', strings', op) {
      var j :| 0 <= j < |words'| && words'[j].id == id
               && (if asArray then words'[j].def.ArrayWord? else words'[j].def.FunctionWord?);
      KeptEntries(words, main, words', words'[j]);
    }
  }

  lemma StillServes(words: Dictionary, strings: Strings, main: seq<Operation>, words': Dictionary, strings': Strings,
                    body: seq<Operation>)
    requires Removed(words, strings, main, words', strings') && ServesAll(words, strings, body)
    ensures ServesAll(words', strings', body) <==> AllReached(words, main, body) && AllFound(words, main, body)
  {
    hide Reachable;
    hide Removed;
    hide StringFound;
    hide Serves;
    forall k | 0 <= k < |body|
      ensures Serves(words', strings', body[k]) <==>
        && (WordRef(body[k]).Some? ==> Reachable(words, main, WordRef(body[k]).value))
        && (StringRef(body[k]).Some? ==> StringFound(words, main, StringRef(body[k]).value))
    {
      StillServed(words, strings, main, words', strings', body[k]);
    }
    forall id: nat
      ensures ServesAll(words', strings', body) && Refers(body, id) ==> Reachable(words, main, id)
      ensures ServesAll(words', strings', body) && RefersToString(body, id) ==> StringFound(words, main, id)
    {
    }
    forall k | 0 <= k < |body|
      ensures AllReached(words, main, body) && AllFound(words, main, body) ==> Serves(words', strings', body[k])
    {
      if WordRef(body[k]).Some? {
        assert Refers(body, WordRef(body[k]).value);
      }
      if StringRef(body[k]).Some? {
        assert RefersToString(body, StringRef(body[k]).value);
      }
    }
  }

  lemma MainReached(words: Dictionary, main: seq<Operation>)
    ensures AllReached(words, main, main) && AllFound(words, main, main)
  {
    forall id | Refers(main, id)
      ensures Reachable(words, main, id)
    {
      ReachDirect(words, main, id);
    }
  }

  /**
   After the removal no reference dangles, to a word or to a string, if and only if the walk missed nothing behind a
   hidden function.
   */
  lemma NothingDangles(words: Dictionary, strings: Strings, main: seq<Operation>, words': Dictionary, strings': Strings)
    requires Defined(words, strings, main) && Removed(words, strings, main, words', strings')
    ensures Defined(words', strings', main) <==> NothingMissed(words, main) && NoStringMissed(words, main)
  {
    hide Reachable;
    hide KeepsExactly;
    hide KeepsStrings;
    hide ServesAll;
    hide AllReached;
    hide AllFound;
    hide Hidden;
    MainReached(words, main);
    StillServes(words, strings, main, words', strings', main);
    if NothingMissed(words, main) && NoStringMissed(words, main) {
      forall k | 0 <= k < |words'| && IsFunction(words', k)
        ensures ServesAll(words', strings', words'[k].def.body)
      {
        KeptEntries(words, main, words', words'[k]);
        var j :| 0 <= j < |words| && words[j] == words'[k];
        ReachedBody(words, main, j);
        FoundStrings(words, main, j);
        StillServes(words, strings, main, words', strings', words[j].def.body);
      }
    }
    if Defined(words', strings', main) {
      forall j | 0 <= j < |words| && Missed(words, main, j)
        ensures AllReached(words, main, words[j].def.body) && AllFound(words, main, words[j].def.body)
      {
        KeptEntries(words, main, words', words[j]);
        var k :| 0 <= k < |words'| && words'[k] == words[j];
        StillServes(words, strings, main, words', strings', words[j].def.body);
      }
    }
  }

  predicate RefersToNothing(body: seq<Operation>) {
    forall k :: 0 <= k < |body| ==> WordRef(body[k]).None? && StringRef(body[k]).None?
  }

  /** A function that shares its id refers to nothing. */
  ghost predicate SharersClosed(words: Dictionary) {
    forall j, k :: 0 <= j < |words| && 0 <= k < |words| && j != k && IsFunction(words, k) ==>
      words[j].id == words[k].id ==> RefersToNothing(words[k].def.body)
  }

  /** Then nothing is missed, whatever the order of the table. */
  lemma ClosedMissesNothing(words: Dictionary, main: seq<Operation>)
    requires SharersClosed(words)
    ensures NothingMissed(words, main) && NoStringMissed(words, main)
  {
    hide Reachable;
    forall k | 0 <= k < |words| && Missed(words, main, k)
      ensures AllReached(words, main, words[k].def.body) && AllFound(words, main, words[k].def.body)
    {
      var j := First(words, words[k].id).value;
      assert words[j].id == words[k].id;
    }
  }

  /** An intrinsic and a function of the same id, which alone refers to another function. */
  predicate HidesWord(words: Dictionary, main: seq<Operation>) {
    && |words| == 3 && words[0].id == 0 && words[0].def == OtherWord && words[1].id == 0 && words[2].id == 1
    && words[1].def == FunctionWord([Operation(Plain(CallSymbol(1)), NoJump)]) && words[2].def.FunctionWord?
    && (forall k :: 0 <= k < |words[2].def.body| ==>
          WordRef(words[2].def.body[k]).None? && StringRef(words[2].def.body[k]).None?)
    && main == [Operation(Plain(CallSymbol(0)), NoJump)]
  }

  lemma HiddenWordGoes(words: Dictionary, main: seq<Operation>, words': Dictionary, strings': Strings)
    requires HidesWord(words, main) && Removed(words, map[], main, words', strings')
    ensures words' == words[..2] && !Defined(words', strings', main)
  {
    hide Reachable;
    assert First(words, 0) == Some(0) by { assert words[0].id == 0; }
    forall id
      ensures Reachable(words, main, id) <==> id == 0
    {
      OnlyItself(words, main, id);
    }
    var used :| UsedExactly(words, main, used) && words' == KeepWords(words, used);
    KeepsTwo(words, used);
    assert IsFunction(words', 1) && !Serves(words', strings', words'[1].def.body[0]);
  }

  lemma HiddenWordDefined(words: Dictionary, main: seq<Operation>)
    requires HidesWord(words, main)
    ensures Defined(words, map[], main)
  {
    var none: Strings := map[];
    assert Serves(words, none, main[0]) by { assert words[1].id == 0; }
    assert Serves(words, none, words[1].def.body[0]) by { assert words[2].id == 1; }
  }

  /** `a fun b end  b fun 1 drop end  a`, an intrinsic in front of `a` in the table: `b` goes while `a` calls it. */
  lemma FirstDefinitionDangles()
    ensures var b := [Operation(Plain(PushInt(1, Int)), NoJump), Operation(Plain(Intrinsic(Shuffle(Drop))), NoJump)];
      var main, a := [Operation(Plain(CallSymbol(0)), NoJump)], [Operation(Plain(CallSymbol(1)), NoJump)];
      var words := [Entry("drop", 0, OtherWord), Entry("a", 0, FunctionWord(a)), Entry("b", 1, FunctionWord(b))];
      && Defined(words, map[], main)
      && forall words', strings' :: Removed(words, map[], main, words', strings') ==>
           words' == words[..2] && !Defined(words', strings', main)
  {
    hide Defined;
    hide Removed;
    var b := [Operation(Plain(PushInt(1, Int)), NoJump), Operation(Plain(Intrinsic(Shuffle(Drop))), NoJump)];
    var main, a := [Operation(Plain(CallSymbol(0)), NoJump)], [Operation(Plain(CallSymbol(1)), NoJump)];
    var words := [Entry("drop", 0, OtherWord), Entry("a", 0, FunctionWord(a)), Entry("b", 1, FunctionWord(b))];
    HiddenWordDefined(words, main);
    forall words': Dictionary, strings': Strings | Removed(words, map[], main, words', strings')
      ensures words' == words[..2] && !Defined(words', strings', main)
    {
      HiddenWordGoes(words, main, words', strings');
    }
  }

  /** An intrinsic and a function of the same id, which alone mentions a string. */
  predicate HidesString(words: Dictionary, strings: Strings, main: seq<Operation>) {
    && |words| == 2 && words[0].id == 0 && words[0].def == OtherWord && words[1].id == 0
    && words[1].def.FunctionWord? && words[1].def.body == [Operation(Plain(PushSymbol(StringSymbol(5))), NoJump)]
    && main == [Operation(Plain(CallSymbol(0)), NoJump)] && strings == map["hi" := 5]
  }

  lemma HiddenReach(words: Dictionary, strings: Strings, main: seq<Operation>)
    requires HidesString(words, strings, main)
    ensures First(words, 0) == Some(0) && forall id :: Reachable(words, main, id) <==> id == 0
  {
    assert words[0].id == 0;
    forall id
      ensures Reachable(words, main, id) <==> id == 0
    {
      OnlyItself(words, main, id);
    }
  }

  lemma HiddenDefined(words: Dictionary, strings: Strings, main: seq<Operation>)
    requires HidesString(words, strings, main)
    ensures Defined(words, strings, main) && NothingMissed(words, main)
  {
    hide Reachable;
    HiddenReach(words, strings, main);
    assert Serves(words, strings, main[0]) by { assert words[1].id == 0; }
    assert Serves(words, strings, words[1].def.body[0]) by { assert strings["hi"] == 5; }
  }

  lemma HiddenStringGoes(words: Dictionary, strings: Strings, main: seq<Operation>, words': Dictionary, strings': Strings)
    requires HidesString(words, strings, main) && Removed(words, strings, main, words', strings')
    ensures words' == words && strings' == map[] && !Defined(words', strings', main)
  {
    hide Reachable;
    HiddenReach(words, strings, main);
    assert !RefersToString(main, 5) && !RefersToString(BodyOf(words, 0), 5);
    assert !StringFound(words, main, 5);
    var used :| UsedExactly(words, main, used) && words' == KeepWords(words, used);
    KeepsBoth(words, used);
    assert strings'.Keys == {};
    assert IsFunction(words', 1) && !Serves(words', strings', words'[1].def.body[0]);
  }

  /** `a fun "hi" end  a`, likewise: both words stay, and the string that `a` pushes goes. */
  lemma FirstDefinitionLosesString()
    ensures var main := [Operation(Plain(CallSymbol(0)), NoJump)];
      var a := [Operation(Plain(PushSymbol(StringSymbol(5))), NoJump)];
      var words, strings := [Entry("drop", 0, OtherWord), Entry("a", 0, FunctionWord(a))], map["hi" := 5];
      && Defined(words, strings, main) && NothingMissed(words, main)
      && forall words', strings' :: Removed(words, strings, main, words', strings') ==>
           words' == words && strings' == map[] && !Defined(words', strings', main)
  {
    hide Defined;
    hide NothingMissed;
    hide Removed;
    var main := [Operation(Plain(CallSymbol(0)), NoJump)];
    var a := [Operation(Plain(PushSymbol(StringSymbol(5))), NoJump)];
    var words := [Entry("drop", 0, OtherWord), Entry("a", 0, FunctionWord(a))];
    var strings: Strings := map["hi" := 5];
    HiddenDefined(words, strings, main);
    forall words': Dictionary, strings': Strings | Removed(words, strings, main, words', strings')
      ensures words' == words && strings' == map[] && !Defined(words', strings', main)
    {
      HiddenStringGoes(words, strings, main, words', strings');
    }
  }

  lemma KeepsBoth(words: Dictionary, used: set<nat>)
    requires |words| == 2 && Stays(words[0], used) && Stays(words[1], used)
    ensures KeepWords(words, used) == words
  {
    assert words[..1][..0] == [];
    assert KeepWords(words[..1], used) == [words[0]];
    assert [words[0]] + [words[1]] == words;
  }

  lemma NoReferences(id: nat)
    ensures !Refers([], id)
  {
  }

  lemma OnlyItself(words: Dictionary, main: seq<Operation>, id: nat)
    requires |main| == 1 && WordRef(main[0]) == Some(0) && BodyOf(words, 0) == []
    ensures Reachable(words, main, id) <==> id == 0
  {
    if id == 0 {
      assert Refers(main, 0);
      ReachDirect(words, main, 0);
    }
    if Reachable(words, main, id) {
      var path :| IsPath(words, main, path, id);
      assert path[0] == 0;
      if |path| > 1 {
        NoReferences(path[1]);
      }
    }
  }

  lemma KeepsTwo(words: Dictionary, used: set<nat>)
    requires |words| == 3 && Stays(words[0], used) && Stays(words[1], used) && !Stays(words[2], used)
    ensures KeepWords(words, used) == words[..2]
  {
    assert words[..2][..1] == words[..1];
    assert words[..1][..0] == [];
    assert KeepWords(words[..1], used) == [words[0]];
    assert KeepWords(words[..2], used) == [words[0]] + [words[1]];
  }

  // ----- runs -----

  /** The function emitted under this id. */
  function FunctionNamed(words: Dictionary, id: nat): (r: Option<seq<Operation>>)
    ensures r.Some? ==> exists k :: 0 <= k < |words| && words[k].id == id && words[k].def == FunctionWord(r.value)
    ensures r.None? ==> forall k :: 0 <= k < |words| && words[k].id == id ==> !IsFunction(words, k)
  {
    if words == [] then None
    else
      var n := |words| - 1;
      var r := FunctionNamed(words[..n], id);
      if r.Some? then
        (var k :| 0 <= k < n && words[..n][k].id == id && words[..n][k].def == FunctionWord(r.value);
         assert words[k].id == id && words[k].def == FunctionWord(r.value);
         r)
      else
        assert forall k :: 0 <= k < n && words[k].id == id ==> words[..n][k] == words[k] && !IsFunction(words[..n], k);
        if words[n].id == id && words[n].def.FunctionWord? then Some(words[n].def.body) else None
  }

  function FunctionRefs(words: Dictionary): set<FunctionRef> {
    set k | 0 <= k < |words| && IsFunction(words, k) :: Function(words[k].id)
  }

  function ProgramOf(main: seq<Operation>, words: Dictionary): (p: Program)
    ensures p.Keys == {Main} + FunctionRefs(words)
  {
    map f | f in {Main} + FunctionRefs(words)
      :: if f == Main then main else FunctionNamed(words, f.id).value
  }

  lemma ProgramBody(main: seq<Operation>, words: Dictionary, id: nat)
    ensures Function(id) in ProgramOf(main, words) <==> FunctionNamed(words, id).Some?
    ensures FunctionNamed(words, id).Some? ==>
        Body(ProgramOf(main, words), Function(id)) == FunctionNamed(words, id).value
  {
    if FunctionNamed(words, id).Some? {
      var k :| 0 <= k < |words| && words[k].id == id && words[k].def == FunctionWord(FunctionNamed(words, id).value);
      assert IsFunction(words, k);
      assert Function(id) in FunctionRefs(words);
    }
  }

  lemma {:induction false} KeptFunction(words: Dictionary, used: set<nat>, id: nat)
    ensures FunctionNamed(KeepWords(words, used), id) == if id in used then FunctionNamed(words, id) else None
    decreases |words|
  {
    if words != [] {
      var n := |words| - 1;
      KeptFunction(words[..n], used, id);
      var r := KeepWords(words[..n], used);
      if Stays(words[n], used) {
        assert (r + [words[n]])[..|r|] == r;
      }
    }
  }

  /** Functions something reachable refers to, and what they refer to. */
  ghost predicate LiveFrame(words: Dictionary, main: seq<Operation>, f: FunctionRef) {
    f == Main || (FunctionNamed(words, f.id).Some? && Reachable(words, main, f.id))
  }

  ghost predicate Live(words: Dictionary, main: seq<Operation>, c: Config) {
    && LiveFrame(words, main, c.cur.f)
    && forall i :: 0 <= i < |c.callers| ==> LiveFrame(words, main, c.callers[i].f)
  }

  /** An indirect call made in this configuration goes to a reachable function, if to any. */
  ghost predicate CallsReachable(env: Env, words: Dictionary, main: seq<Operation>, c: Config) {
    var body, n := Body(ProgramOf(main, words), c.cur.f), |c.stack|;
    c.cur.ip < |body| && body[c.cur.ip].kind == Plain(Intrinsic(Call)) && n >= 1 ==>
      match env.resolve(c.stack[n-1])
      case None => true
      case Some(id) => FunctionNamed(words, id).Some? ==> Reachable(words, main, id)
  }

  lemma SameFunction(words: Dictionary, main: seq<Operation>, words': Dictionary, id: nat)
    requires KeepsExactly(words, main, words')
    ensures FunctionNamed(words', id) == if Reachable(words, main, id) then FunctionNamed(words, id) else None
  {
    hide Reachable;
    var used :| UsedExactly(words, main, used) && words' == KeepWords(words, used);
    KeptFunction(words, used, id);
  }

  lemma SameBodies(words: Dictionary, main: seq<Operation>, words': Dictionary, f: FunctionRef)
    requires KeepsExactly(words, main, words') && LiveFrame(words, main, f)
    ensures Body(ProgramOf(main, words'), f) == Body(ProgramOf(main, words), f)
  {
    hide Reachable;
    if f.Function? {
      SameFunction(words, main, words', f.id);
      ProgramBody(main, words, f.id);
      ProgramBody(main, words', f.id);
    }
  }

  /** A call to a reachable word does the same in both programs, and stays among live functions. */
  lemma SameEntry(words: Dictionary, main: seq<Operation>, words': Dictionary, c: Config, id: nat)
    requires KeepsExactly(words, main, words') && Live(words, main, c)
    requires FunctionNamed(words, id).Some? ==> Reachable(words, main, id)
    ensures Enter(ProgramOf(main, words'), c, id) == Enter(ProgramOf(main, words), c, id)
    ensures var s := Enter(ProgramOf(main, words), c, id);
      s.Running? ==> Live(words, main, s.config)
  {
    hide Reachable;
    hide KeepsExactly;
    SameFunction(words, main, words', id);
    ProgramBody(main, words, id);
    ProgramBody(main, words', id);
  }

  lemma CallTargetReachable(words: Dictionary, main: seq<Operation>, c: Config, id: nat)
    requires Live(words, main, c) && NothingMissed(words, main)
    requires var body := Body(ProgramOf(main, words), c.cur.f);
      c.cur.ip < |body| && body[c.cur.ip].kind == Plain(CallSymbol(id))
    ensures Reachable(words, main, id)
  {
    var body := Body(ProgramOf(main, words), c.cur.f);
    assert WordRef(body[c.cur.ip]) == Some(id);
    assert Refers(body, id);
    if c.cur.f == Main {
      ReachDirect(words, main, id);
    } else {
      ProgramBody(main, words, c.cur.f.id);
      var k :| 0 <= k < |words| && words[k].id == c.cur.f.id
          && words[k].def == FunctionWord(FunctionNamed(words, c.cur.f.id).value);
      ReachedBody(words, main, k);
    }
  }

  lemma SameStep(env: Env, words: Dictionary, main: seq<Operation>, words': Dictionary, c: Config)
    requires KeepsExactly(words, main, words') && NothingMissed(words, main) && CallsReachable(env, words, main, c)
    requires Live(words, main, c)
    ensures Step(env, ProgramOf(main, words'), c) == Step(env, ProgramOf(main, words), c)
    ensures var s := Step(env, ProgramOf(main, words), c);
      s.Running? ==> Live(words, main, s.config)
  {
    hide ProgramOf;
    hide Reachable;
    hide ApplyPlain;
    hide Enter;
    hide KeepsExactly;
    hide NothingMissed;
    SameBodies(words, main, words', c.cur.f);
    var body := Body(ProgramOf(main, words), c.cur.f);
    if c.cur.ip < |body| {
      var op := body[c.cur.ip];
      if op.kind.Plain? && op.kind.plain.CallSymbol? {
        CallTargetReachable(words, main, c, op.kind.plain.id);
        SameEntry(words, main, words', c, op.kind.plain.id);
      } else if op.kind.Plain? && op.kind.plain.Intrinsic? && op.kind.plain.intrinsic.Call? && |c.stack| >= 1 {
        var v := c.stack[|c.stack|-1];
        if env.resolve(v).Some? {
          SameEntry(words, main, words', c.(stack := c.stack[..|c.stack|-1]), env.resolve(v).value);
        }
      }
    }
  }

  /** The indirect calls of the first `n` steps from `s` all go to reachable functions. */
  ghost predicate RunCallsReachable(env: Env, words: Dictionary, main: seq<Operation>, s: State, n: nat) {
    forall k: nat :: k < n ==> StateCallsReachable(env, words, main, Run(env, ProgramOf(main, words), s, k))
  }

  ghost predicate StateCallsReachable(env: Env, words: Dictionary, main: seq<Operation>, s: State) {
    s.Running? ==> CallsReachable(env, words, main, s.config)
  }

  lemma NextCallsReachable(env: Env, words: Dictionary, main: seq<Operation>, c: Config, n: nat)
    requires n > 0 && RunCallsReachable(env, words, main, Running(c), n)
    ensures CallsReachable(env, words, main, c)
    ensures RunCallsReachable(env, words, main, Step(env, ProgramOf(main, words), c), n - 1)
  {
    hide Step;
    hide ProgramOf;
    hide CallsReachable;
    var p := ProgramOf(main, words);
    assert StateCallsReachable(env, words, main, Run(env, p, Running(c), 0));
    forall k: nat | k < n - 1
      ensures StateCallsReachable(env, words, main, Run(env, p, Step(env, p, c), k))
    {
      assert StateCallsReachable(env, words, main, Run(env, p, Running(c), k + 1));
    }
  }

  lemma {:induction false} SameRun(env: Env, words: Dictionary, main: seq<Operation>, words': Dictionary,
      c: Config, n: nat)
    requires KeepsExactly(words, main, words') && NothingMissed(words, main) && Live(words, main, c)
    requires RunCallsReachable(env, words, main, Running(c), n)
    ensures Run(env, ProgramOf(main, words'), Running(c), n) == Run(env, ProgramOf(main, words), Running(c), n)
    decreases n
  {
    hide Step;
    hide ProgramOf;
    hide KeepsExactly;
    hide NothingMissed;
    hide CallsReachable;
    hide RunCallsReachable;
    hide Live;
    if n > 0 {
      NextCallsReachable(env, words, main, c, n);
      SameStep(env, words, main, words', c);
      var s := Step(env, ProgramOf(main, words), c);
      if s.Running? {
        SameRun(env, words, main, words', s.config, n - 1);
      }
    }
  }

  /**
   A run whose own indirect calls go to reachable functions is, step for step, what it was before anything was erased.
   */
  lemma RemovalUnobservable(env: Env, words: Dictionary, main: seq<Operation>, words': Dictionary, st: seq<Word>,
      world: World, n: nat)
    requires KeepsExactly(words, main, words') && NothingMissed(words, main)
    requires RunCallsReachable(env, words, main, Start(st, world), n)
    ensures Run(env, ProgramOf(main, words'), Start(st, world), n)
        == Run(env, ProgramOf(main, words), Start(st, world), n)
  {
    hide KeepsExactly;
    hide NothingMissed;
    hide RunCallsReachable;
    SameRun(env, words, main, words', Start(st, world).config, n);
  }

  // ----- programs without `call` -----

  predicate CallFreeBody(body: seq<Operation>) {
    forall k :: 0 <= k < |body| ==> body[k].kind != Plain(Intrinsic(Call))
  }

  ghost predicate CallFree(words: Dictionary, main: seq<Operation>) {
    CallFreeBody(main) && forall k :: 0 <= k < |words| && IsFunction(words, k) ==> CallFreeBody(words[k].def.body)
  }

  lemma CallFreeConfig(env: Env, words: Dictionary, main: seq<Operation>, c: Config)
    requires CallFree(words, main)
    ensures CallsReachable(env, words, main, c)
  {
    hide Reachable;
    if c.cur.f.Function? {
      ProgramBody(main, words, c.cur.f.id);
      if FunctionNamed(words, c.cur.f.id).Some? {
        var k :| 0 <= k < |words| && words[k].id == c.cur.f.id
            && words[k].def == FunctionWord(FunctionNamed(words, c.cur.f.id).value);
        assert IsFunction(words, k);
      }
    }
  }

  /** Where no configuration calls anything unreachable, the removal cannot be observed. */
  lemma ReachableRemoval(env: Env, words: Dictionary, main: seq<Operation>, words': Dictionary)
    requires KeepsExactly(words, main, words') && NothingMissed(words, main)
    requires forall c :: CallsReachable(env, words, main, c)
    ensures Equivalent(env, ProgramOf(main, words), ProgramOf(main, words'))
  {
    hide KeepsExactly;
    hide NothingMissed;
    hide CallsReachable;
    hide ProgramOf;
    hide Run;
    var p, p' := ProgramOf(main, words), ProgramOf(main, words');
    forall st, world
      ensures SameObservations(env, p, Start(st, world), p', Start(st, world))
    {
      forall n: nat
        ensures Run(env, p', Start(st, world), n) == Run(env, p, Start(st, world), n)
      {
        RemovalUnobservable(env, words, main, words', st, world, n);
      }
      SameRunsSeen(env, p, p', Start(st, world));
    }
  }

  /** Programs without `call` are observed alike without any assumption about addresses. */
  lemma CallFreeRemoval(env: Env, words: Dictionary, main: seq<Operation>, words': Dictionary)
    requires KeepsExactly(words, main, words') && NothingMissed(words, main) && CallFree(words, main)
    ensures Equivalent(env, ProgramOf(main, words), ProgramOf(main, words'))
  {
    hide KeepsExactly;
    hide NothingMissed;
    hide CallFree;
    hide CallsReachable;
    hide ProgramOf;
    hide Equivalent;
    forall c
      ensures CallsReachable(env, words, main, c)
    {
      CallFreeConfig(env, words, main, c);
    }
    ReachableRemoval(env, words, main, words');
  }

  // ----- programs whose addresses are those of what is left -----

  /** Every address that resolves is one of a function of `p`. */
  ghost predicate ResolvesWithin(env: Env, p: Program) {
    forall v: Word :: env.resolve(v).Some? ==> Function(env.resolve(v).value) in p
  }

  lemma ResolvedConfig(env: Env, words: Dictionary, main: seq<Operation>, words': Dictionary, c: Config)
    requires KeepsExactly(words, main, words') && ResolvesWithin(env, ProgramOf(main, words'))
    ensures CallsReachable(env, words, main, c)
  {
    hide Reachable;
    hide KeepsExactly;
    hide ProgramOf;
    hide FunctionNamed;
    hide Body;
    var n := |c.stack|;
    if n >= 1 && env.resolve(c.stack[n-1]).Some? {
      var id := env.resolve(c.stack[n-1]).value;
      ProgramBody(main, words', id);
      SameFunction(words, main, words', id);
    }
  }

  /** There a removal cannot be observed, indirect calls included. */
  lemma ResolvedRemoval(env: Env, words: Dictionary, main: seq<Operation>, words': Dictionary)
    requires KeepsExactly(words, main, words') && NothingMissed(words, main)
    requires ResolvesWithin(env, ProgramOf(main, words'))
    ensures Equivalent(env, ProgramOf(main, words), ProgramOf(main, words'))
  {
    hide KeepsExactly;
    hide NothingMissed;
    hide ResolvesWithin;
    hide CallsReachable;
    hide ProgramOf;
    hide Equivalent;
    forall c
      ensures CallsReachable(env, words, main, c)
    {
      ResolvedConfig(env, words, main, words', c);
    }
    ReachableRemoval(env, words, main, words');
  }

  lemma SameRunsSeen(env: Env, p: Program, p': Program, s: State)
    requires forall n: nat :: Run(env, p', s, n) == Run(env, p, s, n)
    ensures SameObservations(env, p, s, p', s)
  {
    hide Run;
    forall n: nat
      ensures Seen(env, p', s, Observe(Run(env, p, s, n)))
      ensures Seen(env, p, s, Observe(Run(env, p', s, n)))
    {
      assert Observe(Run(env, p', s, n)) == Observe(Run(env, p, s, n));
    }
  }

  // ----- walking again -----

  lemma {:induction false} KeptFirst(words: Dictionary, used: set<nat>, id: nat)
    requires id in used
    ensures BodyOf(KeepWords(words, used), id) == BodyOf(words, id)
    ensures id in Ids(KeepWords(words, used)) <==> id in Ids(words)
    decreases |words|
  {
    if words != [] {
      var n := |words| - 1;
      KeptFirst(words[..n], used, id);
      IdsSnoc(words[..n], words[n]);
      assert words[..n] + [words[n]] == words;
      BodyOfSnoc(words[..n], words[n], id);
      if Stays(words[n], used) {
        IdsSnoc(KeepWords(words[..n], used), words[n]);
        BodyOfSnoc(KeepWords(words[..n], used), words[n], id);
      }
    }
  }

  lemma IdsSnoc(words: Dictionary, e: Entry)
    ensures Ids(words + [e]) == Ids(words) + {e.id}
  {
    assert forall k :: 0 <= k < |words| ==> (words + [e])[k] == words[k];
    assert (words + [e])[|words|] == e;
    forall id | id in Ids(words)
      ensures id in Ids(words + [e])
    {
      var k :| 0 <= k < |words| && words[k].id == id;
      assert (words + [e])[k].id == id;
    }
  }

  lemma BodyOfSnoc(words: Dictionary, e: Entry, id: nat)
    ensures BodyOf(words + [e], id) ==
      if id in Ids(words) then BodyOf(words, id) else if e.id == id && e.def.FunctionWord? then e.def.body else []
  {
    var all := words + [e];
    assert all[..|words|] == words;
    if First(words, id).Some? {
      assert all[First(words, id).value] == words[First(words, id).value];
    }
  }

  lemma {:induction false} UnusedBody(words: Dictionary, used: set<nat>, id: nat)
    requires id !in used
    ensures BodyOf(KeepWords(words, used), id) == []
    decreases |words|
  {
    if words != [] {
      var n := |words| - 1;
      UnusedBody(words[..n], used, id);
      if Stays(words[n], used) {
        BodyOfSnoc(KeepWords(words[..n], used), words[n], id);
      }
    }
  }

  /** What is left can be walked again, whatever was hidden. */
  lemma StaysWalkable(words: Dictionary, main: seq<Operation>, used: set<nat>)
    requires Walkable(words, main) && UsedExactly(words, main, used)
    ensures Walkable(KeepWords(words, used), main)
  {
    hide Reachable;
    hide KeepWords;
    hide BodyOf;
    hide Ids;
    var words' := KeepWords(words, used);
    forall id: nat | Refers(main, id)
      ensures id in Ids(words')
    {
      ReachDirect(words, main, id);
      KeptFirst(words, used, id);
    }
    forall x: nat, id: nat | Refers(BodyOf(words', x), id)
      ensures id in Ids(words')
    {
      if x in used {
        KeptFirst(words, used, x);
        ReachStep(words, main, x, id);
        KeptFirst(words, used, id);
      } else {
        UnusedBody(words, used, x);
        NoReferences(id);
      }
    }
  }

  // ----- the pass -----

  method RemoveUnused(words: Dictionary, strings: Strings, main: seq<Operation>)
      returns (words': Dictionary, strings': Strings, changed: bool)
    requires Walkable(words, main)
    ensures Removed(words, strings, main, words', strings') && Walkable(words', main)
    ensures |words'| <= |words| && |strings'| <= |strings|
    ensures changed <==> |words'| + |strings'| < |words| + |strings|
    ensures !changed ==> words' == words && strings' == strings
  {
    hide Reachable;
    hide Refers;
    hide RefersToString;
    hide Marked;
    hide StringFound;
    var m := Mark(words, main, Marks({}, {}));
    MarksExact(words, main, m);
    assert UsedExactly(words, main, m.words);
    words' := EraseWords(words, m.words);
    StaysWalkable(words, main, m.words);
    strings' := KeepStrings(strings, m.strings);
    SubmapSize(strings, strings');
    changed := |words'| != |words| || |strings'| != |strings|;
  }

  lemma SubmapSize<K, V>(a: map<K, V>, b: map<K, V>)
    requires forall k :: k in b ==> k in a && b[k] == a[k]
    ensures |b| <= |a|
    ensures |b| == |a| ==> b == a
  {
    assert b.Keys <= a.Keys;
    SubsetSize(a.Keys, b.Keys);
  }

  lemma SubsetSize<K>(a: set<K>, b: set<K>)
    requires b <= a
    ensures |b| <= |a|
    ensures |b| == |a| ==> b == a
  {
    assert a == b + (a - b);
    assert |a| == |b| + |a - b|;
  }
}
