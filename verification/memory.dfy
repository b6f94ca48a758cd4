/** Memory, byte by byte: what a store changes, what a load reads, and that the one undoes the other. */
module MemoryLaws {
  import opened Words
  import opened Machine

  function Pow256(n: nat): (r: nat)
    ensures r >= 1
  {
    if n == 0 then 1 else 256 * Pow256(n - 1)
  }

  /** Byte `k` of a number, the lowest first. */
  function ByteOf(v: nat, k: nat): nat {
    v / Pow256(k) % 256
  }

  lemma DivideThrough(v: nat, p: nat)
    requires p > 0
    ensures v / (256 * p) == v / 256 / p
  {
    var q, r := v / 256 / p, v / 256 % p;
    assert v / 256 == p * q + r;
    assert v == 256 * (v / 256) + v % 256;
    var low := v % 256 + 256 * r;
    assert v == (256 * p) * q + low && 0 <= low < 256 * p;
    OnlyQuotient(v, 256 * p, q, low);
  }

  lemma OnlyQuotient(v: nat, d: nat, q: int, r: nat)
    requires d > 0 && v == d * q + r && r < d
    ensures v / d == q
  {
    var x := v / d;
    assert v == d * x + v % d;
    assert d * (x + 1) == d * x + d && d * (q + 1) == d * q + d;
    if x < q {
      Scale(d, x + 1, q);
    } else if q < x {
      Scale(d, q + 1, x);
    }
  }

  lemma ByteOfRest(v: nat, k: nat)
    ensures ByteOf(v, k + 1) == ByteOf(v / 256, k)
    ensures ByteOf(v, 0) == v % 256
  {
    DivideThrough(v, Pow256(k));
    assert Pow256(0) == 1;
  }

  /** A store puts the low bytes of the value at consecutive addresses, and leaves every other address alone. */
  lemma {:induction false} StoreByByte(memory: map<int, int>, address: int, n: nat, value: nat, a: int)
    ensures Byte(StoreBytes(memory, address, n, value), a)
         == if address <= a < address + n then ByteOf(value, a - address) else Byte(memory, a)
    decreases n
  {
    hide ByteOf;
    if n > 0 {
      StoreByByte(memory[address := value % 256], address + 1, n - 1, value / 256, a);
      ByteOfRest(value, 0);
      if address < a < address + n {
        ByteOfRest(value, a - address - 1);
      }
    }
  }

  /** A load reads the bytes at consecutive addresses. */
  lemma {:induction false} LoadByByte(memory: map<int, int>, address: int, n: nat, k: nat)
    requires k < n && forall a :: 0 <= Byte(memory, a) < 256
    ensures LoadBytes(memory, address, n) >= 0 && ByteOf(LoadBytes(memory, address, n), k) == Byte(memory, address + k)
    decreases k
  {
    hide ByteOf;
    LoadBound(memory, address, n);
    LoadBound(memory, address + 1, n - 1);
    var v := LoadBytes(memory, address, n);
    assert 0 <= Byte(memory, address) < 256;
    assert v / 256 == LoadBytes(memory, address + 1, n - 1) && v % 256 == Byte(memory, address);
    if k == 0 {
      ByteOfRest(v, 0);
    } else {
      LoadByByte(memory, address + 1, n - 1, k - 1);
      ByteOfRest(v, k - 1);
    }
  }

  lemma {:induction false} LoadBound(memory: map<int, int>, address: int, n: nat)
    requires forall a :: 0 <= Byte(memory, a) < 256
    ensures 0 <= LoadBytes(memory, address, n) < Pow256(n)
    decreases n
  {
    if n > 0 {
      LoadBound(memory, address + 1, n - 1);
      assert 0 <= Byte(memory, address) < 256;
    }
  }

  /** What was stored is loaded again. */
  lemma {:induction false} StoreThenLoad(memory: map<int, int>, address: int, n: nat, value: nat)
    requires value < Pow256(n)
    ensures LoadBytes(StoreBytes(memory, address, n, value), address, n) == value
    decreases n
  {
    if n > 0 {
      var next := memory[address := value % 256];
      StoreThenLoad(next, address + 1, n - 1, value / 256);
      StoreByByte(next, address + 1, n - 1, value / 256, address);
    }
  }

  lemma EightBytes()
    ensures Pow256(8) == WORD_SIZE
  {
    assert Pow256(4) == 0x1_0000_0000;
  }

  /** A cell of eight bytes holds any word. */
  lemma CellHolds(w: World, address: Word, value: Word)
    ensures LoadWord(StoreWord(w, 8, address, value), 8, address) == value
  {
    hide LoadBytes;
    hide StoreBytes;
    hide Pow256;
    EightBytes();
    StoreThenLoad(w.memory, address, 8, value);
  }

  /** The words of the language: `store` and `load` of `size` bytes, at every address. */
  lemma StoreWordByByte(w: World, size: nat, address: Word, value: Word, a: int)
    ensures StoreWord(w, size, address, value).log == w.log
    ensures Byte(StoreWord(w, size, address, value).memory, a)
         == if address <= a < address + size then ByteOf(value, a - address) else Byte(w.memory, a)
  {
    hide StoreBytes;
    StoreByByte(w.memory, address, size, value, a);
  }

  lemma LoadWordByByte(w: World, size: nat, address: Word, k: nat)
    requires k < size <= 8 && forall a :: 0 <= Byte(w.memory, a) < 256
    ensures ByteOf(LoadWord(w, size, address), k) == Byte(w.memory, address + k)
    ensures LoadWord(w, size, address) < Pow256(size)
  {
    hide LoadBytes;
    hide Pow256;
    LoadBound(w.memory, address, size);
    PowersGrow(size, 8);
    EightBytes();
    LoadByByte(w.memory, address, size, k);
  }

  lemma {:induction false} PowersGrow(m: nat, n: nat)
    requires m <= n
    ensures Pow256(m) <= Pow256(n)
    decreases n
  {
    if m < n {
      PowersGrow(m, n - 1);
    }
  }
}
