/**
 The key hash of FlexKVS, little-endian form: one definition over the bytes of the key, and the three
 ways the code reads them, by words, by half-words and byte by byte. Words are numbers below 2^32
 with wrap-around written out.
 */
module JenkinsHash {
  import opened Bits

  const M: int := 0x1_0000_0000

  type Byte = x: int | 0 <= x < 256
  type Word = x: int | 0 <= x < 0x1_0000_0000

  /** Memory, by address. */
  type Mem = int -> Byte

  datatype Abc = Abc(a: Word, b: Word, c: Word)

  // ---- 32-bit arithmetic ----

  function Add(x: Word, y: Word): Word { (x + y) % M }
  function Sub(x: Word, y: Word): Word { (x - y) % M }

  function Xor(x: Word, y: Word): Word {
    WordSize();
    XorBits(x, y, 32)
  }

  lemma WordSize()
    ensures Pow2(32) == M && Pow2(24) == 0x100_0000 && Pow2(16) == 0x1_0000 && Pow2(8) == 0x100
  {
    assert Pow2(4) == 16 && Pow2(8) == 0x100 && Pow2(12) == 0x1000 && Pow2(16) == 0x1_0000;
    assert Pow2(20) == 0x10_0000 && Pow2(24) == 0x100_0000 && Pow2(28) == 0x1000_0000;
  }

  function Shl(x: Word, k: nat): Word { if k == 0 then x else 2 * Shl(x, k - 1) % M }

  // ---- mix and final ----

  function Rot(x: Word, k: nat): Word
    requires k <= 32
  {
    Xor(Shl(x, k), Shr(x, 32 - k))
  }

  /** a -= c; a ^= rot(c, k); c += b */
  function Stir(a: Word, b: Word, c: Word, k: nat): (Word, Word)
    requires k <= 32
  {
    (Xor(Sub(a, c), Rot(c, k)), Add(c, b))
  }

  function Mix(s: Abc): Abc {
    var (a1, c1) := Stir(s.a, s.b, s.c, 4);
    var (b1, a2) := Stir(s.b, c1, a1, 6);
    var (c2, b2) := Stir(c1, a2, b1, 8);
    var (a3, c3) := Stir(a2, b2, c2, 16);
    var (b3, a4) := Stir(b2, c3, a3, 19);
    var (c4, b4) := Stir(c3, a4, b3, 4);
    Abc(a4, b4, c4)
  }

  /** c -= b; a ^= rot(c, k); a += c */
  function Unstir(a: Word, b: Word, c: Word, k: nat): (Word, Word)
    requires k <= 32
  {
    (Add(Xor(a, Rot(Sub(c, b), k)), Sub(c, b)), Sub(c, b))
  }

  function Unmix(s: Abc): Abc {
    var (c3, b3) := Unstir(s.c, s.a, s.b, 4);
    var (b2, a3) := Unstir(b3, c3, s.a, 19);
    var (a2, c2) := Unstir(a3, b2, c3, 16);
    var (c1, b1) := Unstir(c2, a2, b2, 8);
    var (b0, a1) := Unstir(b1, c1, a2, 6);
    var (a0, c0) := Unstir(a1, b0, c1, 4);
    Abc(a0, b0, c0)
  }

  lemma SubAdd(a: Word, c: Word)
    ensures Add(Sub(a, c), c) == a && Sub(Add(a, c), c) == a
  {
  }

  lemma XorUndone(a: Word, r: Word)
    ensures Xor(Xor(a, r), r) == a
  {
    WordSize();
    XorTwice(a, r, 32);
  }

  lemma StirUnstir(a: Word, b: Word, c: Word, k: nat)
    requires k <= 32
    ensures var (a', c') := Stir(a, b, c, k); Unstir(a', b, c', k) == (a, c)
    ensures var (a', c') := Unstir(a, b, c, k); Stir(a', b, c', k) == (a, c)
  {
    hide Rot, Add, Sub, Xor;
    SubAdd(c, b);
    SubAdd(a, c);
    XorUndone(Sub(a, c), Rot(c, k));
    XorUndone(a, Rot(Sub(c, b), k));
    SubAdd(Xor(a, Rot(Sub(c, b), k)), Sub(c, b));
  }

  /** Mixing can be undone. */
  lemma UnmixMix(s: Abc)
    ensures Unmix(Mix(s)) == s
  {
    hide Stir, Unstir;
    var (a1, c1) := Stir(s.a, s.b, s.c, 4);
    var (b1, a2) := Stir(s.b, c1, a1, 6);
    var (c2, b2) := Stir(c1, a2, b1, 8);
    var (a3, c3) := Stir(a2, b2, c2, 16);
    var (b3, a4) := Stir(b2, c3, a3, 19);
    StirUnstir(s.a, s.b, s.c, 4);
    StirUnstir(s.b, c1, a1, 6);
    StirUnstir(c1, a2, b1, 8);
    StirUnstir(a2, b2, c2, 16);
    StirUnstir(b2, c3, a3, 19);
    StirUnstir(c3, a4, b3, 4);
  }

  /** Every state is the mix of some state. */
  lemma MixUnmix(s: Abc)
    ensures Mix(Unmix(s)) == s
  {
    hide Stir, Unstir;
    var (c3, b3) := Unstir(s.c, s.a, s.b, 4);
    var (b2, a3) := Unstir(b3, c3, s.a, 19);
    var (a2, c2) := Unstir(a3, b2, c3, 16);
    var (c1, b1) := Unstir(c2, a2, b2, 8);
    var (b0, a1) := Unstir(b1, c1, a2, 6);
    StirUnstir(s.c, s.a, s.b, 4);
    StirUnstir(b3, c3, s.a, 19);
    StirUnstir(a3, b2, c3, 16);
    StirUnstir(c2, a2, b2, 8);
    StirUnstir(b1, c1, a2, 6);
    StirUnstir(a1, b0, c1, 4);
  }

  /** c ^= b; c -= rot(b, k) */
  function Fold(c: Word, b: Word, k: nat): Word
    requires k <= 32
  {
    Sub(Xor(c, b), Rot(b, k))
  }

  /** Undoes Fold. */
  function Unfold(r: Word, b: Word, k: nat): Word
    requires k <= 32
  {
    Xor(Add(r, Rot(b, k)), b)
  }

  lemma FoldUnfold(c: Word, b: Word, k: nat)
    requires k <= 32
    ensures Unfold(Fold(c, b, k), b, k) == c && Fold(Unfold(c, b, k), b, k) == c
  {
    hide Rot, Add, Sub, Xor;
    SubAdd(Xor(c, b), Rot(b, k));
    SubAdd(c, Rot(b, k));
    XorUndone(c, b);
    XorUndone(Add(c, Rot(b, k)), b);
  }

  function Finish(s: Abc): Abc {
    var c1 := Fold(s.c, s.b, 14);
    var a1 := Fold(s.a, c1, 11);
    var b1 := Fold(s.b, a1, 25);
    var c2 := Fold(c1, b1, 16);
    var a2 := Fold(a1, c2, 4);
    var b2 := Fold(b1, a2, 14);
    Abc(a2, b2, Fold(c2, b2, 24))
  }

  function Unfinish(s: Abc): Abc {
    var c2 := Unfold(s.c, s.b, 24);
    var b1 := Unfold(s.b, s.a, 14);
    var a1 := Unfold(s.a, c2, 4);
    var c1 := Unfold(c2, b1, 16);
    var b0 := Unfold(b1, a1, 25);
    var a0 := Unfold(a1, c1, 11);
    Abc(a0, b0, Unfold(c1, b0, 14))
  }

  /** The last mixing can be undone, given all three words. */
  lemma UnfinishFinish(s: Abc)
    ensures Unfinish(Finish(s)) == s
  {
    hide Fold, Unfold;
    var c1 := Fold(s.c, s.b, 14);
    var a1 := Fold(s.a, c1, 11);
    var b1 := Fold(s.b, a1, 25);
    var c2 := Fold(c1, b1, 16);
    var a2 := Fold(a1, c2, 4);
    var b2 := Fold(b1, a2, 14);
    FoldUnfold(s.c, s.b, 14);
    FoldUnfold(s.a, c1, 11);
    FoldUnfold(s.b, a1, 25);
    FoldUnfold(c1, b1, 16);
    FoldUnfold(a1, c2, 4);
    FoldUnfold(b1, a2, 14);
    FoldUnfold(c2, b2, 24);
  }

  function Final(s: Abc): Word { Finish(s).c }

  // ---- the hash of a byte string ----

  /** The word with these bytes, lowest first. */
  function Le(b0: Byte, b1: Byte, b2: Byte, b3: Byte): Word {
    b0 + 0x100 * b1 + 0x1_0000 * b2 + 0x100_0000 * b3
  }

  /** Byte i of the key, zero past its end. */
  function At(key: seq<Byte>, i: nat): Byte { if i < |key| then key[i] else 0 }

  function WordAt(key: seq<Byte>, i: nat): Word { Le(At(key, i), At(key, i + 1), At(key, i + 2), At(key, i + 3)) }

  function Absorb(s: Abc, key: seq<Byte>): Abc {
    Abc(Add(s.a, WordAt(key, 0)), Add(s.b, WordAt(key, 4)), Add(s.c, WordAt(key, 8)))
  }

  function Seed(length: nat): Word { (0xdead_beef + length) % M }

  function Start(length: nat): Abc { Abc(Seed(length), Seed(length), Seed(length)) }

  /** Twelve bytes at a time; an empty rest, which only the empty key has, is not mixed. */
  function Digest(s: Abc, key: seq<Byte>): Word
    decreases |key|
  {
    if |key| > 12 then Digest(Mix(Absorb(s, key)), key[12..])
    else if |key| == 0 then s.c
    else Final(Absorb(s, key))
  }

  function Hash(key: seq<Byte>): Word { Digest(Start(|key|), key) }

  // ---- reading memory ----

  function Key(mem: Mem, base: int, length: nat): seq<Byte> { seq(length, i => mem(base + i)) }

  /** A 32-bit load. */
  function Load32(mem: Mem, p: int): Word { Le(mem(p), mem(p + 1), mem(p + 2), mem(p + 3)) }

  /** A 16-bit load, widened. */
  function Load16(mem: Mem, p: int): Word { Le(mem(p), mem(p + 1), 0, 0) }

  function Load8(mem: Mem, p: int): Word { mem(p) }

  lemma MaskIs(w: Word, k: nat, f: nat)
    requires f == Pow2(k)
    ensures And(w, f - 1) == w % f
  {
    AndMask(w, k);
  }

  /** Masking off the bytes past the end. */
  lemma Mask3(b0: Byte, b1: Byte, b2: Byte, b3: Byte)
    ensures And(Le(b0, b1, b2, b3), 0xff_ffff) == Le(b0, b1, b2, 0)
  {
    hide And, Pow2;
    WordSize();
    MaskIs(Le(b0, b1, b2, b3), 24, 0x100_0000);
    ModUnique(Le(b0, b1, b2, b3), 0x100_0000, b3, Le(b0, b1, b2, 0));
  }

  lemma Mask2(b0: Byte, b1: Byte, b2: Byte, b3: Byte)
    ensures And(Le(b0, b1, b2, b3), 0xffff) == Le(b0, b1, 0, 0)
  {
    hide And, Pow2;
    WordSize();
    MaskIs(Le(b0, b1, b2, b3), 16, 0x1_0000);
    ModUnique(Le(b0, b1, b2, b3), 0x1_0000, b2 + 0x100 * b3, Le(b0, b1, 0, 0));
  }

  lemma Mask1(b0: Byte, b1: Byte, b2: Byte, b3: Byte)
    ensures And(Le(b0, b1, b2, b3), 0xff) == Le(b0, 0, 0, 0)
  {
    hide And, Pow2;
    WordSize();
    MaskIs(Le(b0, b1, b2, b3), 8, 0x100);
    ModUnique(Le(b0, b1, b2, b3), 0x100, b1 + 0x100 * b2 + 0x1_0000 * b3, Le(b0, 0, 0, 0));
  }

  /** Shifting a byte or a half-word into place. */
  lemma Shifts(x: Word)
    ensures x < 0x100 ==> Shl(x, 8) == 0x100 * x && Shl(x, 16) == 0x1_0000 * x && Shl(x, 24) == 0x100_0000 * x
    ensures x < 0x1_0000 ==> Shl(x, 16) == 0x1_0000 * x
  {
    if x < 0x1_0000 {
      ShlIs(x, 8, 0x100);
      ShlIs(x, 16, 0x1_0000);
    }
    if x < 0x100 { ShlIs(x, 24, 0x100_0000); }
  }

  lemma ShlIs(x: Word, k: nat, f: nat)
    requires f == Pow2(k) && x * f < M
    ensures Shl(x, k) == x * f
  {
    if k > 0 {
      assert x * f == 2 * (x * (f / 2));
      ShlIs(x, k - 1, f / 2);
    }
  }

  // ---- the last block ----

  /** The word at q of which m bytes belong to the key. */
  function Part(mem: Mem, q: int, m: int): Word {
    Le(if m > 0 then mem(q) else 0, if m > 1 then mem(q + 1) else 0, if m > 2 then mem(q + 2) else 0, if m > 3 then mem(q + 3) else 0)
  }

  /** What the last block, or a whole one, adds to the state. */
  function Tail(mem: Mem, p: int, n: int, s: Abc): Abc {
    Abc(Add(s.a, Part(mem, p, n)), Add(s.b, Part(mem, p + 4, n - 4)), Add(s.c, Part(mem, p + 8, n - 8)))
  }

  lemma AbsorbIsTail(mem: Mem, p: int, n: nat, s: Abc)
    ensures Absorb(s, Key(mem, p, n)) == Tail(mem, p, n, s)
  {
    hide Add, Le;
  }

  lemma WholeBlock(mem: Mem, p: int, n: nat, s: Abc)
    requires n > 12
    ensures Digest(s, Key(mem, p, n)) == Digest(Mix(Tail(mem, p, 12, s)), Key(mem, p + 12, n - 12))
  {
    hide Mix, Add, Absorb, Le, Digest;
    DigestStep(s, Key(mem, p, n));
    AbsorbIsTail(mem, p, n, s);
    assert Key(mem, p, n)[12..] == Key(mem, p + 12, n - 12);
    assert Tail(mem, p, n, s) == Tail(mem, p, 12, s);
  }

  lemma DigestStep(s: Abc, key: seq<Byte>)
    requires |key| > 12
    ensures Digest(s, key) == Digest(Mix(Absorb(s, key)), key[12..])
  {
  }

  lemma LastBlock(mem: Mem, p: int, n: nat, s: Abc)
    requires n <= 12
    ensures Digest(s, Key(mem, p, n)) == if n == 0 then s.c else Final(Tail(mem, p, n, s))
  {
    AbsorbIsTail(mem, p, n, s);
    hide Mix, Final, Tail, Absorb;
  }

  lemma AddZero(x: Word)
    ensures Add(x, 0) == x
  {
  }

  lemma AddTwice(x: Word, y: Word, z: Word)
    requires y + z < M
    ensures Add(Add(x, y), z) == Add(x, y + z) == Add(Add(x, z), y)
  {
    AddIs(x, y);
    AddIs(x, z);
    AddIs(x, y + z);
    AddIs(Add(x, y), z);
    AddIs(Add(x, z), y);
    hide Add;
  }

  lemma AddIs(x: Word, y: Word)
    ensures Add(x, y) == if x + y < M then x + y else x + y - M
  {
  }

  // ---- aligned to four bytes ----

  /** A word load with the bytes past the end of the key masked off. */
  function Masked32(mem: Mem, q: int, m: int): (r: Word)
    requires 1 <= m <= 3
    ensures r == Part(mem, q, m)
  {
    Mask1(mem(q), mem(q + 1), mem(q + 2), mem(q + 3));
    Mask2(mem(q), mem(q + 1), mem(q + 2), mem(q + 3));
    Mask3(mem(q), mem(q + 1), mem(q + 2), mem(q + 3));
    And(Load32(mem, q), if m == 1 then 0xff else if m == 2 then 0xffff else 0xff_ffff)
  }

  method TailByWords(mem: Mem, p: int, n: nat, s: Abc) returns (r: Abc)
    requires 1 <= n <= 12
    ensures r == Tail(mem, p, n, s)
  {
    hide Add, Le, And;
    AddZero(s.b);
    AddZero(s.c);
    ZeroParts();
    var a, b, c := s.a, s.b, s.c;
    match n {
      case 12 => c := Add(c, Load32(mem, p + 8)); b := Add(b, Load32(mem, p + 4)); a := Add(a, Load32(mem, p));
      case 11 => c := Add(c, Masked32(mem, p + 8, 3)); b := Add(b, Load32(mem, p + 4)); a := Add(a, Load32(mem, p));
      case 10 => c := Add(c, Masked32(mem, p + 8, 2)); b := Add(b, Load32(mem, p + 4)); a := Add(a, Load32(mem, p));
      case 9 => c := Add(c, Masked32(mem, p + 8, 1)); b := Add(b, Load32(mem, p + 4)); a := Add(a, Load32(mem, p));
      case 8 => b := Add(b, Load32(mem, p + 4)); a := Add(a, Load32(mem, p));
      case 7 => b := Add(b, Masked32(mem, p + 4, 3)); a := Add(a, Load32(mem, p));
      case 6 => b := Add(b, Masked32(mem, p + 4, 2)); a := Add(a, Load32(mem, p));
      case 5 => b := Add(b, Masked32(mem, p + 4, 1)); a := Add(a, Load32(mem, p));
      case 4 => a := Add(a, Load32(mem, p));
      case 3 => a := Add(a, Masked32(mem, p, 3));
      case 2 => a := Add(a, Masked32(mem, p, 2));
      case _ => a := Add(a, Masked32(mem, p, 1));
    }
    r := Abc(a, b, c);
  }

  lemma ZeroParts()
    ensures Le(0, 0, 0, 0) == 0
  {
  }

  method HashByWords(mem: Mem, base: int, length: nat) returns (r: Word)
    ensures r == Hash(Key(mem, base, length))
  {
    hide Add, Le, Mix, Final, Digest, Tail;
    var s, p, n := Start(length), base, length;
    while n > 12
      invariant Digest(s, Key(mem, p, n)) == Hash(Key(mem, base, length))
    {
      WholeBlock(mem, p, n, s);
      var t := TailByWords(mem, p, 12, s);
      s, p, n := Mix(t), p + 12, n - 12;
    }
    LastBlock(mem, p, n, s);
    if n == 0 {
      return s.c;
    }
    var t := TailByWords(mem, p, n, s);
    r := Final(t);
  }

  // ---- aligned to two bytes ----

  /** Two half-words make a word. */
  function Pair(mem: Mem, q: int): (r: Word)
    ensures r == Part(mem, q, 4)
  {
    Shifts(Load16(mem, q + 2));
    AddIs(Load16(mem, q), Shl(Load16(mem, q + 2), 16));
    Add(Load16(mem, q), Shl(Load16(mem, q + 2), 16))
  }

  /** A byte shifted into third place, then a half-word. */
  lemma ByteThenHalf(mem: Mem, q: int, x: Word)
    ensures Add(Add(x, Shl(Load8(mem, q + 2), 16)), Load16(mem, q)) == Add(x, Part(mem, q, 3))
  {
    hide Add, Shl;
    Shifts(Load8(mem, q + 2));
    assert Shl(Load8(mem, q + 2), 16) + Load16(mem, q) == Part(mem, q, 3);
    AddTwice(x, Shl(Load8(mem, q + 2), 16), Load16(mem, q));
  }

  method TailByHalves(mem: Mem, p: int, n: nat, s: Abc) returns (r: Abc)
    requires 1 <= n <= 12
    ensures r == Tail(mem, p, n, s)
  {
    hide Add, Le, And, Shl;
    AddZero(s.b);
    AddZero(s.c);
    ZeroParts();
    ByteThenHalf(mem, p, s.a);
    ByteThenHalf(mem, p + 4, s.b);
    ByteThenHalf(mem, p + 8, s.c);
    var a, b, c := s.a, s.b, s.c;
    if n == 12 {
      c := Add(c, Pair(mem, p + 8));
      b := Add(b, Pair(mem, p + 4));
      a := Add(a, Pair(mem, p));
    } else if n >= 10 {
      if n == 11 { c := Add(c, Shl(Load8(mem, p + 10), 16)); }
      c := Add(c, Load16(mem, p + 8));
      b := Add(b, Pair(mem, p + 4));
      a := Add(a, Pair(mem, p));
    } else if n >= 8 {
      if n == 9 { c := Add(c, Load8(mem, p + 8)); }
      b := Add(b, Pair(mem, p + 4));
      a := Add(a, Pair(mem, p));
    } else if n >= 6 {
      if n == 7 { b := Add(b, Shl(Load8(mem, p + 6), 16)); }
      b := Add(b, Load16(mem, p + 4));
      a := Add(a, Pair(mem, p));
    } else if n >= 4 {
      if n == 5 { b := Add(b, Load8(mem, p + 4)); }
      a := Add(a, Pair(mem, p));
    } else if n >= 2 {
      if n == 3 { a := Add(a, Shl(Load8(mem, p + 2), 16)); }
      a := Add(a, Load16(mem, p));
    } else {
      a := Add(a, Load8(mem, p));
    }
    LowByte(mem, p);
    LowByte(mem, p + 4);
    LowByte(mem, p + 8);
    r := Abc(a, b, c);
  }

  lemma LowByte(mem: Mem, q: int)
    ensures Load8(mem, q) == Part(mem, q, 1)
  {
  }

  method HashByHalves(mem: Mem, base: int, length: nat) returns (r: Word)
    ensures r == Hash(Key(mem, base, length))
  {
    hide Add, Le, Mix, Final, Digest, Tail;
    var s, p, n := Start(length), base, length;
    while n > 12
      invariant Digest(s, Key(mem, p, n)) == Hash(Key(mem, base, length))
    {
      WholeBlock(mem, p, n, s);
      var t := TailByHalves(mem, p, 12, s);
      s, p, n := Mix(t), p + 12, n - 12;
    }
    LastBlock(mem, p, n, s);
    if n == 0 {
      return s.c;
    }
    var t := TailByHalves(mem, p, n, s);
    r := Final(t);
  }

  // ---- any other address ----

  /** Up to four bytes are added one by one, the highest first, as the fall-through cases do. */
  method AddBytes(mem: Mem, q: int, m: int, x: Word) returns (r: Word)
    ensures r == Add(x, Part(mem, q, m))
  {
    AddZero(x);
    Shifts(Load8(mem, q + 3));
    Shifts(Load8(mem, q + 2));
    Shifts(Load8(mem, q + 1));
    hide Add, Shl;
    r := x;
    ghost var sum := 0;
    if m >= 4 {
      AddTwice(x, sum, Shl(Load8(mem, q + 3), 24));
      r, sum := Add(r, Shl(Load8(mem, q + 3), 24)), sum + Shl(Load8(mem, q + 3), 24);
    }
    if m >= 3 {
      AddTwice(x, sum, Shl(Load8(mem, q + 2), 16));
      r, sum := Add(r, Shl(Load8(mem, q + 2), 16)), sum + Shl(Load8(mem, q + 2), 16);
    }
    if m >= 2 {
      AddTwice(x, sum, Shl(Load8(mem, q + 1), 8));
      r, sum := Add(r, Shl(Load8(mem, q + 1), 8)), sum + Shl(Load8(mem, q + 1), 8);
    }
    if m >= 1 {
      AddTwice(x, sum, Load8(mem, q));
      r, sum := Add(r, Load8(mem, q)), sum + Load8(mem, q);
    }
  }

  method HashByBytes(mem: Mem, base: int, length: nat) returns (r: Word)
    ensures r == Hash(Key(mem, base, length))
  {
    hide Add, Le, Mix, Final, Digest;
    var s, p, n: int := Start(length), base, length;
    while n > 12
      invariant n >= 0
      invariant Digest(s, Key(mem, p, n)) == Hash(Key(mem, base, length))
    {
      WholeBlock(mem, p, n, s);
      var a := AddBytes(mem, p, 4, s.a);
      var b := AddBytes(mem, p + 4, 4, s.b);
      var c := AddBytes(mem, p + 8, 4, s.c);
      s, p, n := Mix(Abc(a, b, c)), p + 12, n - 12;
    }
    LastBlock(mem, p, n, s);
    if n == 0 {
      return s.c;
    }
    var c := AddBytes(mem, p + 8, n - 8, s.c);
    var b := AddBytes(mem, p + 4, n - 4, s.b);
    var a := AddBytes(mem, p, n, s.a);
    r := Final(Abc(a, b, c));
  }

  // ---- jenkins_hash ----

  /** Whatever the alignment of the key, the result is the hash of its bytes and of nothing beyond them. */
  method JenkinsHash(mem: Mem, base: int, length: nat) returns (r: Word)
    ensures r == Hash(Key(mem, base, length))
  {
    if base % 4 == 0 {
      r := HashByWords(mem, base, length);
    } else if base % 2 == 0 {
      r := HashByHalves(mem, base, length);
    } else {
      r := HashByBytes(mem, base, length);
    }
  }

  ghost predicate SameByte(mem: Mem, base: int, mem': Mem, base': int, i: int) { mem(base + i) == mem'(base' + i) }

  /** Two places in memory with the same bytes have the same hash, however they are aligned and whatever follows. */
  lemma SameBytesSameHash(mem: Mem, base: int, mem': Mem, base': int, length: nat)
    requires forall i :: 0 <= i < length ==> SameByte(mem, base, mem', base', i)
    ensures Hash(Key(mem, base, length)) == Hash(Key(mem', base', length))
  {
    var k, k' := Key(mem, base, length), Key(mem', base', length);
    forall i | 0 <= i < length ensures k[i] == k'[i] { assert SameByte(mem, base, mem', base', i); }
    assert k == k';
  }
}
