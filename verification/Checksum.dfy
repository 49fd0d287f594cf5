/** The Internet checksum of wireguard-go/tun/checksum.go, as section 2 of RFC 1071 lets it be computed. */
module Checksum {
  import opened Words

  type byte = x: int | 0 <= x < 256
  type uint16 = x: int | 0 <= x < 0x1_0000
  type uint64 = x: int | 0 <= x < TWO64

  function ByteAt(b: seq<byte>, i: nat): byte {
    if i < |b| then b[i] else 0
  }

  /** The big-endian value of the first two bytes, a missing one being zero. */
  function Word(b: seq<byte>): (w: uint16) {
    256 * ByteAt(b, 0) + ByteAt(b, 1)
  }

  /** The sum of the big-endian 16-bit words, an odd tail padded with a zero. */
  function WordSum(b: seq<byte>): (sum: nat) {
    if |b| <= 2 then Word(b) else Word(b) + WordSum(b[2..])
  }

  /** Addition of two 16-bit numbers with end-around carry. */
  function EndAround(x: uint16, y: uint16): uint16 {
    if x + y < 0x1_0000 then x + y else x + y - 0xffff
  }

  /** The one's-complement sum of RFC 1071, word by word, on top of `start`. */
  function OnesSum(b: seq<byte>, start: uint16): uint16 {
    if |b| <= 2 then EndAround(start, Word(b)) else OnesSum(b[2..], EndAround(start, Word(b)))
  }

  /** The 16-bit number a natural number folds to. */
  function Ones(n: nat): uint16 {
    if n == 0 then 0 else 1 + (n - 1) % 0xffff
  }

  predicate Cong(x: int, y: int) {
    (x - y) % 0xffff == 0
  }

  lemma CongBy(x: int, y: int, d: int)
    requires x - y == 0xffff * d
    ensures Cong(x, y)
  {
  }

  ghost function Quotient(x: int, y: int): (d: int)
    requires Cong(x, y)
    ensures x - y == 0xffff * d
  {
    (x - y) / 0xffff
  }

  /** Congruent, and zero only together: both fold to the same 16-bit number. */
  predicate SameSum(x: nat, y: nat) {
    // Comparing with `true` makes this one fact to the verifier; else it proves conjunct by conjunct at every use.
    (Cong(x, y) && (x == 0 <==> y == 0)) == true
  }

  lemma OnesOf(n: nat, m: uint16)
    requires SameSum(m, n)
    ensures m == Ones(n)
  {
    if n != 0 {
      assert (n - 1) % 0xffff == (m - 1) % 0xffff == m - 1;
    }
  }

  lemma OnesAdd(n: nat, w: uint16)
    ensures Ones(n + w) == EndAround(Ones(n), w)
  {
    OnesOf(n + w, EndAround(Ones(n), w));
  }

  /** Deferring the carries does not change the sum. */
  lemma {:induction false} OnesSumIs(b: seq<byte>, n: nat)
    ensures OnesSum(b, Ones(n)) == Ones(n + WordSum(b))
  {
    OnesAdd(n, Word(b));
    if |b| > 2 {
      OnesSumIs(b[2..], n + Word(b));
    }
  }

  lemma {:induction false} WordSumConcat(a: seq<byte>, b: seq<byte>)
    requires |a| % 2 == 0
    ensures WordSum(a + b) == WordSum(a) + WordSum(b)
  {
    if |a| == 0 {
      assert a + b == b;
    } else {
      assert (a + b)[2..] == a[2..] + b;
      assert Word(a + b) == Word(a);
      if |a| == 2 {
        assert a[2..] + b == b;
      } else {
        WordSumConcat(a[2..], b);
      }
    }
  }

  /** The unsigned number whose bytes are `b`, most significant first. */
  function BigEndian(b: seq<byte>): nat {
    if b == [] then 0 else 256 * BigEndian(b[..|b| - 1]) + b[|b| - 1]
  }

  /** The unsigned number whose bytes are `b`, least significant first. */
  function LittleEndian(b: seq<byte>): nat {
    if b == [] then 0 else 256 * LittleEndian(b[1..]) + b[0]
  }

  /** The machine's own byte order. */
  function Native(little: bool, b: seq<byte>): nat {
    if little then LittleEndian(b) else BigEndian(b)
  }

  /** The `n` bytes of a number, least significant first. */
  function LittleBytes(x: nat, n: nat): (b: seq<byte>)
    ensures |b| == n
  {
    if n == 0 then [] else [x % 256] + LittleBytes(x / 256, n - 1)
  }

  function Reverse(b: seq<byte>): (r: seq<byte>)
    ensures |r| == |b|
  {
    if b == [] then [] else Reverse(b[1..]) + [b[0]]
  }

  /** `PutUint64` in the machine's byte order. */
  function PutNative(little: bool, x: uint64): (b: seq<byte>)
    ensures |b| == 8
  {
    if little then LittleBytes(x, 8) else Reverse(LittleBytes(x, 8))
  }

  /** What a byte order multiplies a 16-bit word by, up to end-around carry. */
  function Scale(little: bool): nat {
    if little then 256 else 1
  }

  lemma CongSum(x: int, y: int, u: int, v: int)
    requires Cong(x, y) && Cong(u, v)
    ensures Cong(x + u, y + v)
  {
    hide Cong;
    CongBy(x + u, y + v, Quotient(x, y) + Quotient(u, v));
  }

  lemma CongScale(k: nat, x: int, y: int)
    requires Cong(x, y)
    ensures Cong(k * x, k * y)
  {
    hide Cong;
    var d := Quotient(x, y);
    assert k * x - k * y == k * (x - y) == k * (0xffff * d) == 0xffff * (k * d);
    CongBy(k * x, k * y, k * d);
  }

  lemma LittleStep(x0: byte, x1: byte, v: nat, w: nat)
    requires Cong(v, 256 * w)
    ensures Cong(256 * (256 * v + x1) + x0, 256 * (256 * x0 + x1 + w))
  {
    hide Cong;
    CongBy(256 * (256 * v + x1) + x0, 256 * (256 * x0 + x1 + w), Quotient(v, 256 * w) + v - x0);
  }

  lemma BigStep(x0: byte, x1: byte, v: nat, w: nat)
    requires Cong(v, w)
    ensures Cong(256 * (256 * v + x0) + x1, w + (256 * x0 + x1))
  {
    hide Cong;
    CongBy(256 * (256 * v + x0) + x1, w + (256 * x0 + x1), Quotient(v, w) + v);
  }

  lemma {:induction false} LittleIsWordSum(b: seq<byte>)
    requires |b| % 2 == 0
    ensures Cong(LittleEndian(b), 256 * WordSum(b))
    ensures LittleEndian(b) == 0 <==> WordSum(b) == 0
  {
    if b != [] {
      LittleIsWordSum(b[2..]);
      LittleStep(b[0], b[1], LittleEndian(b[2..]), WordSum(b[2..]));
      assert b[1..][1..] == b[2..];
      assert LittleEndian(b) == 256 * (256 * LittleEndian(b[2..]) + b[1]) + b[0];
      assert |b| == 2 ==> b[2..] == [];
    }
  }

  lemma {:induction false} BigIsWordSum(b: seq<byte>)
    requires |b| % 2 == 0
    ensures Cong(BigEndian(b), WordSum(b))
    ensures BigEndian(b) == 0 <==> WordSum(b) == 0
  {
    if b != [] {
      var n := |b| - 2;
      BigIsWordSum(b[..n]);
      BigStep(b[n], b[n + 1], BigEndian(b[..n]), WordSum(b[..n]));
      assert b[..n + 1][..n] == b[..n];
      assert BigEndian(b) == 256 * (256 * BigEndian(b[..n]) + b[n]) + b[n + 1];
      assert b == b[..n] + b[n..];
      WordSumConcat(b[..n], b[n..]);
      assert WordSum(b[n..]) == Word(b[n..]);
    }
  }

  /** Byte-order independence: a number read in either order is the word sum, scaled. */
  lemma NativeIsWordSum(little: bool, b: seq<byte>)
    requires |b| % 2 == 0
    ensures Cong(Native(little, b), Scale(little) * WordSum(b))
    ensures Native(little, b) == 0 <==> WordSum(b) == 0
  {
    LittleIsWordSum(b);
    BigIsWordSum(b);
  }

  function Pow256(n: nat): nat {
    if n == 0 then 1 else 256 * Pow256(n - 1)
  }

  lemma {:induction false} NativeBound(little: bool, b: seq<byte>)
    ensures Native(little, b) < Pow256(|b|)
  {
    if b != [] {
      NativeBound(little, if little then b[1..] else b[..|b| - 1]);
    }
  }

  lemma {:induction false} LittleInverse(x: nat, n: nat)
    requires x < Pow256(n)
    ensures LittleEndian(LittleBytes(x, n)) == x
  {
    if n > 0 {
      LittleInverse(x / 256, n - 1);
    }
  }

  lemma {:induction false} ReverseReads(b: seq<byte>)
    ensures BigEndian(Reverse(b)) == LittleEndian(b)
  {
    if b != [] {
      ReverseReads(b[1..]);
      var r := Reverse(b);
      assert r[..|r| - 1] == Reverse(b[1..]);
    }
  }

  lemma PutGet(little: bool, x: uint64)
    ensures Native(little, PutNative(little, x)) == x
  {
    assert TWO64 == Pow256(8);
    LittleInverse(x, 8);
    ReverseReads(LittleBytes(x, 8));
  }

  /** Written in the machine's byte order and read back as big-endian. */
  function Swap(little: bool, x: uint64): nat {
    BigEndian(PutNative(little, x))
  }

  lemma ScaleBack(little: bool, x: nat, r: nat, w: nat)
    requires Cong(x, Scale(little) * w) && Cong(r, w)
    ensures Cong(r, Scale(little) * x)
  {
    hide Cong;
    assert Scale(little) * w == (if little then 256 * w else w) && Scale(little) * x == if little then 256 * x else x;
    if little {
      var c, d := Quotient(r, w), Quotient(x, 256 * w);
      CongBy(r, 256 * x, c - 256 * d - w);
    } else {
      CongBy(r, x, Quotient(r, w) - Quotient(x, w));
    }
  }

  lemma BytesOf(little: bool, x: uint64, b: seq<byte>)
    requires b == PutNative(little, x)
    ensures BigEndian(b) < TWO64 && Native(little, b) == x
  {
    PutGet(little, x);
    NativeBound(false, b);
    assert Pow256(8) == TWO64;
  }

  lemma SwapScales(little: bool, x: uint64)
    ensures Swap(little, x) < TWO64
    ensures Cong(Swap(little, x), Scale(little) * x)
    ensures Swap(little, x) == 0 <==> x == 0
  {
    var b := PutNative(little, x);
    BytesOf(little, x, b);
    BytesSwap(little, b);
  }

  lemma BytesSwap(little: bool, b: seq<byte>)
    requires |b| == 8
    ensures Cong(BigEndian(b), Scale(little) * Native(little, b))
    ensures BigEndian(b) == 0 <==> Native(little, b) == 0
  {
    NativeIsWordSum(little, b);
    BigIsWordSum(b);
    ScaleBack(little, Native(little, b), BigEndian(b), WordSum(b));
  }

  /** `bits.Add64`: the low 64 bits of a sum, and what is carried out of them. */
  function Add64(x: uint64, y: uint64, carry: uint64): (uint64, uint64)
    requires carry <= 1
  {
    if x + y + carry < TWO64 then (x + y + carry, 0) else (x + y + carry - TWO64, 1)
  }

  /** The accumulator stands for `t`, up to the byte order and end-around carry. */
  predicate Stands(little: bool, ac: nat, t: nat) {
    && ac < TWO64
    && Cong(ac, Scale(little) * t)
    && (ac == 0 <==> t == 0)
  }

  /** A carry never meets a full accumulator, so that adding it back cannot overflow. */
  lemma Add64Stands(little: bool, ac: uint64, carry: uint64, w: uint64, t: nat, u: nat)
    requires carry <= 1 && Stands(little, ac + carry, t) && Stands(little, w, u)
    ensures var (sum, out) := Add64(ac, w, carry); Stands(little, sum + out, t + u)
  {
    hide Cong;
    var (sum, out) := Add64(ac, w, carry);
    assert TWO64 - 1 == 0xffff * 281479271743489;
    CongBy(sum + out, ac + carry + w, -281479271743489 * out);
    CongSum(ac + carry, Scale(little) * t, w, Scale(little) * u);
    assert Scale(little) * t + Scale(little) * u == Scale(little) * (t + u);
    CongTrans(sum + out, ac + carry + w, Scale(little) * (t + u));
  }

  lemma NativeStands(little: bool, b: seq<byte>)
    requires |b| % 2 == 0 && |b| <= 8
    ensures Native(little, b) < Pow256(|b|) <= TWO64 && Stands(little, Native(little, b), WordSum(b))
  {
    NativeBound(little, b);
    NativeIsWordSum(little, b);
    assert Pow256(8) == TWO64 && Pow256(6) <= Pow256(8) && Pow256(4) <= Pow256(8) && Pow256(2) <= Pow256(8);
  }

  lemma WordSumMore(b: seq<byte>, i: nat, j: nat)
    requires i <= j <= |b| && i % 2 == 0
    ensures WordSum(b[..j]) == WordSum(b[..i]) + WordSum(b[i..j])
  {
    assert b[..j] == b[..i] + b[i..j];
    WordSumConcat(b[..i], b[i..j]);
  }

  /** The first `done` bytes of the data are in the accumulator. */
  ghost predicate Summed(little: bool, ac: nat, data: seq<byte>, done: nat, initial: nat) {
    (done <= |data| && done % 2 == 0 && Stands(little, ac, initial + WordSum(data[..done]))) == true
  }

  /** The first `done` bytes of the data are in the accumulator, and `b` is the rest. */
  ghost predicate Progress(little: bool, ac: nat, data: seq<byte>, b: seq<byte>, done: nat, initial: nat) {
    (Summed(little, ac, data, done, initial) && b == data[done..]) == true
  }

  /** One `Add64` of the next word of the data. */
  method AddWord(little: bool, ac0: uint64, word: seq<byte>, carry0: uint64, ghost data: seq<byte>, ghost done: nat,
                 ghost initial: nat)
    returns (ac: uint64, carry: uint64)
    requires |word| in {2, 4, 8} && carry0 <= 1 && done + |word| <= |data| && word == data[done..done + |word|]
    requires Summed(little, ac0 + carry0, data, done, initial)
    ensures carry <= 1 && Summed(little, ac + carry, data, done + |word|, initial)
  {
    NativeFits(little, word);
    var w: uint64 := Native(little, word);
    WordSummed(little, ac0, w, word, carry0, data, done, initial);
    var r := Add64(ac0, w, carry0);
    ac, carry := r.0, r.1;
  }

  lemma NativeFits(little: bool, b: seq<byte>)
    requires |b| in {2, 4, 8}
    ensures Native(little, b) < TWO64
  {
    NativeStands(little, b);
  }

  lemma WordSummed(little: bool, ac: uint64, w: uint64, word: seq<byte>, carry: uint64, data: seq<byte>, done: nat,
                   initial: nat)
    requires |word| in {2, 4, 8} && carry <= 1 && done + |word| <= |data| && word == data[done..done + |word|]
    requires Summed(little, ac + carry, data, done, initial) && w == Native(little, word)
    ensures var (sum, out) := Add64(ac, w, carry); Summed(little, sum + out, data, done + |word|, initial)
  {
    hide Stands, Add64, Native, WordSum;
    var t, u := initial + WordSum(data[..done]), WordSum(word);
    NativeStands(little, word);
    Add64Stands(little, ac, carry, w, t, u);
    WordSumMore(data, done, done + |word|);
    assert initial + WordSum(data[..done + |word|]) == t + u;
  }

  /**
   * A run of `Add64` over `n` words of eight bytes, each taking the carry of the one before; and the advance of `b`
   * past it.
   */
  method AddRun(little: bool, ac0: uint64, ghost data: seq<byte>, b: seq<byte>, n: nat, ghost done: nat,
                ghost initial: nat)
    returns (ac: uint64, rest: seq<byte>, ghost more: nat)
    requires 8 * n <= |b| && Progress(little, ac0, data, b, done, initial)
    ensures |rest| == |b| - 8 * n && Progress(little, ac, data, rest, more, initial)
  {
    var carry := 0;
    ac, rest, more := ac0, b, done;
    for i := 0 to n
      invariant carry <= 1 && |rest| == |b| - 8 * i && Progress(little, ac + carry, data, rest, more, initial)
    {
      ac, carry := AddWord(little, ac, rest[..8], carry, data, more, initial);
      rest, more := rest[8..], more + 8;
    }
    CarryFits(little, ac + carry, data, rest, more, initial);
    ac := ac + carry;
  }

  lemma CarryFits(little: bool, ac: nat, data: seq<byte>, b: seq<byte>, done: nat, initial: nat)
    requires Progress(little, ac, data, b, done, initial)
    ensures ac < TWO64
  {
  }

  /** Lines 67-69 and 72-74: a shorter word. */
  method AddShort(little: bool, ac0: uint64, ghost data: seq<byte>, b: seq<byte>, n: nat, ghost done: nat,
                  ghost initial: nat)
    returns (ac: uint64, rest: seq<byte>, ghost more: nat)
    requires n in {2, 4} && n <= |b| && Progress(little, ac0, data, b, done, initial)
    ensures |rest| == |b| - n && Progress(little, ac, data, rest, more, initial)
  {
    var carry;
    ac, carry := AddWord(little, ac0, b[..n], 0, data, done, initial);
    rest, more := b[n..], done + n;
    CarryFits(little, ac + carry, data, rest, more, initial);
    ac := ac + carry;
  }

  /** Lines 76-80: an odd byte counts as the high half of a word. */
  method AddOdd(little: bool, ac0: uint64, ghost data: seq<byte>, b: seq<byte>, ghost done: nat, ghost initial: nat)
    returns (ac: uint64)
    requires |b| <= 1 && Progress(little, ac0, data, b, done, initial)
    ensures Stands(little, ac, initial + WordSum(data))
  {
    ac := ac0;
    if |b| == 1 {
      PadOdd(data, done);
      var carry;
      ac, carry := AddWord(little, ac, [b[0], 0], 0, data + [0], done, initial);
      ac := ac + carry;
    } else {
      assert data[..done] == data;
    }
  }

  lemma PadOdd(data: seq<byte>, done: nat)
    requires done + 1 == |data| && done % 2 == 0
    ensures data[done..] + [0] == (data + [0])[done..] && (data + [0])[..done] == data[..done]
    ensures WordSum((data + [0])[..done + 2]) == WordSum(data)
  {
    var z := data[done..] + [0];
    assert data + [0] == data[..done] + z && data == data[..done] + data[done..];
    assert (data + [0])[..done + 2] == data + [0];
    WordSumConcat(data[..done], z);
    WordSumConcat(data[..done], data[done..]);
  }

  /** Lines 66-80: the last seven bytes at most. */
  method AddTail(little: bool, ac0: uint64, ghost data: seq<byte>, b0: seq<byte>, ghost done0: nat, ghost initial: nat)
    returns (ac: uint64)
    requires |b0| < 8 && Progress(little, ac0, data, b0, done0, initial)
    ensures Stands(little, ac, initial + WordSum(data))
  {
    var b := b0;
    ghost var done := done0;
    ac := ac0;
    if |b| >= 4 {
      ac, b, done := AddShort(little, ac, data, b, 4, done, initial);
    }
    if |b| >= 2 {
      ac, b, done := AddShort(little, ac, data, b, 2, done, initial);
    }
    ac := AddOdd(little, ac, data, b, done, initial);
  }

  lemma ScaleTwice(little: bool, ac: nat, sum: nat, t: nat)
    requires Cong(ac, Scale(little) * t) && Cong(sum, Scale(little) * ac)
    ensures Cong(sum, t)
  {
    hide Cong;
    assert Scale(little) * t == (if little then 256 * t else t)
      && Scale(little) * ac == if little then 256 * ac else ac;
    if little {
      CongScale(256, ac, 256 * t);
      CongBy(256 * (256 * t), t, t);
      CongTrans(256 * ac, 256 * (256 * t), t);
      CongTrans(sum, 256 * ac, t);
    } else {
      CongTrans(sum, ac, t);
    }
  }

  lemma CongTrans(x: int, y: int, z: int)
    requires Cong(x, y) && Cong(y, z)
    ensures Cong(x, z)
  {
    hide Cong;
    CongBy(x, z, Quotient(x, y) + Quotient(y, z));
  }

  lemma SwapBack(little: bool, ac: uint64, t: nat)
    requires Stands(little, ac, t)
    ensures Swap(little, ac) < TWO64 && SameSum(Swap(little, ac), t)
  {
    SwapScales(little, ac);
    ScaleTwice(little, ac, Swap(little, ac), t);
  }

  /** Lines 10-12. */
  method Load(little: bool, initial: uint64, ghost data: seq<byte>) returns (ac: uint64)
    ensures Progress(little, ac, data, data, 0, initial)
  {
    SwapScales(little, initial);
    assert WordSum(data[..0]) == 0;
    ac := Swap(little, initial);
  }

  /** Lines 82-83. */
  method Unload(little: bool, ac: uint64, ghost t: nat) returns (sum: uint64)
    requires Stands(little, ac, t)
    ensures SameSum(sum, t)
  {
    SwapBack(little, ac, t);
    sum := Swap(little, ac);
  }

  /** Lines 9-84: a 64-bit number congruent to the sum of the words, and zero only with it. */
  method ChecksumNoFold(little: bool, data: seq<byte>, initial: uint64) returns (sum: uint64)
    ensures SameSum(sum, initial + WordSum(data))
  {
    var ac := Load(little, initial, data);
    var b := data;
    ghost var done := 0;
    while |b| >= 128
      invariant Progress(little, ac, data, b, done, initial)
    {
      ac, b, done := AddRun(little, ac, data, b, 16, done, initial);
    }
    if |b| >= 64 {
      ac, b, done := AddRun(little, ac, data, b, 8, done, initial);
    }
    if |b| >= 32 {
      ac, b, done := AddRun(little, ac, data, b, 4, done, initial);
    }
    if |b| >= 16 {
      ac, b, done := AddRun(little, ac, data, b, 2, done, initial);
    }
    if |b| >= 8 {
      ac, b, done := AddRun(little, ac, data, b, 1, done, initial);
    }
    ac := AddTail(little, ac, data, b, done, initial);
    sum := Unload(little, ac, initial + WordSum(data));
  }

  /** One of lines 88-91: the high part of a sum is added to its low 16 bits. */
  function Fold(ac: nat): nat {
    ac / 0x1_0000 + ac % 0x1_0000
  }

  lemma FoldKeeps(ac: nat, t: nat)
    requires SameSum(ac, t)
    ensures SameSum(Fold(ac), t)
  {
    hide Cong;
    assert ac == 0x1_0000 * (ac / 0x1_0000) + ac % 0x1_0000;
    CongBy(Fold(ac), t, Quotient(ac, t) - ac / 0x1_0000);
  }

  /** Four folds bring any 64-bit sum within 16 bits. */
  lemma FourFolds(ac: uint64)
    ensures Fold(ac) < TWO64 && Fold(Fold(ac)) < TWO64 && Fold(Fold(Fold(ac))) < TWO64
    ensures Fold(Fold(Fold(Fold(ac)))) < 0x1_0000
  {
    var x := Fold(ac);
    assert x <= 0x1_0000_0000_0000 + 0xfffe;
    var y := Fold(x);
    assert y <= 0x1_0000_0000 + 0xfffe;
    assert Fold(y) <= 0x1_0000 + 0xfffe;
  }

  lemma FoldedIs(ac: uint64, t: nat)
    requires SameSum(ac, t)
    ensures Fold(Fold(Fold(Fold(ac)))) == Ones(t)
  {
    FourFolds(ac);
    FoldKeeps(ac, t);
    FoldKeeps(Fold(ac), t);
    FoldKeeps(Fold(Fold(ac)), t);
    FoldKeeps(Fold(Fold(Fold(ac))), t);
    OnesOf(t, Fold(Fold(Fold(Fold(ac)))));
  }

  /** Lines 88-92. */
  method FoldSum(sum: uint64, ghost t: nat) returns (folded: uint16)
    requires SameSum(sum, t)
    ensures folded == Ones(t)
  {
    FourFolds(sum);
    FoldedIs(sum, t);
    var ac: nat := sum;
    ac := Fold(ac);
    ac := Fold(ac);
    ac := Fold(ac);
    ac := Fold(ac);
    folded := ac;
  }

  /** Lines 86-93: the one's-complement sum of the data on top of `initial`. */
  method InternetChecksum(little: bool, b: seq<byte>, initial: uint64) returns (sum: uint16)
    ensures sum == OnesSum(b, Ones(initial)) == Ones(initial + WordSum(b))
    ensures sum == 0 <==> initial == 0 && WordSum(b) == 0
  {
    var ac := ChecksumNoFold(little, b, initial);
    OnesSumIs(b, initial);
    sum := FoldSum(ac, initial + WordSum(b));
  }

  function BigBytes(x: uint16): seq<byte> {
    [x / 256, x % 256]
  }

  lemma SameSumAdd(x: nat, y: nat, sum: nat, w: nat)
    requires SameSum(x, y) && SameSum(sum, x + w)
    ensures SameSum(sum, y + w)
  {
  }

  /** What the pseudo header adds to a checksum. */
  function PseudoSum(protocol: byte, src: seq<byte>, dst: seq<byte>, totalLen: uint16): nat {
    WordSum(src) + WordSum(dst) + protocol + totalLen
  }

  /** It is the sum of the pseudo header's bytes: the addresses, a zero, the protocol, and the length. */
  lemma PseudoBytes(protocol: byte, src: seq<byte>, dst: seq<byte>, totalLen: uint16)
    requires |src| % 2 == 0 && |dst| % 2 == 0
    ensures WordSum(src + dst + [0, protocol] + [totalLen / 256, totalLen % 256])
      == PseudoSum(protocol, src, dst, totalLen)
  {
    hide WordSum;
    TwoBytes(0, protocol);
    TwoBytes(totalLen / 256, totalLen % 256);
    WordSumConcat(src, dst);
    WordSumConcat(src + dst, [0, protocol]);
    WordSumConcat(src + dst + [0, protocol], [totalLen / 256, totalLen % 256]);
  }

  lemma TwoBytes(x: byte, y: byte)
    ensures WordSum([x, y]) == 256 * x + y
  {
  }

  /** The example of section 3 of RFC 1071. */
  lemma Rfc1071Example()
    ensures OnesSum([0x00, 0x01, 0xf2, 0x03, 0xf4, 0xf5, 0xf6, 0xf7], 0) == 0xddf2
  {
    assert OnesSum([0xf6, 0xf7], 0xe6fa) == 0xddf2;
    assert OnesSum([0xf4, 0xf5, 0xf6, 0xf7], 0xf204) == 0xddf2;
    assert OnesSum([0xf2, 0x03, 0xf4, 0xf5, 0xf6, 0xf7], 0x0001) == 0xddf2;
  }

  /** Lines 95-102. */
  method PseudoHeaderChecksumNoFold(little: bool, protocol: byte, src: seq<byte>, dst: seq<byte>, totalLen: uint16)
    returns (sum: uint64)
    ensures SameSum(sum, PseudoSum(protocol, src, dst, totalLen))
    ensures |src| % 2 == 0 && |dst| % 2 == 0 ==>
      Ones(sum) == OnesSum(src + dst + [0, protocol] + [totalLen / 256, totalLen % 256], 0)
  {
    hide WordSum, OnesSum, SameSum, Ones;
    TwoBytes(0, protocol);
    TwoBytes(totalLen / 256, totalLen % 256);
    var s0 := ChecksumNoFold(little, src, 0);
    var s1 := ChecksumNoFold(little, dst, s0);
    SameSumAdd(s0, WordSum(src), s1, WordSum(dst));
    var s2 := ChecksumNoFold(little, [0, protocol], s1);
    SameSumAdd(s1, WordSum(src) + WordSum(dst), s2, protocol);
    sum := ChecksumNoFold(little, BigBytes(totalLen), s2);
    SameSumAdd(s2, WordSum(src) + WordSum(dst) + protocol, sum, totalLen);
    PseudoOnes(protocol, src, dst, totalLen, sum);
  }

  lemma PseudoOnes(protocol: byte, src: seq<byte>, dst: seq<byte>, totalLen: uint16, sum: nat)
    requires SameSum(sum, PseudoSum(protocol, src, dst, totalLen))
    ensures |src| % 2 == 0 && |dst| % 2 == 0 ==>
      Ones(sum) == OnesSum(src + dst + [0, protocol] + [totalLen / 256, totalLen % 256], 0)
  {
    hide WordSum, OnesSum, SameSum, Ones, PseudoSum;
    if |src| % 2 == 0 && |dst| % 2 == 0 {
      PseudoBytes(protocol, src, dst, totalLen);
      SumFolds(src + dst + [0, protocol] + [totalLen / 256, totalLen % 256], sum);
    }
  }

  lemma SameOnes(x: nat, y: nat, w: nat)
    requires SameSum(x, y)
    ensures Ones(x + w) == Ones(y + w)
  {
    if x + w > 0 {
      assert (x + w - 1) % 0xffff == (y + w - 1) % 0xffff;
    }
  }

  lemma SumFolds(b: seq<byte>, sum: nat)
    requires SameSum(sum, WordSum(b))
    ensures Ones(sum) == OnesSum(b, 0)
  {
    SameOnes(sum, WordSum(b), 0);
    assert Ones(0) == 0;
    hide WordSum, OnesSum, SameSum, Ones;
    OnesSumIs(b, 0);
  }

  /** The complement of a sum, written where the data was zero, completes the sum to all ones. */
  lemma ComplementCompletes(n: nat)
    ensures Ones(n + (0xffff - Ones(n))) == 0xffff
  {
    OnesAdd(n, 0xffff - Ones(n));
  }

  /** The two bytes at `at` replaced by a 16-bit number. */
  function Put16(b: seq<byte>, at: nat, x: uint16): (r: seq<byte>)
    requires at + 2 <= |b|
    ensures |r| == |b|
  {
    b[..at] + BigBytes(x) + b[at + 2..]
  }

  lemma WordSumPut(b: seq<byte>, at: nat, x: uint16)
    requires at + 2 <= |b| && at % 2 == 0
    ensures WordSum(Put16(b, at, x)) == WordSum(Put16(b, at, 0)) + x
  {
    assert Put16(b, at, x) == b[..at] + (BigBytes(x) + b[at + 2..]);
    assert Put16(b, at, 0) == b[..at] + (BigBytes(0) + b[at + 2..]);
    WordSumConcat(b[..at], BigBytes(x) + b[at + 2..]);
    WordSumConcat(b[..at], BigBytes(0) + b[at + 2..]);
    WordSumConcat(BigBytes(x), b[at + 2..]);
    WordSumConcat(BigBytes(0), b[at + 2..]);
  }

  /** A checksum computed with its own field cleared, then stored there, makes the data check. */
  lemma StoredChecksum(b: seq<byte>, at: nat, start: nat)
    requires at + 2 <= |b| && at % 2 == 0
    ensures Ones(start + WordSum(Put16(b, at, 0xffff - Ones(start + WordSum(Put16(b, at, 0)))))) == 0xffff
  {
    var n := start + WordSum(Put16(b, at, 0));
    WordSumPut(b, at, 0xffff - Ones(n));
    ComplementCompletes(n);
  }
}
