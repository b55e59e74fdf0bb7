/** Base 128 varints: the inlined reading loop, `EncodeVarint` and `Sov`. */
module Varint {
  import opened Machine

  // ----- The byte format -----

  /**
   * What the reading loop finds at the start of a string: the sum of the 7-bit groups it consumed,
   * how many bytes those were, and why it stopped early, if it did.
   */
  datatype Reading = Reading(value: nat, n: nat, err: Option<Error>)

  /** Reads a varint of which `k` groups were consumed already. An 11th group is an overflow. */
  function Get(s: bytes, k: nat): (r: Reading)
    ensures r.n <= |s|
    ensures r.err.None? ==> 0 < r.n
    decreases |s|
  {
    if k >= 10 then Reading(0, 0, Some(IntOverflow))
    else if s == [] then Reading(0, 0, Some(UnexpectedEOF))
    else if s[0] < 128 then Reading(s[0], 1, None)
    else
      var r := Get(s[1..], k + 1);
      Reading(s[0] - 128 + 128 * r.value, 1 + r.n, r.err)
  }

  /** The minimal varint of `v`. */
  function Put(v: nat): (s: bytes)
    ensures s != []
  {
    if v < 128 then [v] else [v % 128 + 128] + Put(v / 128)
  }

  function Pow2(e: nat): (p: nat)
    ensures p > 0
  {
    if e == 0 then 1 else 2 * Pow2(e - 1)
  }

  lemma Pow2Seven(e: nat)
    ensures Pow2(e + 7) == 128 * Pow2(e)
  {
    assert Pow2(e + 7) == 2 * Pow2(e + 6);
    assert Pow2(e + 5) == 2 * Pow2(e + 4);
    assert Pow2(e + 3) == 2 * Pow2(e + 2);
    assert Pow2(e + 1) == 2 * Pow2(e);
  }

  /** The powers at the group boundaries that matter. */
  lemma Pow2Values(e: nat)
    requires e == 0
    ensures Pow2(e + 28) == 0x1000_0000 && Pow2(e + 35) == 0x8_0000_0000
    ensures Pow2(e + 63) == TWO63 && Pow2(e + 70) == 64 * TWO64
  {
    assert Pow2(e) == 1;
    hide Pow2;
    Pow2Seven(e); Pow2Seven(e + 7); Pow2Seven(e + 14); Pow2Seven(e + 21); Pow2Seven(e + 28);
    Pow2Seven(e + 35); Pow2Seven(e + 42); Pow2Seven(e + 49); Pow2Seven(e + 56); Pow2Seven(e + 63);
  }

  /** A reading only depends on the bytes it consumed. */
  lemma {:induction false} GetLocal(s: bytes, t: bytes, k: nat)
    requires Get(s, k).err.None?
    requires Get(s, k).n <= |t| && t[..Get(s, k).n] == s[..Get(s, k).n]
    ensures Get(t, k) == Get(s, k)
    decreases |s|
  {
    var n := Get(s, k).n;
    assert t[0] == t[..n][0] == s[0];
    if s[0] >= 128 {
      assert t[1..][..n - 1] == t[..n][1..] == s[1..][..n - 1];
      GetLocal(s[1..], t[1..], k + 1);
    }
  }

  /** A complete varint has at most 10 bytes and its value fits the groups it is made of. */
  lemma {:induction false} GetBound(s: bytes, k: nat)
    ensures Get(s, k).err.None? ==> k + Get(s, k).n <= 10
    ensures Get(s, k).value < Pow2(7 * Get(s, k).n)
    decreases |s|
  {
    if k < 10 && s != [] {
      if s[0] < 128 {
        Pow2Seven(0);
      } else {
        GetBound(s[1..], k + 1);
        Pow2Seven(7 * Get(s[1..], k + 1).n);
      }
    }
  }

  /** The loop fails exactly on a truncated varint or on an 11th group. */
  lemma {:induction false} GetFails(s: bytes, k: nat)
    requires k <= 10
    ensures Get(s, k).err == Some(UnexpectedEOF) <==>
            |s| < 10 - k && forall j :: 0 <= j < |s| ==> s[j] >= 128
    ensures Get(s, k).err == Some(IntOverflow) <==>
            |s| >= 10 - k && forall j :: 0 <= j < 10 - k ==> s[j] >= 128
    ensures Get(s, k).err in {None, Some(UnexpectedEOF), Some(IntOverflow)}
    decreases |s|
  {
    if k < 10 && s != [] && s[0] >= 128 {
      GetFails(s[1..], k + 1);
      assert forall j :: 0 < j < |s| ==> s[j] == s[1..][j - 1];
    }
  }

  lemma {:induction false} PutLength(v: nat, k: nat)
    requires v < Pow2(7 * k) && 0 < k
    ensures |Put(v)| <= k
  {
    if v >= 128 {
      Pow2Seven(7 * (k - 1));
      if k == 1 {
        assert false;
      }
      PutLength(v / 128, k - 1);
    }
  }

  lemma {:induction false} PutExactly(v: nat, k: nat)
    requires 0 < k && Pow2(7 * k) <= v < Pow2(7 * (k + 1))
    ensures |Put(v)| == k + 1
  {
    Pow2Seven(7 * (k - 1));
    Pow2Seven(7 * k);
    if k > 1 {
      PutExactly(v / 128, k - 1);
    }
  }

  lemma PutLengthUint64(v: uint64)
    ensures |Put(v)| <= 10
  {
    hide Pow2;
    var e: nat :| e == 0;
    Pow2Values(e);
    PutLength(v, e + 10);
  }

  /** Reading undoes writing, whatever follows. */
  lemma {:induction false} GetPut(v: nat, t: bytes, k: nat)
    requires k + |Put(v)| <= 10
    ensures Get(Put(v) + t, k) == Reading(v, |Put(v)|, None)
    decreases v
  {
    if v >= 128 {
      GetPut(v / 128, t, k + 1);
      assert (Put(v) + t)[1..] == Put(v / 128) + t;
    }
  }

  lemma GetPutUint64(v: uint64, t: bytes)
    ensures Get(Put(v) + t, 0) == Reading(v, |Put(v)|, None)
  {
    PutLengthUint64(v);
    GetPut(v, t, 0);
  }

  /** The varint written for a value, or for less, is no longer than any that reads as the value. */
  lemma PutMinimal(s: bytes, v: nat)
    requires Get(s, 0).err.None? && v <= Get(s, 0).value
    ensures |Put(v)| <= Get(s, 0).n
  {
    GetBound(s, 0);
    PutLength(v, Get(s, 0).n);
  }

  lemma {:induction false} PutMonotone(v: nat, w: nat)
    requires v <= w
    ensures |Put(v)| <= |Put(w)|
  {
    if v >= 128 {
      PutMonotone(v / 128, w / 128);
    }
  }

  /** The sum of the first `n` seven-bit groups, each at its place. */
  function Groups(s: bytes, n: nat): nat
    requires n <= |s|
  {
    if n == 0 then 0 else Groups(s, n - 1) + Shifted(s[n - 1] % 128, 7 * (n - 1))
  }

  lemma {:induction false} GroupsHead(s: bytes, n: nat)
    requires n < |s|
    ensures Groups(s, n + 1) == s[0] % 128 + 128 * Groups(s[1..], n)
  {
    if n == 0 {
      assert Groups(s, 1) == Shifted(s[0] % 128, 0);
    } else {
      GroupsHead(s, n - 1);
      ShiftedNext(s[n] % 128, 7 * (n - 1));
    }
  }

  lemma ShiftedNext(g: nat, shift: nat)
    ensures Shifted(g, shift + 7) == 128 * Shifted(g, shift)
  {
    hide Pow2;
    Pow2Seven(shift);
    Expand(Pow2(shift), 128, g, 0);
  }

  /** What a varint is read as, minimal or not: the sum of its groups, the continuation bits left out. */
  lemma {:induction false} GetIsSum(s: bytes, k: nat)
    ensures Get(s, k).value == Groups(s, Get(s, k).n)
    decreases |s|
  {
    hide Shifted;
    if k < 10 && s != [] {
      if s[0] < 128 {
        GroupsHead(s, 0);
      } else {
        GetIsSum(s[1..], k + 1);
        GroupsHead(s, Get(s[1..], k + 1).n);
      }
    }
  }

  // ----- Sov -----

  /** `bits.Len64`. */
  function Len64(x: nat): (n: nat)
    ensures x > 0 ==> n > 0
  {
    if x == 0 then 0 else 1 + Len64(x / 2)
  }

  function Sov(x: nat): nat {
    (Len64(if x % 2 == 0 then x + 1 else x) + 6) / 7
  }

  lemma Len64Half(x: nat, y: nat)
    requires x > 0 && y == x / 2
    ensures Len64(x) == 1 + Len64(y)
  {
  }

  lemma Len64Low(x: nat)
    requires x > 0
    ensures Len64(if x % 2 == 0 then x + 1 else x) == Len64(x)
  {
    hide Len64;
    if x % 2 == 0 {
      Len64Half(x, x / 2);
      Len64Half(x + 1, x / 2);
    }
  }

  lemma Len64Shift(x: nat)
    requires x >= 128
    ensures Len64(x) == 7 + Len64(x / 128)
  {
    hide Len64;
    Len64Half(x, x / 2);
    Len64Half(x / 2, x / 4);
    Len64Half(x / 4, x / 8);
    Len64Half(x / 8, x / 16);
    Len64Half(x / 16, x / 32);
    Len64Half(x / 32, x / 64);
    Len64Half(x / 64, x / 128);
  }

  lemma {:induction false} Len64Below(x: nat, e: nat)
    requires x < Pow2(e)
    ensures Len64(x) <= e
  {
    if x > 0 {
      Len64Below(x / 2, e - 1);
    }
  }

  /** `Sov` is the exact length of the varint. */
  lemma {:induction false} SovExact(v: nat)
    ensures Sov(v) == |Put(v)|
  {
    if v < 128 {
      Pow2Seven(0);
      Len64Below(if v % 2 == 0 then v + 1 else v, 7);
    } else {
      SovExact(v / 128);
      Len64Low(v);
      Len64Low(v / 128);
      Len64Shift(v);
    }
  }

  // ----- The loops -----

  /** Bitwise or. */
  function Or(a: nat, b: nat): nat {
    if a == 0 && b == 0 then 0
    else (if a % 2 == 1 || b % 2 == 1 then 1 else 0) + 2 * Or(a / 2, b / 2)
  }

  /** A shift to the left. */
  function Shifted(group: nat, shift: nat): nat {
    group * Pow2(shift)
  }

  /** A word of 32 or 64 bits holds the numbers below `modulus`. */
  predicate Word(modulus: int) {
    modulus == TWO32 || modulus == TWO64
  }

  /** What it keeps of a number. */
  function Wrapped(v: nat, modulus: int): nat {
    if modulus == TWO64 then Low64(v) else Low32(v)
  }

  lemma {:induction false} OrZero(a: nat)
    ensures Or(a, 0) == a == Or(0, a)
  {
    if a > 0 {
      OrZero(a / 2);
    }
  }

  lemma HalfProduct(q: nat, p: nat)
    ensures q * (2 * p) == 2 * (q * p)
  {
  }

  /** Numbers without common bits: those of `a` are the lowest `e`, the others start at `e`. */
  lemma {:induction false} OrDisjoint(a: nat, q: nat, e: nat)
    requires a < Pow2(e)
    ensures Or(a, q * Pow2(e)) == a + q * Pow2(e)
  {
    if e == 0 {
      OrZero(q);
    } else {
      OrDisjoint(a / 2, q, e - 1);
      HalfProduct(q, Pow2(e - 1));
    }
  }

  lemma {:induction false} Pow2Add(d: nat, e: nat)
    ensures Pow2(d + e) == Pow2(d) * Pow2(e)
  {
    if d > 0 {
      Pow2Add(d - 1, e);
      HalfProduct(Pow2(e), Pow2(d - 1));
    }
  }

  lemma DivMod(a: nat, m: nat)
    requires m > 0
    ensures a == m * (a / m) + a % m && a % m < m
  {
  }

  lemma ModuloUnique(a: nat, m: nat, q: nat, r: nat)
    requires a == m * q + r && r < m
    ensures a % m == r
  {
    DivMod(a, m);
    RemainderUnique(m, q, r, a / m, a % m);
  }

  lemma RemainderUnique(m: nat, q: nat, r: nat, q': nat, r': nat)
    requires m * q + r == m * q' + r' && r < m && r' < m
    ensures r == r'
  {
    if q < q' {
      Multiples(m, q + 1, q');
    } else if q' < q {
      Multiples(m, q' + 1, q);
    }
  }

  lemma Multiples(m: nat, a: nat, b: nat)
    requires a <= b
    ensures m * a <= m * b && (a > 0 ==> m * a == m * (a - 1) + m)
  {
  }

  lemma Expand(p: nat, q: nat, t: nat, r: nat)
    ensures (q * t + r) * p == (p * q) * t + r * p
  {
  }

  /** A number shifted by `p` inside a word of `p * q`, over another that lies below it. */
  lemma ShiftInside(acc: nat, group: nat, p: nat, q: nat)
    requires acc < p && q > 0
    ensures group * p % (p * q) == group % q * p
    ensures (acc + group * p) % (p * q) == acc + group % q * p
  {
    var t, r := group / q, group % q;
    Expand(p, q, t, r);
    Multiples(p, r + 1, q);
    assert p * r == r * p;
    ModuloUnique(group * p, p * q, t, r * p);
    ModuloUnique(acc + group * p, p * q, t, acc + r * p);
  }

  /** A number shifted out of a word of `m`. */
  lemma ShiftOutside(acc: nat, group: nat, m: nat, q: nat)
    requires acc < m
    ensures group * (m * q) % m == 0
    ensures (acc + group * (m * q)) % m == acc
  {
    assert group * (m * q) == m * (group * q);
    ModuloUnique(group * (m * q), m, group * q, 0);
    ModuloUnique(acc + group * (m * q), m, group * q, acc);
  }

  /** The groups already read are below `shift`, so or-ing in the next one is an addition with wrap-around. */
  lemma OrIsAddition(acc: nat, group: nat, shift: nat, width: nat)
    requires acc < Pow2(shift) && acc < Pow2(width)
    ensures Or(acc, group * Pow2(shift) % Pow2(width)) == (acc + group * Pow2(shift)) % Pow2(width)
  {
    hide Or, Pow2;
    if shift <= width {
      Pow2Add(shift, width - shift);
      ShiftInside(acc, group, Pow2(shift), Pow2(width - shift));
      OrDisjoint(acc, group % Pow2(width - shift), shift);
    } else {
      Pow2Add(width, shift - width);
      ShiftOutside(acc, group, Pow2(width), Pow2(shift - width));
      OrZero(acc);
    }
  }

  lemma AddModulo(a: nat, b: nat, m: int)
    requires m == TWO32 || m == TWO64
    ensures (a % m + b) % m == (a + b) % m
  {
  }

  lemma Pow2Words(e: nat)
    requires e == 0
    ensures Pow2(e + 32) == TWO32 && Pow2(e + 64) == TWO64
  {
    Pow2Values(e);
    assert Pow2(e + 35) == 2 * Pow2(e + 34);
    assert Pow2(e + 33) == 2 * Pow2(e + 32);
  }

  /** One turn of the loop: what the accumulator holds, and how far its bits reach. */
  lemma OrGroup(acc: nat, sum: nat, group: nat, shift: nat, modulus: int)
    requires Word(modulus)
    requires acc == Wrapped(sum, modulus) && sum < Pow2(shift) && group < 128
    ensures Or(acc, Wrapped(Shifted(group, shift), modulus)) == Wrapped(sum + Shifted(group, shift), modulus)
  {
    hide Pow2, Or;
    var e: nat :| e == 0;
    Pow2Words(e);
    var width := if modulus == TWO32 then e + 32 else e + 64;
    OrIsAddition(acc, group, shift, width);
    AddModulo(sum, Shifted(group, shift), modulus);
  }

  lemma ShiftedBound(sum: nat, group: nat, shift: nat)
    requires sum < Pow2(shift) && group < 128
    ensures sum + Shifted(group, shift) < Pow2(shift + 7)
  {
    hide Pow2;
    Pow2Seven(shift);
    Multiples(Pow2(shift), group, 127);
  }

  lemma ShiftedGroups(g: nat, r: nat, shift: nat)
    ensures Shifted(g + 128 * r, shift) == Shifted(g, shift) + Shifted(r, shift + 7)
  {
    hide Pow2;
    Pow2Seven(shift);
    Expand(Pow2(shift), 128, r, g);
  }

  /** The loop as it stands after `k` groups, with `s` still to be read. */
  ghost function Loop(acc: nat, s: bytes, k: nat, modulus: int): Reading
    decreases |s|
  {
    if k >= 10 then Reading(acc, k, Some(IntOverflow))
    else if s == [] then Reading(acc, k, Some(UnexpectedEOF))
    else
      var acc' := Or(acc, Wrapped(Shifted(s[0] % 128, 7 * k), modulus));
      if s[0] < 128 then Reading(acc', k + 1, None) else Loop(acc', s[1..], k + 1, modulus)
  }

  /** The loop, entered with the low bits of `sum`, ends with those of `sum` and the value read. */
  ghost predicate LoopReads(sum: nat, s: bytes, k: nat, modulus: int) {
    var r := Get(s, k);
    Loop(Wrapped(sum, modulus), s, k, modulus) ==
    Reading(Wrapped(sum + Shifted(r.value, 7 * k), modulus), k + r.n, r.err)
  }

  lemma LoopReadsEnd(sum: nat, s: bytes, k: nat, modulus: int)
    requires k >= 10 || s == []
    ensures LoopReads(sum, s, k, modulus)
  {
    assert Shifted(0, 7 * k) == 0;
    hide Wrapped, Shifted, Or;
  }

  lemma LoopReadsLast(sum: nat, s: bytes, k: nat, modulus: int)
    requires Word(modulus) && sum < Pow2(7 * k)
    requires k < 10 && s != [] && s[0] < 128
    ensures LoopReads(sum, s, k, modulus)
  {
    hide Wrapped, Shifted, Or, Pow2, Word;
    OrGroup(Wrapped(sum, modulus), sum, s[0], 7 * k, modulus);
  }

  lemma LoopReadsMore(sum: nat, s: bytes, g: nat, rest: bytes, k: nat, modulus: int)
    requires Word(modulus) && sum < Pow2(7 * k)
    requires k < 10 && s != [] && s[0] == 128 + g && s[1..] == rest
    requires LoopReads(sum + Shifted(g, 7 * k), rest, k + 1, modulus)
    ensures LoopReads(sum, s, k, modulus)
  {
    hide Wrapped, Shifted, Or, Pow2, Word;
    OrGroup(Wrapped(sum, modulus), sum, g, 7 * k, modulus);
    ShiftedGroups(g, Get(rest, k + 1).value, 7 * k);
    assert Get(s, k).value == g + 128 * Get(rest, k + 1).value;
  }

  /** Or-ing each group into place gives the low bits of the value read from the last group inwards. */
  lemma {:induction false} LoopIsGet(sum: nat, s: bytes, k: nat, modulus: int)
    requires Word(modulus)
    requires sum < Pow2(7 * k)
    ensures LoopReads(sum, s, k, modulus)
    decreases |s|
  {
    hide LoopReads, Shifted, Pow2, Word;
    if k >= 10 || s == [] {
      LoopReadsEnd(sum, s, k, modulus);
    } else if s[0] < 128 {
      LoopReadsLast(sum, s, k, modulus);
    } else {
      var g := s[0] - 128;
      ShiftedBound(sum, g, 7 * k);
      LoopIsGet(sum + Shifted(g, 7 * k), s[1..], k + 1, modulus);
      LoopReadsMore(sum, s, g, s[1..], k, modulus);
    }
  }

  /** What the whole loop returns. */
  lemma LoopResult(s: bytes, modulus: int)
    requires Word(modulus)
    ensures var r := Get(s, 0);
            Loop(0, s, 0, modulus) ==
            Reading(Wrapped(r.value, modulus), r.n, r.err)
  {
    assert Pow2(0) == 1 && Wrapped(0, modulus) == 0;
    var v := Get(s, 0).value;
    assert Shifted(v, 0) == v;
    hide *;
    LoopIsGet(0, s, 0, modulus);
  }

  /** One turn of the loop. */
  lemma LoopTurn(acc: nat, dAtA: bytes, iNdEx: nat, k: nat, modulus: int)
    requires iNdEx <= |dAtA|
    ensures Loop(acc, dAtA[iNdEx..], k, modulus) ==
            if k >= 10 then Reading(acc, k, Some(IntOverflow))
            else if iNdEx == |dAtA| then Reading(acc, k, Some(UnexpectedEOF))
            else
              var acc' := Or(acc, Wrapped(Shifted(dAtA[iNdEx] % 128, 7 * k), modulus));
              if dAtA[iNdEx] < 128 then Reading(acc', k + 1, None) else Loop(acc', dAtA[iNdEx + 1..], k + 1, modulus)
  {
    hide Or, Wrapped, Shifted;
    if iNdEx < |dAtA| {
      assert dAtA[iNdEx..][1..] == dAtA[iNdEx + 1..];
    }
  }

  /**
   * The inlined reading loop, for an accumulator of 32 or 64 bits. On failure the accumulator keeps
   * the groups read so far, as the fields that the source accumulates in place do.
   */
  method DecodeVarint(dAtA: bytes, start: nat, modulus: int) returns (acc: nat, iNdEx: nat, err: Option<Error>)
    requires start <= |dAtA|
    requires Word(modulus)
    ensures var r := Get(dAtA[start..], 0);
            err == r.err && iNdEx == start + r.n &&
            acc == Wrapped(r.value, modulus)
  {
    LoopResult(dAtA[start..], modulus);
    hide *;
    acc, iNdEx := 0, start;
    var shift := 0;
    ghost var k: nat := 0;
    while true
      invariant 0 <= k <= 10 && shift == 7 * k && iNdEx == start + k <= |dAtA|
      invariant Loop(acc, dAtA[iNdEx..], k, modulus) == Loop(0, dAtA[start..], 0, modulus)
      decreases |dAtA| - iNdEx
    {
      LoopTurn(acc, dAtA, iNdEx, k, modulus);
      if shift >= 64 {
        return acc, iNdEx, Some(IntOverflow);
      }
      if iNdEx >= |dAtA| {
        return acc, iNdEx, Some(UnexpectedEOF);
      }
      var b := dAtA[iNdEx];
      iNdEx := iNdEx + 1;
      acc := Or(acc, Wrapped(Shifted(b % 128, shift), modulus));
      if b < 128 {
        return acc, iNdEx, None;
      }
      shift := shift + 7;
      k := k + 1;
    }
  }

  /** Writing one byte after those from `base` to `i`. */
  lemma Extend(s: bytes, base: nat, i: nat, b: byte, offset: nat)
    requires base <= i < offset <= |s|
    ensures var t := s[i := b];
            t[..base] == s[..base] && t[base..i + 1] == s[base..i] + [b] && t[offset..] == s[offset..]
  {
  }

  lemma Rejoin(s: bytes, i: nat, j: nat)
    requires i <= j <= |s|
    ensures s[i..] == s[i..j] + s[j..]
  {
  }

  /** Writes the varint of `v` so that it ends just before `offset`; returns where it starts. */
  method EncodeVarint(dAtA: array<byte>, offset: nat, v: uint64) returns (base: nat)
    requires |Put(v)| <= offset <= dAtA.Length
    modifies dAtA
    ensures base == offset - |Put(v)|
    ensures dAtA[base..] == Put(v) + old(dAtA[offset..])
    ensures dAtA[..base] == old(dAtA[..base])
  {
    SovExact(v);
    var i := offset - Sov(v);
    base := i;
    var w := v;
    hide Sov;
    ghost var s0 := dAtA[..];
    ghost var s := s0;
    while w >= 128
      invariant base <= i && i + |Put(w)| == offset
      invariant s == dAtA[..] && |s| == |s0|
      invariant s[base..i] + Put(w) == Put(v)
      invariant s[offset..] == s0[offset..] && s[..base] == s0[..base]
      decreases w
    {
      Extend(s, base, i, w % 128 + 128, offset);
      Assoc(s[base..i], [w % 128 + 128], Put(w / 128));
      dAtA[i] := w % 128 + 128;
      s := s[i := w % 128 + 128];
      w := w / 128;
      i := i + 1;
    }
    Extend(s, base, i, w, offset);
    dAtA[i] := w;
    s := s[i := w];
    Rejoin(s, base, offset);
    assert dAtA[..] == s;
  }
}
