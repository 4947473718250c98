/**
  The IPv6 upper-layer checksum (section 8.1 of RFC 8200, RFC 1071), computed on a little-endian machine:
  the pseudo-header is added as 32-bit words with end-around carry, the payload as 16-bit words into the
  same 32-bit accumulator without carry, and the result is folded.
*/
module Checksum {

  import opened Common

  /** A packet: addresses, payload length, next header, and the bytes that follow the header. */
  datatype Packet = Packet(src: Bytes, dst: Bytes, len: nat, nh: byte, data: Bytes)

  predicate WellFormed(p: Packet) {
    |p.src| == 16 == |p.dst| && p.len < 0x1_0000 && p.len <= |p.data|
  }

  // ----- the specification

  /** The sum of the 16-bit words of b, a last odd byte counting as a word with a zero byte after it. */
  function WordSum(b: Bytes): nat {
    if b == [] then 0
    else if |b| == 1 then b[0]
    else
      var lo: int, hi: int := b[0], b[1];
      lo + 256 * hi + WordSum(b[2..])
  }

  /** The pseudo-header: both addresses, the payload length in four bytes, three zero bytes, the next header. */
  function PseudoHeader(p: Packet): Bytes
    requires WellFormed(p)
  {
    p.src + p.dst + [0, 0, p.len / 256, p.len % 256] + [0, 0, 0, p.nh]
  }

  /** The number that stands for n in one's-complement arithmetic on 16 bits; only zero itself is zero. */
  function OnesSum(n: nat): (r: nat)
    ensures r < 0x1_0000
  {
    if n == 0 then 0 else (n - 1) % 65535 + 1
  }

  /** The complement of the one's-complement sum of pseudo-header and payload. */
  function Spec(p: Packet): nat
    requires WellFormed(p)
  {
    65535 - OnesSum(WordSum(PseudoHeader(p)) + WordSum(p.data[..p.len]))
  }

  // ----- the computation

  // a 32-bit load
  function Load32(b: Bytes, i: nat): (w: nat)
    requires i + 4 <= |b|
    ensures w < 0x1_0000_0000
  {
    var b0: int, b1: int, b2: int, b3: int := b[i], b[i + 1], b[i + 2], b[i + 3];
    b0 + 256 * b1 + 0x1_0000 * b2 + 0x100_0000 * b3
  }

  // sum += x; carry = sum < x; sum += carry
  function AddCarry(sum: nat, x: nat): (r: nat)
    requires sum < 0x1_0000_0000 && x < 0x1_0000_0000
    ensures r < 0x1_0000_0000
  {
    if sum + x < 0x1_0000_0000 then sum + x else sum + x - 0x1_0000_0000 + 1
  }

  /** Two sums that mean the same in one's-complement arithmetic. */
  predicate Same(a: nat, b: nat) {
    a % 65535 == b % 65535 && (a == 0 <==> b == 0)
  }

  lemma AddSame(sum: nat, x: nat, n: nat, m: nat)
    requires sum < 0x1_0000_0000 && x < 0x1_0000_0000 && Same(sum, n) && Same(x, m)
    ensures Same(AddCarry(sum, x), n + m)
  {
    CarrySame(sum + x);
    AddMods(sum, x, n, m);
  }

  // The end-around carry does not change what a sum means.
  lemma CarrySame(s: nat)
    requires s < 0x2_0000_0000
    ensures s >= 0x1_0000_0000 ==> (s - 0x1_0000_0000 + 1) % 65535 == s % 65535
  {
  }

  lemma AddMods(a: nat, b: nat, c: nat, d: nat)
    requires a % 65535 == c % 65535 && b % 65535 == d % 65535
    ensures (a + b) % 65535 == (c + d) % 65535
  {
  }

  lemma SameSum(a: nat, b: nat)
    requires Same(a, b)
    ensures OnesSum(a) == OnesSum(b)
  {
  }

  /** A 32-bit word means the sum of its two halves. */
  lemma SameSelf(n: nat)
    ensures Same(n, n)
  {
  }

  lemma HalfSame(lo: nat, hi: nat)
    ensures Same(lo + 0x1_0000 * hi, lo + hi)
  {
    assert lo + 0x1_0000 * hi == lo + hi + 65535 * hi;
  }

  lemma HalvesSame(b: Bytes, i: nat)
    requires i + 4 <= |b|
    ensures Same(Load32(b, i), WordSum(b[i..i + 4]))
  {
    hide WordSum, Same;
    FourBytes(b[i..i + 4]);
    var b0: int, b1: int, b2: int, b3: int := b[i], b[i + 1], b[i + 2], b[i + 3];
    HalfSame(b0 + 256 * b1, b2 + 256 * b3);
  }

  lemma FourBytes(c: Bytes)
    requires |c| == 4
    ensures var c0: int, c1: int, c2: int, c3: int := c[0], c[1], c[2], c[3];
            WordSum(c) == c0 + 256 * c1 + c2 + 256 * c3
  {
    var d := c[2..];
    assert d[0] == c[2] && d[1] == c[3] && d[2..] == [];
    assert WordSum(d) == d[0] as int + 256 * d[1] as int + WordSum(d[2..]);
  }

  lemma {:induction false} WordSumJoin(a: Bytes, b: Bytes)
    requires |a| % 2 == 0
    ensures WordSum(a + b) == WordSum(a) + WordSum(b)
    decreases |a|
  {
    if a == [] {
      assert a + b == b;
    } else {
      assert (a + b)[2..] == a[2..] + b;
      WordSumJoin(a[2..], b);
    }
  }

  // the header's length field, big-endian in memory
  function RawLength(len: nat): (r: nat)
    requires len < 0x1_0000
    ensures r < 0x1_0000
  {
    len / 256 + 256 * (len % 256)
  }

  /** One turn of the folding loop. */
  lemma FoldOnce(sum: nat)
    ensures Same(sum, sum / 0x1_0000 + sum % 0x1_0000)
  {
  }

  /** The accumulator after i words of each address. */
  function AddressAcc(p: Packet, i: nat): (sum: nat)
    requires WellFormed(p) && i <= 4
    ensures sum < 0x1_0000_0000
  {
    if i == 0 then 0 else AddCarry(AddCarry(AddressAcc(p, i - 1), Load32(p.src, 4 * i - 4)), Load32(p.dst, 4 * i - 4))
  }

  /** The accumulator after the pseudo-header. */
  function HeaderAcc(p: Packet): (sum: nat)
    requires WellFormed(p)
    ensures sum < 0x1_0000_0000
  {
    AddCarry(AddCarry(AddressAcc(p, 4), RawLength(p.len)), 0x100_0000 * p.nh)
  }

  lemma {:induction false} AddressSame(p: Packet, i: nat)
    requires WellFormed(p) && i <= 4
    ensures Same(AddressAcc(p, i), WordSum(p.src[..4 * i]) + WordSum(p.dst[..4 * i]))
  {
    hide WordSum, Same, AddCarry, Load32;
    if i == 0 {
      NoWords(p.src);
      NoWords(p.dst);
      SameZero();
    } else {
      AddressSame(p, i - 1);
      AddressStep(p, 4 * i - 4, AddressAcc(p, i - 1));
      assert 4 * (i - 1) == 4 * i - 4 && 4 * i - 4 + 4 == 4 * i;
    }
  }

  lemma SameZero()
    ensures Same(0, 0)
  {
  }

  lemma AddressStep(p: Packet, at: nat, sum: nat)
    requires WellFormed(p) && at + 4 <= 16 && at % 2 == 0 && sum < 0x1_0000_0000
    requires Same(sum, WordSum(p.src[..at]) + WordSum(p.dst[..at]))
    ensures Same(AddCarry(AddCarry(sum, Load32(p.src, at)), Load32(p.dst, at)),
                 WordSum(p.src[..at + 4]) + WordSum(p.dst[..at + 4]))
  {
    hide Load32, WordSum, Same, AddCarry;
    HalvesSame(p.src, at);
    HalvesSame(p.dst, at);
    NextWord(p.src, at);
    NextWord(p.dst, at);
    var x, y := Load32(p.src, at), Load32(p.dst, at);
    var n, m := WordSum(p.src[..at]) + WordSum(p.dst[..at]), WordSum(p.src[at..at + 4]);
    AddSame(sum, x, n, m);
    AddSame(AddCarry(sum, x), y, n + m, WordSum(p.dst[at..at + 4]));
  }

  /** It stands for the words of the pseudo-header. */
  lemma HeaderSame(p: Packet)
    requires WellFormed(p)
    ensures Same(HeaderAcc(p), WordSum(PseudoHeader(p)))
  {
    hide WordSum, Same, PseudoHeader, AddCarry;
    AddressSame(p, 4);
    assert p.src[..16] == p.src && p.dst[..16] == p.dst;
    FieldWords(p);
    var n, a, prot := WordSum(p.src) + WordSum(p.dst), WordSum([0, 0, p.len / 256, p.len % 256]), 0x100_0000 * p.nh;
    AddSame(AddressAcc(p, 4), RawLength(p.len), n, a);
    AddSame(AddCarry(AddressAcc(p, 4), RawLength(p.len)), prot, n + a, WordSum([0, 0, 0, p.nh]));
  }

  // The length and next-header words, and the sum of the whole pseudo-header.
  lemma HeaderWords(p: Packet, a: Bytes, b: Bytes)
    requires WellFormed(p) && PseudoHeader(p) == p.src + p.dst + a + b && |a| == 4
    ensures WordSum(PseudoHeader(p)) == WordSum(p.src) + WordSum(p.dst) + WordSum(a) + WordSum(b)
  {
    hide WordSum;
    WordSumJoin(p.src, p.dst);
    WordSumJoin(p.src + p.dst, a);
    WordSumJoin(p.src + p.dst + a, b);
  }

  lemma FieldWords(p: Packet)
    requires WellFormed(p)
    ensures Same(RawLength(p.len), WordSum([0, 0, p.len / 256, p.len % 256]))
    ensures Same(0x100_0000 * p.nh, WordSum([0, 0, 0, p.nh]))
    ensures WordSum(PseudoHeader(p))
            == WordSum(p.src) + WordSum(p.dst) + WordSum([0, 0, p.len / 256, p.len % 256]) + WordSum([0, 0, 0, p.nh])
  {
    hide WordSum, Same;
    var a: Bytes, b: Bytes := [0, 0, p.len / 256, p.len % 256], [0, 0, 0, p.nh];
    FourBytes(a);
    FourBytes(b);
    HeaderWords(p, a, b);
    SameSelf(RawLength(p.len));
    HalfSame(0, 256 * p.nh);
  }

  lemma NextWord(b: Bytes, i: nat)
    requires i + 4 <= |b| && i % 2 == 0
    ensures WordSum(b[..i + 4]) == WordSum(b[..i]) + WordSum(b[i..i + 4])
  {
    assert b[..i + 4] == b[..i] + b[i..i + 4];
    WordSumJoin(b[..i], b[i..i + 4]);
  }

  /** The whole sum, before the accumulator wraps. */
  function Unwrapped(p: Packet): nat
    requires WellFormed(p)
  {
    HeaderAcc(p) + WordSum(p.data[..p.len])
  }

  function Wrap(n: nat): (r: nat)
    ensures r < 0x1_0000_0000
  {
    n % 0x1_0000_0000
  }

  /** What the source computes. */
  function Gen(p: Packet): (r: nat)
    requires WellFormed(p)
    ensures r < 0x1_0000
  {
    65535 - OnesSum(Wrap(Unwrapped(p)))
  }

  // the folding loop
  method Fold(start: nat) returns (sum: nat)
    requires start < 0x1_0000_0000
    ensures sum == OnesSum(start)
  {
    sum := start;
    while sum / 0x1_0000 != 0
      invariant Same(sum, start) && sum < 0x1_0000_0000
      decreases sum
    {
      FoldOnce(sum);
      sum := sum / 0x1_0000 + sum % 0x1_0000;
    }
    SameSum(sum, start);
  }

  // ipv6_gen_checksum
  method GenChecksum(p: Packet) returns (r: nat)
    requires WellFormed(p)
    ensures r == Gen(p)
  {
    hide AddressAcc, AddCarry, WordSum, OnesSum, RawLength, Wrap;
    var sum := AddressSum(p);
    sum := AddCarry(sum, RawLength(p.len));
    sum := AddCarry(sum, 0x100_0000 * p.nh);
    sum := PayloadSum(p, sum);
    var f := Fold(sum);
    r := 65535 - f;
  }

  // the loop over the words of both addresses
  method AddressSum(p: Packet) returns (sum: nat)
    requires WellFormed(p)
    ensures sum == AddressAcc(p, 4)
  {
    hide AddCarry, Load32;
    sum := 0;
    var i := 0;
    while i < 4
      invariant 0 <= i <= 4 && sum == AddressAcc(p, i)
    {
      sum := AddCarry(sum, Load32(p.src, 4 * i));
      sum := AddCarry(sum, Load32(p.dst, 4 * i));
      i := i + 1;
    }
  }

  // the loop over the payload, and its odd last byte
  method PayloadSum(p: Packet, h: nat) returns (sum: nat)
    requires WellFormed(p) && h < 0x1_0000_0000
    ensures sum == Wrap(h + WordSum(p.data[..p.len]))
  {
    hide WordSum, Wrap;
    WrapSmall(h);
    sum := h;
    var k := 0;
    NoWords(p.data);
    while k + 1 < p.len
      invariant 0 <= k <= p.len && k % 2 == 0 && sum == Wrap(h + WordSum(p.data[..k]))
    {
      NextPair(p.data, k);
      var w: nat := p.data[k] as int + 256 * p.data[k + 1] as int;
      WrapAdd(h + WordSum(p.data[..k]), w);
      sum := Wrap(sum + w);
      k := k + 2;
    }
    if p.len % 2 == 1 {
      LastByte(p.data, p.len);
      WrapAdd(h + WordSum(p.data[..p.len - 1]), p.data[p.len - 1]);
      sum := Wrap(sum + p.data[p.len - 1]);
    }
  }

  lemma WrapSmall(h: nat)
    requires h < 0x1_0000_0000
    ensures Wrap(h) == h
  {
  }

  lemma WrapAdd(a: nat, b: nat)
    ensures Wrap(Wrap(a) + b) == Wrap(a + b)
  {
  }

  lemma NoWords(b: Bytes)
    ensures WordSum(b[..0]) == 0
  {
    assert b[..0] == [];
  }

  lemma NextPair(b: Bytes, k: nat)
    requires k + 1 < |b| && k % 2 == 0
    ensures var lo: int, hi: int := b[k], b[k + 1]; WordSum(b[..k + 2]) == WordSum(b[..k]) + lo + 256 * hi
  {
    var c := b[k..k + 2];
    assert b[..k + 2] == b[..k] + c;
    WordSumJoin(b[..k], c);
    assert c[2..] == [];
  }

  lemma LastByte(b: Bytes, n: nat)
    requires 1 <= n <= |b| && n % 2 == 1
    ensures WordSum(b[..n]) == WordSum(b[..n - 1]) + b[n - 1]
  {
    assert b[..n] == b[..n - 1] + [b[n - 1]];
    WordSumJoin(b[..n - 1], [b[n - 1]]);
  }

  lemma {:induction false} WordSumBound(b: Bytes)
    ensures 2 * WordSum(b) <= 65535 * (|b| + 1)
    decreases |b|
  {
    if |b| >= 2 {
      WordSumBound(b[2..]);
    }
  }

  // ----- when it is right

  // Replacing the header's accumulator by its words.
  lemma SameTotal(h: nat, n: nat, p: nat)
    requires Same(h, n)
    ensures Same(h + p, n + p)
  {
  }

  lemma WrapShifts(n: nat, m: nat)
    requires 0x1_0000_0000 <= n < 0x2_0000_0000 && Same(n, m)
    ensures OnesSum(Wrap(n)) != OnesSum(m)
  {
  }

  /** The checksum is that of RFC 8200 exactly when the payload loop does not wrap the accumulator. */
  lemma RightExactly(p: Packet)
    requires WellFormed(p)
    ensures Gen(p) == Spec(p) <==> Unwrapped(p) < 0x1_0000_0000
  {
    hide HeaderAcc, PseudoHeader, Same, OnesSum, WordSum, Wrap;
    HeaderSame(p);
    var n, w := WordSum(PseudoHeader(p)), WordSum(p.data[..p.len]);
    PayloadSmall(p.data[..p.len]);
    SameTotal(HeaderAcc(p), n, w);
    if Unwrapped(p) < 0x1_0000_0000 {
      SameSum(Unwrapped(p), n + w);
      WrapSmall(Unwrapped(p));
    } else {
      WrapShifts(Unwrapped(p), n + w);
    }
  }

  lemma PayloadSmall(b: Bytes)
    requires |b| < 0x1_0000
    ensures WordSum(b) < 0x1_0000_0000
  {
    WordSumBound(b);
  }

  /** A packet for which it wraps: the pseudo-header sums to 0xFFFF0200 and the payload is one word of ones. */
  lemma WrongExample()
    ensures var z: Bytes := [0, 0, 0, 0];
            var p := Packet([0, 0, 255, 255] + z + z + z, z + z + z + z, 2, 0, [255, 255]);
            WellFormed(p) && Gen(p) != Spec(p)
  {
    var z: Bytes := [0, 0, 0, 0];
    var p := Packet([0, 0, 255, 255] + z + z + z, z + z + z + z, 2, 0, [255, 255]);
    assert Load32(p.src, 0) == 0xFFFF_0000 && Load32(p.dst, 0) == 0;
    assert AddressAcc(p, 1) == 0xFFFF_0000;
    assert AddressAcc(p, 2) == 0xFFFF_0000;
    assert AddressAcc(p, 3) == 0xFFFF_0000;
    assert HeaderAcc(p) == 0xFFFF_0200;
    assert p.data[..2] == [255, 255] && p.data[..2][2..] == [];
    assert WordSum(p.data[..2]) == 0xFFFF;
    hide HeaderAcc, WordSum, Gen, Spec;
    RightExactly(p);
  }

  // Adding the complement makes all ones, and cannot wrap.
  lemma AddComplement(n: nat)
    ensures OnesSum(Wrap(n + 65535 - OnesSum(Wrap(n)))) == 65535
  {
    var t := Wrap(n);
    if t > 0 {
      var q := (t - 1) / 65535;
      assert t - OnesSum(t) == 65535 * q && q <= 65536;
      Complete(n, t, q);
    } else {
      Complete(n, t, 0);
    }
  }

  lemma Complete(n: nat, t: nat, q: nat)
    requires t == Wrap(n) && t - OnesSum(t) == 65535 * q && q <= 65536
    ensures OnesSum(Wrap(n + 65535 - OnesSum(t))) == 65535
  {
    hide OnesSum;
    var m := t + 65535 - OnesSum(t);
    assert m == 65535 * (q + 1) < 0x1_0000_0000;
    assert Wrap(n + 65535 - OnesSum(t)) == m;
    AllOnes(q);
  }

  lemma AllOnes(q: nat)
    ensures OnesSum(65535 * (q + 1)) == 65535
  {
  }

  /**
    Storing the checksum of a packet whose checksum field was zero, at an even offset, makes the checksum zero: for
    every packet, wrapping or not.
  */
  lemma SelfCheck(p: Packet, k: nat)
    requires WellFormed(p) && k % 2 == 0 && k + 1 < p.len && p.data[k] == 0 && p.data[k + 1] == 0
    ensures var q := p.(data := p.data[k := Gen(p) % 256][k + 1 := Gen(p) / 256]); WellFormed(q) && Gen(q) == 0
  {
    var q := p.(data := p.data[k := Gen(p) % 256][k + 1 := Gen(p) / 256]);
    StoredSum(p.data[..p.len], q.data[..p.len], k, Gen(p));
    SameHeader(p, q, 4);
    hide WordSum, OnesSum, HeaderAcc;
    assert Unwrapped(q) == Unwrapped(p) + Gen(p);
    AddComplement(Unwrapped(p));
  }

  lemma {:induction false} SameHeader(p: Packet, q: Packet, i: nat)
    requires WellFormed(p) && WellFormed(q) && q == p.(data := q.data) && i <= 4
    ensures AddressAcc(q, i) == AddressAcc(p, i)
    ensures i == 4 ==> HeaderAcc(q) == HeaderAcc(p)
  {
    if i > 0 {
      SameHeader(p, q, i - 1);
    }
  }

  // The sum of words grows by the word stored over a zero one.
  lemma {:induction false} StoredSum(b: Bytes, c: Bytes, k: nat, v: nat)
    requires k % 2 == 0 && k + 1 < |b| && b[k] == 0 && b[k + 1] == 0 && v < 0x1_0000
    requires c == b[k := v % 256][k + 1 := v / 256]
    ensures WordSum(c) == WordSum(b) + v
    decreases |b|
  {
    if k > 0 {
      assert c[2..] == b[2..][k - 2 := v % 256][k - 1 := v / 256];
      StoredSum(b[2..], c[2..], k - 2, v);
    } else {
      assert c[2..] == b[2..];
    }
  }
}
