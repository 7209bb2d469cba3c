// The Modbus RTU checksum: the register of `crc16`, and what it detects.
// Section 6.2.2 of "MODBUS over Serial Line" V1.02 defines the generating procedure.
//
// The register is an integer, as in the source.  The proofs look at its sixteen bits, least
// significant first, which is also the order in which bits travel on the line.

module Crc {
  type Byte = b: int | 0 <= b < 256
  type Bits = seq<bool>

  // ---------- the register ----------

  /** Bitwise exclusive or of two non-negative integers. */
  function Xor(a: nat, b: nat): nat {
    if a == 0 && b == 0 then 0 else 2 * Xor(a / 2, b / 2) + (if a % 2 != b % 2 then 1 else 0)
  }

  const POLYNOMIAL := 0xA001

  /** One turn of the inner loop. */
  function Shift(c: nat): nat {
    if c % 2 == 1 then Xor(c / 2, POLYNOMIAL) else c / 2
  }

  function ShiftN(c: nat, n: nat): nat {
    if n == 0 then c else Shift(ShiftN(c, n - 1))
  }

  /** One byte: xor it into the register, then eight shifts. */
  function Absorb(c: nat, b: Byte): nat {
    ShiftN(Xor(c, b), 8)
  }

  function Register(c: nat, data: seq<Byte>): nat
    decreases |data|
  {
    if data == [] then c else Register(Absorb(c, data[0]), data[1..])
  }

  function Crc16(data: seq<Byte>): nat {
    Register(0xFFFF, data)
  }

  method ComputeCrc16(data: seq<Byte>) returns (crc: nat)
    ensures crc == Crc16(data)
  {
    crc := 0xFFFF;
    for i := 0 to |data|
      invariant Register(crc, data[i..]) == Crc16(data)
    {
      assert data[i..][0] == data[i] && data[i..][1..] == data[i + 1..];
      crc := Xor(crc, data[i]);
      ghost var loaded := crc;
      for k := 0 to 8
        invariant crc == ShiftN(loaded, k)
      {
        crc := if crc % 2 == 1 then Xor(crc / 2, 0xA001) else crc / 2;
      }
    }
  }

  /** The checksum travels low byte first. */
  function Trailer(c: nat): (t: seq<Byte>)
    requires c < 0x10000
    ensures |t| == 2
  {
    [c % 256, c / 256]
  }

  function WithCrc(frame: seq<Byte>): (framed: seq<Byte>)
    ensures Crc16(frame) < 0x10000 && framed == frame + Trailer(Crc16(frame))
  {
    RegisterBound(0xFFFF, frame);
    frame + Trailer(Crc16(frame))
  }

  predicate CrcOk(frame: seq<Byte>) {
    |frame| >= 4 && frame[|frame| - 2] + 256 * (frame[|frame| - 1] as int) == Crc16(frame[..|frame| - 2])
  }

  // ---------- integers and their bits ----------

  function Pow2(w: nat): (p: nat)
    ensures p >= 1
  {
    if w == 0 then 1 else 2 * Pow2(w - 1)
  }

  function ToBits(n: nat, w: nat): (bits: Bits)
    ensures |bits| == w
  {
    if w == 0 then [] else [n % 2 == 1] + ToBits(n / 2, w - 1)
  }

  function Zeros(w: nat): (bits: Bits)
    ensures |bits| == w && forall i :: 0 <= i < w ==> !bits[i]
  {
    seq(w, i => false)
  }

  function XorBits(a: Bits, b: Bits): (bits: Bits)
    requires |a| == |b|
    ensures |bits| == |a| && forall i :: 0 <= i < |a| ==> bits[i] == (a[i] != b[i])
  {
    seq(|a|, i requires 0 <= i < |a| => a[i] != b[i])
  }

  lemma {:induction false} XorShowsInBits(a: nat, b: nat, w: nat)
    ensures ToBits(Xor(a, b), w) == XorBits(ToBits(a, w), ToBits(b, w))
    decreases w
  {
    if w > 0 {
      assert Xor(a, b) / 2 == Xor(a / 2, b / 2);
      assert (Xor(a, b) % 2 == 1) == (a % 2 != b % 2);
      XorShowsInBits(a / 2, b / 2, w - 1);
    }
  }

  lemma {:induction false} XorBound(a: nat, b: nat, w: nat)
    requires a < Pow2(w) && b < Pow2(w)
    ensures Xor(a, b) < Pow2(w)
    decreases w
  {
    if w > 0 { XorBound(a / 2, b / 2, w - 1); }
  }

  lemma {:induction false} ToBitsInjective(a: nat, b: nat, w: nat)
    requires a < Pow2(w) && b < Pow2(w) && ToBits(a, w) == ToBits(b, w)
    ensures a == b
    decreases w
  {
    if w > 0 {
      assert ToBits(a, w)[0] == ToBits(b, w)[0];
      assert ToBits(a, w)[1..] == ToBits(a / 2, w - 1) && ToBits(b, w)[1..] == ToBits(b / 2, w - 1);
      ToBitsInjective(a / 2, b / 2, w - 1);
    }
  }

  lemma {:induction false} HalfShiftsBits(c: nat, w: nat)
    requires 1 <= w && c < Pow2(w)
    ensures ToBits(c / 2, w) == ToBits(c, w)[1..] + [false]
    decreases w
  {
    if w > 1 {
      HalfShiftsBits(c / 2, w - 1);
    } else {
      assert ToBits(c / 2, 1) == [false] + ToBits(c / 2 / 2, 0);
    }
  }

  lemma {:induction false} JoinBits(lo: nat, hi: nat, v: nat, w: nat)
    requires lo < Pow2(v)
    ensures ToBits(lo + Pow2(v) * hi, v + w) == ToBits(lo, v) + ToBits(hi, w)
    decreases v
  {
    if v > 0 {
      var n := lo + Pow2(v) * hi;
      assert Pow2(v) * hi == 2 * (Pow2(v - 1) * hi);
      assert n / 2 == lo / 2 + Pow2(v - 1) * hi && n % 2 == lo % 2;
      JoinBits(lo / 2, hi, v - 1, w);
    } else {
      assert Pow2(0) * hi == hi;
    }
  }

  lemma {:induction false} ToBitsZero(w: nat)
    ensures ToBits(0, w) == Zeros(w)
  {
    if w > 0 { ToBitsZero(w - 1); }
  }

  lemma Pow2At16()
    ensures Pow2(16) == 0x10000 && Pow2(8) == 0x100
  {
    assert Pow2(4) == 16;
    assert Pow2(8) == 0x100;
    assert Pow2(12) == 0x1000;
  }

  // ---------- the register as bits ----------

  function PolyBits(): (p: Bits)
    ensures |p| == 16 && p[15]
  {
    seq(16, i => i == 0 || i == 13 || i == 15)
  }

  lemma PolynomialBits()
    ensures ToBits(POLYNOMIAL, 16) == PolyBits()
  {
    hide ToBits, Halved;
    forall k | 0 <= k < 16
      ensures ToBits(POLYNOMIAL, 16)[k] == PolyBits()[k]
    {
      BitValue(POLYNOMIAL, 16, k);
      PolynomialBit(k);
    }
  }

  function Halved(n: nat, k: nat): nat {
    if k == 0 then n else Halved(n, k - 1) / 2
  }

  lemma {:induction false} HalvedFirst(n: nat, k: nat)
    ensures Halved(n, k + 1) == Halved(n / 2, k)
  {
    if k > 0 { HalvedFirst(n, k - 1); }
  }

  lemma {:induction false} PolynomialBit(k: nat)
    requires k < 16
    ensures Halved(POLYNOMIAL, k) == [0xA001, 0x5000, 0x2800, 0x1400, 0xA00, 0x500, 0x280, 0x140,
                                      0xA0, 0x50, 0x28, 0x14, 0xA, 5, 2, 1][k]
  {
    if k > 0 { PolynomialBit(k - 1); }
  }

  lemma {:induction false} BitValue(n: nat, w: nat, k: nat)
    requires k < w
    ensures ToBits(n, w)[k] == (Halved(n, k) % 2 == 1)
    decreases k
  {
    if k > 0 {
      BitValue(n / 2, w - 1, k - 1);
      HalvedFirst(n, k - 1);
    }
  }

  function Halve(r: Bits): (s: Bits)
    requires |r| == 16
    ensures |s| == 16
  {
    r[1..] + [false]
  }

  function Feedback(bit: bool): (s: Bits)
    ensures |s| == 16
  {
    if bit then PolyBits() else Zeros(16)
  }

  function ShiftBits(r: Bits): (s: Bits)
    requires |r| == 16
    ensures |s| == 16
  {
    XorBits(Halve(r), Feedback(r[0]))
  }

  function ShiftBitsN(r: Bits, n: nat): (s: Bits)
    requires |r| == 16
    ensures |s| == 16
  {
    if n == 0 then r else ShiftBits(ShiftBitsN(r, n - 1))
  }

  lemma ShiftShowsInBits(c: nat)
    requires c < 0x10000
    ensures Shift(c) < 0x10000 && ToBits(Shift(c), 16) == ShiftBits(ToBits(c, 16))
  {
    Pow2At16();
    HalfShiftsBits(c, 16);
    XorShowsInBits(c / 2, POLYNOMIAL, 16);
    XorBound(c / 2, POLYNOMIAL, 16);
    PolynomialBits();
    assert ToBits(c, 16)[0] == (c % 2 == 1);
    hide ToBits, Xor, Pow2, PolyBits;
    assert XorBits(Halve(ToBits(c, 16)), Zeros(16)) == Halve(ToBits(c, 16));
  }

  lemma {:induction false} ShiftNShowsInBits(c: nat, n: nat)
    requires c < 0x10000
    ensures ShiftN(c, n) < 0x10000 && ToBits(ShiftN(c, n), 16) == ShiftBitsN(ToBits(c, 16), n)
  {
    if n > 0 {
      ShiftNShowsInBits(c, n - 1);
      ShiftShowsInBits(ShiftN(c, n - 1));
    }
  }

  // ---------- the shift is a bijection and linear ----------

  function UnshiftBits(r: Bits): (s: Bits)
    requires |r| == 16
    ensures |s| == 16
  {
    [r[15]] + XorBits(r, Feedback(r[15]))[..15]
  }

  lemma UnshiftShift(r: Bits)
    requires |r| == 16
    ensures UnshiftBits(ShiftBits(r)) == r
    ensures ShiftBits(UnshiftBits(r)) == r
  {
    var s, t := ShiftBits(r), UnshiftBits(r);
    assert s[15] == r[0] && t[0] == r[15];
    forall k | 0 <= k < 16
      ensures UnshiftBits(s)[k] == r[k] && ShiftBits(t)[k] == r[k]
    {
      assert k < 15 ==> Halve(r)[k] == r[k + 1] && Halve(t)[k] == t[k + 1];
      assert k >= 1 ==> s[k - 1] == (r[k] != Feedback(r[0])[k - 1]);
    }
  }

  function UnshiftBitsN(r: Bits, n: nat): (s: Bits)
    requires |r| == 16
    ensures |s| == 16
    decreases n
  {
    if n == 0 then r else UnshiftBitsN(UnshiftBits(r), n - 1)
  }

  lemma {:induction false} UnshiftShiftN(r: Bits, n: nat)
    requires |r| == 16
    ensures UnshiftBitsN(ShiftBitsN(r, n), n) == r
    ensures ShiftBitsN(UnshiftBitsN(r, n), n) == r
    decreases n
  {
    hide ShiftBits, UnshiftBits;
    if n > 0 {
      UnshiftShift(ShiftBitsN(r, n - 1));
      UnshiftShiftN(r, n - 1);
      UnshiftShiftN(UnshiftBits(r), n - 1);
      UnshiftShift(r);
    }
  }

  lemma ShiftLinear(a: Bits, b: Bits)
    requires |a| == |b| == 16
    ensures ShiftBits(XorBits(a, b)) == XorBits(ShiftBits(a), ShiftBits(b))
  {
  }

  lemma {:induction false} ShiftNLinear(a: Bits, b: Bits, n: nat)
    requires |a| == |b| == 16
    ensures ShiftBitsN(XorBits(a, b), n) == XorBits(ShiftBitsN(a, n), ShiftBitsN(b, n))
  {
    if n > 0 {
      ShiftNLinear(a, b, n - 1);
      ShiftLinear(ShiftBitsN(a, n - 1), ShiftBitsN(b, n - 1));
    }
  }

  /** Low zero bits fall out of the register without touching the polynomial. */
  lemma {:induction false} LowZerosFallOut(r: Bits, n: nat)
    requires |r| == 16 && n <= 16 && forall i :: 0 <= i < n ==> !r[i]
    ensures ShiftBitsN(r, n) == r[n..] + Zeros(n)
  {
    hide ShiftBits;
    if n > 0 {
      LowZerosFallOut(r, n - 1);
      LowZeroFallsOut(r[n - 1..] + Zeros(n - 1));
    }
  }

  lemma LowZeroFallsOut(r: Bits)
    requires |r| == 16 && !r[0]
    ensures ShiftBits(r) == r[1..] + [false]
  {
  }

  // ---------- the same machine, one bit at a time ----------

  function FrameBits(f: seq<Byte>): (bits: Bits)
    ensures |bits| == 8 * |f|
  {
    if f == [] then [] else ToBits(f[0], 8) + FrameBits(f[1..])
  }

  function Bit0(bit: bool): (r: Bits)
    ensures |r| == 16
  {
    [bit] + Zeros(15)
  }

  function Feed(r: Bits, bits: Bits): (s: Bits)
    requires |r| == 16
    ensures |s| == 16
  {
    if bits == [] then r else ShiftBits(XorBits(Feed(r, bits[..|bits| - 1]), Bit0(bits[|bits| - 1])))
  }

  function Load(bits: Bits): (r: Bits)
    requires |bits| <= 16
    ensures |r| == 16
  {
    bits + Zeros(16 - |bits|)
  }

  /** Feeding up to sixteen bits equals loading them all and then shifting. */
  lemma {:induction false} LoadThenShift(r: Bits, bits: Bits)
    requires |r| == 16 && |bits| <= 16
    ensures Feed(r, bits) == ShiftBitsN(XorBits(r, Load(bits)), |bits|)
  {
    hide ShiftBits;
    if bits == [] {
      assert XorBits(r, Load(bits)) == r;
    } else {
      var n := |bits| - 1;
      LoadThenShift(r, bits[..n]);
      var probe := Zeros(n) + [bits[n]] + Zeros(15 - n);
      LowZerosFallOut(probe, n);
      assert ShiftBitsN(probe, n) == Bit0(bits[n]);
      ShiftNLinear(XorBits(r, Load(bits[..n])), probe, n);
      assert XorBits(XorBits(r, Load(bits[..n])), probe) == XorBits(r, Load(bits));
    }
  }

  lemma {:induction false} FeedAppend(r: Bits, a: Bits, b: Bits)
    requires |r| == 16
    ensures Feed(r, a + b) == Feed(Feed(r, a), b)
  {
    hide ShiftBits, XorBits, Bit0;
    if b == [] {
      assert a + b == a;
    } else {
      FeedAppend(r, a, b[..|b| - 1]);
      assert (a + b)[..|a + b| - 1] == a + b[..|b| - 1];
    }
  }

  lemma XorCancel(a: Bits, b: Bits, m: Bits)
    requires |a| == |b| == |m| && XorBits(a, m) == XorBits(b, m)
    ensures a == b
  {
    assert forall i :: 0 <= i < |a| ==> XorBits(a, m)[i] == XorBits(b, m)[i];
  }

  lemma {:induction false} FeedInjective(r: Bits, s: Bits, bits: Bits)
    requires |r| == |s| == 16 && Feed(r, bits) == Feed(s, bits)
    ensures r == s
  {
    if bits != [] {
      var n := |bits| - 1;
      var x, y := Feed(r, bits[..n]), Feed(s, bits[..n]);
      UnshiftShift(XorBits(x, Bit0(bits[n])));
      UnshiftShift(XorBits(y, Bit0(bits[n])));
      XorCancel(x, y, Bit0(bits[n]));
      FeedInjective(r, s, bits[..n]);
    }
  }

  lemma AbsorbShowsInBits(c: nat, b: Byte)
    requires c < 0x10000
    ensures Absorb(c, b) < 0x10000 && ToBits(Absorb(c, b), 16) == Feed(ToBits(c, 16), ToBits(b, 8))
  {
    Pow2At16();
    XorBound(c, b, 16);
    ShiftNShowsInBits(Xor(c, b), 8);
    XorShowsInBits(c, b, 16);
    JoinBits(b, 0, 8, 8);
    ToBitsZero(8);
    assert ToBits(b, 16) == Load(ToBits(b, 8));
    LoadThenShift(ToBits(c, 16), ToBits(b, 8));
  }

  lemma {:induction false} RegisterBound(c: nat, f: seq<Byte>)
    requires c < 0x10000
    ensures Register(c, f) < 0x10000
    ensures ToBits(Register(c, f), 16) == Feed(ToBits(c, 16), FrameBits(f))
    decreases |f|
  {
    if f != [] {
      AbsorbShowsInBits(c, f[0]);
      RegisterBound(Absorb(c, f[0]), f[1..]);
      FeedAppend(ToBits(c, 16), ToBits(f[0], 8), FrameBits(f[1..]));
    }
  }

  /** For every byte, absorbing it permutes the 65536 register states. */
  lemma AbsorbPermutesStates(b: Byte, c: nat, d: nat)
    requires c < 0x10000 && d < 0x10000
    ensures Absorb(c, b) < 0x10000
    ensures Absorb(c, b) == Absorb(d, b) ==> c == d
  {
    AbsorbShowsInBits(c, b);
    AbsorbShowsInBits(d, b);
    if Absorb(c, b) == Absorb(d, b) {
      FeedInjective(ToBits(c, 16), ToBits(d, 16), ToBits(b, 8));
      Pow2At16();
      ToBitsInjective(c, d, 16);
    }
  }

  // ---------- acceptance is a zero residue ----------

  lemma {:induction false} RegisterAppend(c: nat, a: seq<Byte>, b: seq<Byte>)
    ensures Register(c, a + b) == Register(Register(c, a), b)
    decreases |a|
  {
    if a == [] {
      assert a + b == b;
    } else {
      RegisterAppend(Absorb(c, a[0]), a[1..], b);
      assert (a + b)[1..] == a[1..] + b;
    }
  }

  /** Sixteen bits bring the register to zero exactly when they are its own contents. */
  lemma OwnBitsClear(r: Bits, t: Bits)
    requires |r| == |t| == 16
    ensures Feed(r, t) == Zeros(16) <==> r == t
  {
    hide ShiftBits, UnshiftBits, ShiftBitsN, UnshiftBitsN, Feed;
    var x := XorBits(r, t);
    LoadThenShift(r, t);
    assert Load(t) == t;
    LowZerosFallOut(Zeros(16), 16);
    assert Zeros(16)[16..] + Zeros(16) == Zeros(16);
    UnshiftShiftN(x, 16);
    UnshiftShiftN(Zeros(16), 16);
    assert XorBits(t, t) == Zeros(16);
    if x == Zeros(16) { XorCancel(r, t, t); }
  }

  lemma TwoBytesAsBits(lo: Byte, hi: Byte)
    ensures FrameBits([lo, hi]) == ToBits(lo + 256 * hi, 16)
  {
    hide ToBits;
    Pow2At16();
    JoinBits(lo, hi, 8, 8);
    assert [lo, hi][1..] == [hi] && [hi][1..] == [];
    assert FrameBits([hi]) == ToBits(hi, 8) + FrameBits([]);
  }

  /** Two more bytes bring the register to zero exactly when they spell its value, low byte first. */
  lemma ResidueOfTrailer(c: nat, lo: Byte, hi: Byte)
    requires c < 0x10000
    ensures Register(c, [lo, hi]) == 0 <==> c == lo + 256 * hi
  {
    hide Register, Feed, ToBits, FrameBits, Zeros;
    Pow2At16();
    hide Pow2;
    RegisterBound(c, [lo, hi]);
    TwoBytesAsBits(lo, hi);
    OwnBitsClear(ToBits(c, 16), ToBits(lo + 256 * hi, 16));
    ToBitsZero(16);
    if Register(c, [lo, hi]) == 0 { ToBitsInjective(c, lo + 256 * hi, 16); }
    if c == lo + 256 * hi { ToBitsInjective(Register(c, [lo, hi]), 0, 16); }
  }

  lemma ResidueOfFrame(c: nat, f: seq<Byte>)
    requires c < 0x10000 && |f| >= 2
    ensures Register(c, f) == 0 <==> f[|f| - 2] + 256 * (f[|f| - 1] as int) == Register(c, f[..|f| - 2])
  {
    hide Register, ToBits, Feed, FrameBits;
    var n := |f| - 2;
    var body, lo, hi := f[..n], f[n], f[n + 1];
    assert f == body + [lo, hi];
    RegisterBound(c, body);
    RegisterAppend(c, body, [lo, hi]);
    ResidueOfTrailer(Register(c, body), lo, hi);
  }

  /** `crc_ok` accepts a frame exactly when the checksum of the whole frame is zero. */
  lemma CrcOkIffZeroResidue(f: seq<Byte>)
    requires |f| >= 4
    ensures CrcOk(f) <==> Crc16(f) == 0
  {
    hide Register;
    ResidueOfFrame(0xFFFF, f);
  }

  /** What a sender appends is accepted, and nothing else would be. */
  lemma OnlyTheTrailerIsAccepted(body: seq<Byte>, lo: Byte, hi: Byte)
    requires |body| >= 2
    ensures CrcOk(body + [lo, hi]) <==> body + [lo, hi] == WithCrc(body)
  {
    hide Crc16, WithCrc;
    assert WithCrc(body) == body + Trailer(Crc16(body));
    var f, t := body + [lo, hi], Trailer(Crc16(body));
    assert f[..|f| - 2] == body && f[|f| - 2] == lo && f[|f| - 1] == hi;
    assert WithCrc(body)[|body|] == t[0] && WithCrc(body)[|body| + 1] == t[1];
  }

  // ---------- what the checksum detects ----------

  /** Bit strings that differ, but only within sixteen consecutive bits, leave different registers. */
  lemma BurstChangesRegister(r: Bits, a: Bits, b: Bits, i: nat)
    requires |r| == 16 && |a| == |b| && a != b && i <= |a|
    requires forall j :: 0 <= j < |a| && (j < i || j >= i + 16) ==> a[j] == b[j]
    ensures Feed(r, a) != Feed(r, b)
  {
    hide Feed;
    var e := if i + 16 <= |a| then i + 16 else |a|;
    var p, z := a[..i], a[e..];
    assert p == b[..i] && z == b[e..];
    SplitThree(a, i, e);
    SplitThree(b, i, e);
    WindowsDiffer(r, p, a[i..e], b[i..e], z);
  }

  lemma SplitThree(a: Bits, i: nat, e: nat)
    requires i <= e <= |a|
    ensures a == a[..i] + a[i..e] + a[e..]
  {
  }

  lemma WindowsDiffer(r: Bits, p: Bits, a: Bits, b: Bits, z: Bits)
    requires |r| == 16 && |a| == |b| <= 16 && a != b
    ensures Feed(r, p + a + z) != Feed(r, p + b + z)
  {
    hide Feed;
    var s := Feed(r, p);
    FeedAppend(r, p + a, z);
    FeedAppend(r, p + b, z);
    FeedAppend(r, p, a);
    FeedAppend(r, p, b);
    if Feed(Feed(s, a), z) == Feed(Feed(s, b), z) {
      FeedInjective(Feed(s, a), Feed(s, b), z);
      WindowInjective(s, a, b);
    }
  }

  lemma WindowInjective(s: Bits, a: Bits, b: Bits)
    requires |s| == 16 && |a| == |b| <= 16 && Feed(s, a) == Feed(s, b)
    ensures a == b
  {
    hide ShiftBits, ShiftBitsN, UnshiftBitsN, UnshiftBits, Feed;
    var x, y := XorBits(s, Load(a)), XorBits(s, Load(b));
    LoadThenShift(s, a);
    LoadThenShift(s, b);
    UnshiftShiftN(x, |a|);
    UnshiftShiftN(y, |a|);
    forall k | 0 <= k < |a|
      ensures a[k] == b[k]
    {
      assert x[k] == y[k];
    }
  }

  lemma {:induction false} FrameBitsAt(f: seq<Byte>, j: nat)
    requires j < 8 * |f|
    ensures FrameBits(f)[j] == ToBits(f[j / 8], 8)[j % 8]
  {
    if j >= 8 {
      FrameBitsAt(f[1..], j - 8);
      assert f[1..][(j - 8) / 8] == f[j / 8];
    }
  }

  lemma {:induction false} FrameBitsInjective(f: seq<Byte>, g: seq<Byte>)
    requires |f| == |g| && FrameBits(f) == FrameBits(g)
    ensures f == g
  {
    if f != [] {
      assert ToBits(f[0], 8) == FrameBits(f)[..8] == FrameBits(g)[..8] == ToBits(g[0], 8);
      assert FrameBits(f[1..]) == FrameBits(f)[8..] == FrameBits(g)[8..] == FrameBits(g[1..]);
      Pow2At16();
      ToBitsInjective(f[0], g[0], 8);
      FrameBitsInjective(f[1..], g[1..]);
      assert f == [f[0]] + f[1..] && g == [g[0]] + g[1..];
    }
  }

  lemma ResidueInBits(f: seq<Byte>)
    ensures Crc16(f) == 0 <==> Feed(ToBits(0xFFFF, 16), FrameBits(f)) == Zeros(16)
  {
    RegisterBound(0xFFFF, f);
    ToBitsZero(16);
    if ToBits(Crc16(f), 16) == Zeros(16) {
      Pow2At16();
      ToBitsInjective(Crc16(f), 0, 16);
    }
  }

  /** A good frame hit by any error burst of at most sixteen bits, wherever it starts, is rejected. */
  lemma BurstRejected(f: seq<Byte>, g: seq<Byte>, i: nat)
    requires CrcOk(f) && |g| == |f| && g != f && i <= 8 * |f|
    requires forall j :: 0 <= j < 8 * |f| && (j < i || j >= i + 16) ==> FrameBits(f)[j] == FrameBits(g)[j]
    ensures !CrcOk(g)
  {
    hide Register, Feed, ToBits, FrameBits;
    CrcOkIffZeroResidue(f);
    CrcOkIffZeroResidue(g);
    ResidueInBits(f);
    ResidueInBits(g);
    if FrameBits(f) == FrameBits(g) { FrameBitsInjective(f, g); }
    BurstChangesRegister(ToBits(0xFFFF, 16), FrameBits(f), FrameBits(g), i);
  }

  /** Any corruption of two neighbouring bytes, body or checksum, is rejected. */
  lemma TwoBytesCorruptedRejected(f: seq<Byte>, g: seq<Byte>, k: nat)
    requires CrcOk(f) && |g| == |f| && g != f && k < |f|
    requires forall m :: 0 <= m < |f| && m != k && m != k + 1 ==> f[m] == g[m]
    ensures !CrcOk(g)
  {
    forall j | 0 <= j < 8 * |f| && (j < 8 * k || j >= 8 * k + 16)
      ensures FrameBits(f)[j] == FrameBits(g)[j]
    {
      FrameBitsAt(f, j);
      FrameBitsAt(g, j);
      assert f[j / 8] == g[j / 8];
    }
    BurstRejected(f, g, 8 * k);
  }

  function Ones(bits: Bits): nat {
    if bits == [] then 0 else Ones(bits[1..]) + (if bits[0] then 1 else 0)
  }

  /** Parity: true for an odd number of ones. */
  function Odd(bits: Bits): bool {
    bits != [] && (bits[0] != Odd(bits[1..]))
  }

  lemma {:induction false} OddCountsOnes(bits: Bits)
    ensures Odd(bits) <==> Ones(bits) % 2 == 1
  {
    if bits != [] { OddCountsOnes(bits[1..]); }
  }

  lemma {:induction false} OddOfXor(a: Bits, b: Bits)
    requires |a| == |b|
    ensures Odd(XorBits(a, b)) == (Odd(a) != Odd(b))
  {
    if a != [] {
      OddOfXor(a[1..], b[1..]);
      assert XorBits(a, b)[1..] == XorBits(a[1..], b[1..]);
    }
  }

  lemma {:induction false} OddAppend(a: Bits, b: Bits)
    ensures Odd(a + b) == (Odd(a) != Odd(b))
  {
    if a == [] {
      assert a + b == b;
    } else {
      OddAppend(a[1..], b);
      assert (a + b)[1..] == a[1..] + b;
    }
  }

  lemma {:induction false} ZerosAreEven(w: nat)
    ensures !Odd(Zeros(w))
  {
    if w > 0 {
      assert Zeros(w)[1..] == Zeros(w - 1);
      ZerosAreEven(w - 1);
    }
  }

  lemma OddSingle(bit: bool)
    ensures Odd([bit]) == bit
  {
    assert [bit][1..] == [];
  }

  lemma PolynomialIsOdd()
    ensures Odd(PolyBits())
  {
    ZerosAreEven(12);
    OddSingle(true);
    OddSingle(false);
    hide Odd;
    OddAppend([true], Zeros(12));
    OddAppend([true] + Zeros(12), [true]);
    OddAppend([true] + Zeros(12) + [true], [false]);
    OddAppend([true] + Zeros(12) + [true] + [false], [true]);
    assert PolyBits() == [true] + Zeros(12) + [true] + [false] + [true];
  }

  /** The polynomial has an odd number of terms below its top one, so a shift keeps the parity. */
  lemma ShiftKeepsParity(r: Bits)
    requires |r| == 16
    ensures Odd(ShiftBits(r)) == Odd(r)
  {
    PolynomialIsOdd();
    ZerosAreEven(16);
    OddSingle(false);
    hide Odd, XorBits, PolyBits, Zeros;
    OddOfXor(Halve(r), Feedback(r[0]));
    OddAppend(r[1..], [false]);
    OddAppend([r[0]], r[1..]);
    OddSingle(r[0]);
    assert r == [r[0]] + r[1..];
  }

  lemma {:induction false} FeedParity(r: Bits, bits: Bits)
    requires |r| == 16
    ensures Odd(Feed(r, bits)) == (Odd(r) != Odd(bits))
  {
    hide ShiftBits;
    if bits != [] {
      var n := |bits| - 1;
      var x := Feed(r, bits[..n]);
      FeedParity(r, bits[..n]);
      ShiftKeepsParity(XorBits(x, Bit0(bits[n])));
      OddOfXor(x, Bit0(bits[n]));
      ZerosAreEven(15);
      assert Bit0(bits[n])[1..] == Zeros(15);
      OddAppend(bits[..n], [bits[n]]);
      OddSingle(bits[n]);
      assert bits == bits[..n] + [bits[n]];
    }
  }

  /** A good frame with an odd number of flipped bits, scattered anywhere, is rejected. */
  lemma OddErrorsRejected(f: seq<Byte>, g: seq<Byte>)
    requires CrcOk(f) && |g| == |f|
    requires Ones(XorBits(FrameBits(f), FrameBits(g))) % 2 == 1
    ensures !CrcOk(g)
  {
    hide Register, Feed, ToBits, Ones, FrameBits, XorBits, Odd;
    CrcOkIffZeroResidue(f);
    CrcOkIffZeroResidue(g);
    ResidueInBits(f);
    ResidueInBits(g);
    FeedParity(ToBits(0xFFFF, 16), FrameBits(f));
    FeedParity(ToBits(0xFFFF, 16), FrameBits(g));
    OddOfXor(FrameBits(f), FrameBits(g));
    OddCountsOnes(XorBits(FrameBits(f), FrameBits(g)));
  }
}
