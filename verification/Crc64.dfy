/**
 CRC-64 (Jones polynomial, reflected): the bit-at-a-time definition, its loop,
 and the table-driven routine selected for the machine's byte order.
 */
module Crc64 {

  import opened Slicing
  import opened Crc64Poly
  import opened Crc64Words
  import opened Crcspeed
  import opened Gf2
  import opened Memory

  // ---------------------------------------------------------------------------
  // Definition
  // ---------------------------------------------------------------------------

  /** The register after the message: every byte fed bit by bit, lowest bit first. */
  function Register(crc: bv64, s: seq<bv8>): bv64 {
    if s == [] then crc else Fed(Register(crc, s[..|s| - 1]), BitsOf(s[|s| - 1]))
  }

  function Crc64Of(crc: bv64, s: seq<bv8>): bv64 { Reflect(Register(crc, s)) }

  /** All bits of a message, in the order they are fed. */
  ghost function AllBits(s: seq<bv8>): seq<bool> {
    if s == [] then [] else AllBits(s[..|s| - 1]) + BitsOf(s[|s| - 1])
  }

  /** The message as a polynomial, 64 powers up, behind what the register held before. */
  ghost function MessagePoly(crc: bv64, s: seq<bv8>): Poly {
    Sum(Raised(PolyOf(crc), |AllBits(s)|), Product(AllBits(s), {64}))
  }

  lemma {:induction false} FedConcat(crc: bv64, a: seq<bool>, b: seq<bool>)
    ensures Fed(crc, a + b) == Fed(Fed(crc, a), b)
    decreases |b|
  {
    hide FeedBit;
    if b == [] {
      assert a + b == a;
    } else {
      assert (a + b)[..|a + b| - 1] == a + b[..|b| - 1];
      FedConcat(crc, a, b[..|b| - 1]);
    }
  }

  lemma {:induction false} RegisterIsFed(crc: bv64, s: seq<bv8>)
    ensures Register(crc, s) == Fed(crc, AllBits(s))
  {
    hide Fed, BitsOf;
    if s == [] {
      NothingFed(crc);
    } else {
      var n := |s| - 1;
      RegisterIsFed(crc, s[..n]);
      FedConcat(crc, AllBits(s[..n]), BitsOf(s[n]));
    }
  }

  lemma NothingFed(crc: bv64)
    ensures Fed(crc, []) == crc
  {
  }

  /** The reflected checksum is the remainder of the message after division by the Jones polynomial. */
  lemma {:induction false} Crc64IsRemainder(crc: bv64, s: seq<bv8>)
    ensures IsRemainder(MessagePoly(crc, s), JONES, PolyOf(Reflect(Crc64Of(crc, s))))
  {
    hide Reflect, Fed, PolyOf, Register, IsRemainder, AllBits;
    ReflectInvolution(Register(crc, s));
    RegisterIsFed(crc, s);
    FedIsRemainder(crc, AllBits(s));
  }

  /** The reflected register follows the byte steps of the table-driven routines. */
  lemma {:induction false} MirrorRegister(crc: bv64, s: seq<bv8>)
    ensures Reflect(Register(crc, s)) == After(Down8, Reflect(crc), s)
  {
    hide Reflect, Down, Down8;
    if s != [] {
      var n := |s| - 1;
      MirrorRegister(crc, s[..n]);
      MirrorByte(Register(crc, s[..n]), s[n]);
      AfterByte(Down8, Reflect(crc), s, n);
      assert s[..n + 1] == s;
    }
  }

  lemma {:induction false} FastIsSlow(crc: bv64, s: seq<bv8>)
    ensures After(Down8, crc, s) == Crc64Of(Reflect(crc), s)
  {
    MirrorRegister(Reflect(crc), s);
    ReflectInvolution(crc);
  }

  lemma CheckByte1()
    ensures Down8(Xor(0x0000000000000000, Word(0x31))) == 0xfdc17184a9f739fa
  {
  }

  lemma CheckByte2()
    ensures Down8(Xor(0xfdc17184a9f739fa, Word(0x32))) == 0xe10364513a98ed96
  {
  }

  lemma CheckByte3()
    ensures Down8(Xor(0xe10364513a98ed96, Word(0x33))) == 0xd5bcfb814479b1ac
  {
  }

  lemma CheckByte4()
    ensures Down8(Xor(0xd5bcfb814479b1ac, Word(0x34))) == 0x43593c5dcda521f0
  {
  }

  lemma CheckByte5()
    ensures Down8(Xor(0x43593c5dcda521f0, Word(0x35))) == 0xf0758513239c7e0d
  {
  }

  lemma CheckByte6()
    ensures Down8(Xor(0xf0758513239c7e0d, Word(0x36))) == 0xa3a90925b2ab4903
  {
  }

  lemma CheckByte7()
    ensures Down8(Xor(0xa3a90925b2ab4903, Word(0x37))) == 0x47824d362431ad45
  {
  }

  lemma CheckByte8()
    ensures Down8(Xor(0x47824d362431ad45, Word(0x38))) == 0x49ec20b315e86dc2
  {
  }

  lemma CheckByte9()
    ensures Down8(Xor(0x49ec20b315e86dc2, Word(0x39))) == 0xe9c6d914c4b8d9ca
  {
  }

  lemma CheckStep(s: seq<bv8>, k: nat, before: bv64, after: bv64)
    requires k < |s| && After(Down8, 0, s[..k]) == before && Down8(Xor(before, Word(s[k]))) == after
    ensures After(Down8, 0, s[..k + 1]) == after
  {
    hide After, Down8, Xor, Word;
    AfterByte(Down8, 0, s, k);
  }

  lemma {:induction false} FirstDigits(s: seq<bv8>)
    requires |s| >= 3 && s[0] == 0x31 && s[1] == 0x32 && s[2] == 0x33 && After(Down8, 0, s[..0]) == 0x0000000000000000
    ensures After(Down8, 0, s[..3]) == 0xd5bcfb814479b1ac
  {
    hide After, Down8, Xor, Word;
    CheckByte1();
    CheckStep(s, 0, 0x0000000000000000, 0xfdc17184a9f739fa);
    CheckByte2();
    CheckStep(s, 1, 0xfdc17184a9f739fa, 0xe10364513a98ed96);
    CheckByte3();
    CheckStep(s, 2, 0xe10364513a98ed96, 0xd5bcfb814479b1ac);
  }

  lemma {:induction false} MiddleDigits(s: seq<bv8>)
    requires |s| >= 6 && s[3] == 0x34 && s[4] == 0x35 && s[5] == 0x36 && After(Down8, 0, s[..3]) == 0xd5bcfb814479b1ac
    ensures After(Down8, 0, s[..6]) == 0xa3a90925b2ab4903
  {
    hide After, Down8, Xor, Word;
    CheckByte4();
    CheckStep(s, 3, 0xd5bcfb814479b1ac, 0x43593c5dcda521f0);
    CheckByte5();
    CheckStep(s, 4, 0x43593c5dcda521f0, 0xf0758513239c7e0d);
    CheckByte6();
    CheckStep(s, 5, 0xf0758513239c7e0d, 0xa3a90925b2ab4903);
  }

  lemma {:induction false} LastDigits(s: seq<bv8>)
    requires |s| >= 9 && s[6] == 0x37 && s[7] == 0x38 && s[8] == 0x39 && After(Down8, 0, s[..6]) == 0xa3a90925b2ab4903
    ensures After(Down8, 0, s[..9]) == 0xe9c6d914c4b8d9ca
  {
    hide After, Down8, Xor, Word;
    CheckByte7();
    CheckStep(s, 6, 0xa3a90925b2ab4903, 0x47824d362431ad45);
    CheckByte8();
    CheckStep(s, 7, 0x47824d362431ad45, 0x49ec20b315e86dc2);
    CheckByte9();
    CheckStep(s, 8, 0x49ec20b315e86dc2, 0xe9c6d914c4b8d9ca);
  }

  lemma NothingAfter(s: seq<bv8>)
    ensures After(Down8, 0, s[..0]) == 0
  {
    hide Down8;
  }

  /** The digits from 1 to 9. */
  function Digits(): seq<bv8> { [0x31, 0x32, 0x33, 0x34, 0x35, 0x36, 0x37, 0x38, 0x39] }

  /** The checksum that the code gives as its check. */
  lemma {:induction false} CheckValue()
    ensures Crc64Of(0, [0x31, 0x32, 0x33, 0x34, 0x35, 0x36, 0x37, 0x38, 0x39]) == 0xe9c6d914c4b8d9ca
  {
    hide Down8, Reflect, After, Register;
    MirrorRegister(0, Digits());
    ReflectZero();
    NothingAfter(Digits());
    FirstDigits(Digits());
    MiddleDigits(Digits());
    LastDigits(Digits());
    assert Digits()[..9] == Digits();
  }

  /** Checksumming a and then b in two calls is checksumming a + b in one. */
  lemma {:induction false} TwoCalls(crc: bv64, a: seq<bv8>, b: seq<bv8>)
    ensures Crc64Of(Reflect(Crc64Of(Reflect(crc), a)), b) == Crc64Of(Reflect(crc), a + b)
  {
    FastIsSlow(crc, a);
    FastIsSlow(After(Down8, crc, a), b);
    FastIsSlow(crc, a + b);
    AfterConcat(Down8, crc, a, b);
  }

  // ---------------------------------------------------------------------------
  // The slow loops
  // ---------------------------------------------------------------------------

  function Double128(z: bv128): bv128 { z << 1 }
  function Up8(z: bv128): bv128 { z << 8 }
  function High(z: bv128): bv64 { (z >> 64) as bv64 }
  function Low(z: bv128): bv64 { (z & 0xffffffffffffffff) as bv64 }
  function Wide(w: bv64): bv128 { w as bv128 }

  /** The top n bits of w, moved to the bottom. */
  ghost function TopBits(w: bv64, n: nat): bv64 { High(Iter(Double128, n, Wide(w))) }

  lemma FourDoubles(a: bv128)
    ensures Double128(Double128(Double128(Double128(a)))) == a << 4
  {
  }

  lemma FourTwice(a: bv128)
    ensures (a << 4) << 4 == Up8(a)
  {
  }

  lemma {:induction false} EightDoubles(a: bv128)
    ensures Double128(Double128(Double128(Double128(Double128(Double128(Double128(Double128(a)))))))) == Up8(a)
  {
    hide Double128, Up8;
    FourDoubles(a);
    FourDoubles(a << 4);
    FourTwice(a);
  }

  lemma {:induction false} EightBytesUp(w: bv64)
    ensures High(Up8(Up8(Up8(Up8(Up8(Up8(Up8(Up8(Wide(w)))))))))) == w
  {
  }

  lemma {:induction false} AllTopBits(w: bv64)
    ensures TopBits(w, 64) == w
  {
    forall y ensures Iter(Double128, 8, y) == Up8(y) {
      IterEight(Double128, y);
      EightDoubles(y);
    }
    IterSixtyFour(Double128, Up8, Wide(w));
    EightBytesUp(w);
  }

  lemma {:induction false} DoubleWide(z: bv128)
    ensures High(Double128(z)) == TakeBit(High(z), Low(z) >> 63)
    ensures Low(Double128(z)) == Double(Low(z))
  {
  }

  lemma {:induction false} ReflectHalf(d: bv64)
    ensures Reflect(Half(d)) == Double(Reflect(d))
    ensures Reflect(d) >> 63 == LowBit(d)
  {
  }

  lemma {:induction false} WideParts(w: bv64)
    ensures High(Wide(w)) == 0 && Low(Wide(w)) == w
    ensures TakeBit(0, w & 1) == w & 1
  {
  }

  function TakeBit(r: bv64, bit: bv64): bv64 { (r << 1) | bit }

  lemma {:induction false} ReflectStep(z: bv128, i: nat, d: bv64)
    requires i > 0 && Low(Iter(Double128, i - 1, z)) == Reflect(d)
    ensures Low(Iter(Double128, i, z)) == Reflect(Half(d))
    ensures High(Iter(Double128, i + 1, z)) == TakeBit(High(Iter(Double128, i, z)), LowBit(Half(d)))
  {
    hide Double128, High, Low, Reflect, Half, LowBit, TakeBit;
    IterLast(Double128, i - 1, z);
    IterLast(Double128, i, z);
    DoubleWide(Iter(Double128, i - 1, z));
    DoubleWide(Iter(Double128, i, z));
    ReflectHalf(d);
    ReflectHalf(Half(d));
  }

  /** Reverses the low dataLen bits of data, one shift per bit. */
  method CrcReflect(data: bv64, dataLen: nat) returns (ret: bv64)
    ensures dataLen != 0 ==> ret == TopBits(Reflect(data), dataLen)
    ensures dataLen == 0 ==> ret == LowBit(data)
  {
    var d := data;
    ret := LowBit(d);
    if dataLen == 0 {
      return;
    }
    ghost var z := Wide(Reflect(data));
    WideParts(Reflect(data));
    WideParts(data);
    DoubleWide(z);
    ReflectHalf(data);
    assert Iter(Double128, 1, z) == Double128(z);
    for i := 1 to dataLen
      invariant Low(Iter(Double128, i - 1, z)) == Reflect(d)
      invariant ret == High(Iter(Double128, i, z))
    {
      ReflectStep(z, i, d);
      d := Half(d);
      ret := TakeBit(ret, LowBit(d));
    }
  }

  function MaskOf(k: nat): bv8 {
    match k
    case 0 => 0x01 case 1 => 0x02 case 2 => 0x04 case 3 => 0x08
    case 4 => 0x10 case 5 => 0x20 case 6 => 0x40 case 7 => 0x80
    case _ => 0
  }

  predicate Masked(c: bv8, i: bv8) { c & i != 0 }
  function NextMask(i: bv8): bv8 { i << 1 }

  lemma NextMaskOf(k: nat)
    ensures k < 8 <==> MaskOf(k) != 0
    ensures k < 8 ==> NextMask(MaskOf(k)) == MaskOf(k + 1)
  {
  }

  lemma MaskBit(c: bv8, k: nat)
    requires k < 8
    ensures BitsOf(c)[k] == Masked(c, MaskOf(k))
  {
  }

  method SlowBit(crc: bv64, on: bool) returns (r: bv64)
    ensures r == FeedBit(crc, on)
  {
    var bit := crc & TOP_BIT != 0;
    if on {
      bit := !bit;
    }
    r := Double(crc);
    if bit {
      r := Xor(r, POLY);
    } else {
      XorZero(r);
    }
  }

  method SlowByte(crc: bv64, c: bv8) returns (r: bv64)
    ensures r == Fed(crc, BitsOf(c))
  {
    r := crc;
    var i: bv8 := 0x01;
    ghost var k: nat := 0;
    ghost var bits := BitsOf(c);
    NextMaskOf(0);
    while i != 0
      invariant k <= 8 && i == MaskOf(k)
      invariant r == Fed(crc, bits[..k])
      decreases 8 - k
    {
      NextMaskOf(k);
      MaskBit(c, k);
      assert bits[..k + 1][..k] == bits[..k];
      r := SlowBit(r, Masked(c, i));
      i := NextMask(i);
      k := k + 1;
    }
    NextMaskOf(k);
    assert bits[..8] == bits;
  }

  method SlowCrc64(crc: bv64, data: seq<bv8>) returns (r: bv64)
    ensures r == Crc64Of(crc, data)
    ensures IsRemainder(MessagePoly(crc, data), JONES, PolyOf(Reflect(r)))
  {
    hide IsRemainder, MessagePoly, PolyOf;
    Crc64IsRemainder(crc, data);
    r := crc;
    assert data[..0] == [];
    for offset := 0 to |data|
      invariant r == Register(crc, data[..offset])
    {
      assert data[..offset + 1][..offset] == data[..offset];
      r := SlowByte(r, data[offset]);
    }
    assert data[..|data|] == data;
    AllTopBits(Reflect(r));
    r := CrcReflect(r, 64);
  }

  // ---------------------------------------------------------------------------
  // The fast routine
  // ---------------------------------------------------------------------------

  ghost predicate Initialised(bigEndian: bool, table: array2<bv64>)
    reads table
  {
    if bigEndian then BigTable(Down8, table) else LittleTable(Down8, table)
  }

  lemma ReflectZero()
    ensures Reflect(0) == 0
  {
  }

  lemma OneByteStep(b: bv8)
    ensures Crc64Of(0, [b]) == Down8(Word(b))
  {
    hide Down8, Reflect, Word, Xor;
    MirrorRegister(0, [b]);
    ReflectZero();
    AfterByte(Down8, 0, [b], 0);
    assert [b][..1] == [b] && [b][..0] == [];
    XorZero(Word(b));
  }

  method Crc64Init(bigEndian: bool, table: array2<bv64>)
    requires table.Length0 == 8 && table.Length1 == 256
    modifies table
    ensures Initialised(bigEndian, table)
  {
    Down8Slides();
    forall b: bv8 ensures Crc64Of(0, [b]) == Down8(Word(b)) { OneByteStep(b); }
    if bigEndian {
      BigInit(Crc64Of, Down8, table);
    } else {
      LittleInit(Crc64Of, Down8, table);
    }
  }

  /** The table-driven CRC computes the bit-at-a-time one, whatever the byte order and alignment. */
  method Compute(bigEndian: bool, table: array2<bv64>, crc: bv64, s: seq<bv8>, address: nat) returns (r: bv64)
    requires Initialised(bigEndian, table)
    ensures r == Crc64Of(Reflect(crc), s)
    ensures IsRemainder(MessagePoly(Reflect(crc), s), JONES, PolyOf(Reflect(r)))
  {
    hide IsRemainder, MessagePoly, PolyOf;
    Down8Slides();
    FastIsSlow(crc, s);
    Crc64IsRemainder(Reflect(crc), s);
    if bigEndian {
      r := Big(Down8, table, crc, s, address);
    } else {
      r := Little(Down8, table, crc, s, address);
    }
  }
}
