/** The table-driven CRC engine (crc.h), for registers wider than 8 bits. */
module Crcs {
  import opened Gf2
  import opened LongDivision

  type Octet = x: nat | x < 256

  /** The bits of a message, each byte with its most significant bit first. */
  function Flatten(message: seq<Octet>): (m: Bits)
    ensures |m| == 8 * |message|
  {
    if message == [] then []
    else Flatten(message[..|message| - 1]) + ToBits(message[|message| - 1], 8)
  }

  /** Bit j of byte i comes at place 8 i + j. */
  lemma {:induction false} FlattenAt(message: seq<Octet>, i: nat, j: nat)
    requires i < |message| && j < 8
    ensures Flatten(message)[8 * i + j] <==> message[i] / Pow2(7 - j) % 2 == 1
  {
    hide ToBits, Pow2;
    var n := |message| - 1;
    if i < n {
      FlattenAt(message[..n], i, j);
    } else {
      ToBitsAt(message[n], 8, j);
    }
  }

  function ShiftLeft(r: Bits, k: nat): (s: Bits)
    requires k <= |r|
    ensures |s| == |r|
  {
    r[k..] + Zeros(k)
  }

  /** What the bits of one byte leave in a zero register. */
  function TableEntry(poly: Bits, d: Octet): (entry: Bits)
    requires 8 < |poly|
    ensures |entry| == |poly|
  {
    Feed(Zeros(|poly|), poly, ToBits(d, 8))
  }

  /** The checksum by long division, a bit at a time. */
  function Checksum(init: Bits, poly: Bits, final: Bits, message: seq<Octet>): (crc: Bits)
    requires |init| == |poly| == |final| > 0
    ensures |crc| == |init|
  {
    Xor(Feed(init, poly, Flatten(message)), final)
  }

  // ----- The table -----

  /** dividend << (width - 8) keeps the byte, aligned with the top. */
  lemma AlignedByte(d: Octet, w: nat)
    requires 8 < w
    ensures ShiftLeft(ToBits(d, w), w - 8) == Top(ToBits(d, 8), w)
  {
    assert Pow2(8) == 256;
    LeadingZeros(d, 8, w);
    assert (Zeros(w - 8) + ToBits(d, 8))[w - 8..] == ToBits(d, 8);
  }

  lemma EntryIsSteps(poly: Bits, d: Octet)
    requires 8 < |poly|
    ensures TableEntry(poly, d) == Steps(Top(ToBits(d, 8), |poly|), poly, 8)
  {
    FeedIsSteps(Zeros(|poly|), poly, ToBits(d, 8));
    XorZero(Top(ToBits(d, 8), |poly|));
  }

  /** (remainder >> (width - 8)) ^ octet, as a byte. */
  function TopByte(r: Bits, octet: Octet): (byte: Octet)
    requires 8 < |r|
    ensures ToBits(byte, 8) == Xor(r[..8], ToBits(octet, 8))
  {
    var x := Xor(r[..8], ToBits(octet, 8));
    ValueBound(x);
    assert Pow2(8) == 256;
    ValueRoundTrip(x);
    Value(x)
  }

  lemma Inject(r: Bits, m: Bits, x: Bits)
    requires 8 < |r| && |m| == 8 && x == Xor(r[..8], m)
    ensures Xor(Top(x, |r|), Zeros(8) + r[8..]) == Xor(r, Top(m, |r|))
  {
    var left, right := Xor(Top(x, |r|), Zeros(8) + r[8..]), Xor(r, Top(m, |r|));
    assert forall i :: 0 <= i < |r| ==> left[i] == right[i];
  }

  /** One table look-up does the work of eight single-bit steps. */
  lemma ByteStep(r: Bits, poly: Bits, octet: Octet)
    requires |r| == |poly| > 8
    ensures Xor(TableEntry(poly, TopByte(r, octet)), ShiftLeft(r, 8)) == Feed(r, poly, ToBits(octet, 8))
  {
    hide Steps, Feed, ToBits, TopByte, TableEntry;
    var m, x := ToBits(octet, 8), ToBits(TopByte(r, octet), 8);
    var low := Zeros(8) + r[8..];
    FeedIsSteps(r, poly, m);
    EntryIsSteps(poly, TopByte(r, octet));
    ShiftOut(r[8..], poly, 8);
    StepsXor(Top(x, |r|), low, poly, 8);
    Inject(r, m, x);
  }

  lemma NextByte(start: Bits, poly: Bits, message: seq<Octet>, offset: nat, r: Bits)
    requires |start| == |poly| > 8 && offset < |message| && r == Feed(start, poly, Flatten(message[..offset]))
    ensures Xor(TableEntry(poly, TopByte(r, message[offset])), ShiftLeft(r, 8))
         == Feed(start, poly, Flatten(message[..offset + 1]))
  {
    hide Feed, TopByte, TableEntry, ShiftLeft;
    ByteStep(r, poly, message[offset]);
    assert message[..offset + 1][..offset] == message[..offset];
    FeedConcat(start, poly, Flatten(message[..offset]), ToBits(message[offset], 8));
  }

  lemma FeedNothing(start: Bits, poly: Bits)
    requires |start| == |poly| > 0
    ensures Feed(start, poly, Flatten([])) == start
  {
  }

  // ----- Crc -----

  class Crc {
    const width: nat
    var polynomial: Bits
    var initialRemainder: Bits
    var finalXorValue: Bits
    var remainder: Bits
    const crcTable: array<Bits>

    ghost predicate Words()
      reads this
    {
      8 < width && crcTable.Length == 256 &&
      |polynomial| == |initialRemainder| == |finalXorValue| == |remainder| == width
    }

    ghost predicate Valid()
      reads this, crcTable
    {
      Words() && forall d: Octet :: crcTable[d] == TableEntry(polynomial, d)
    }

    /** `leftover` is the indeterminate value the constructor leaves in the running remainder. */
    constructor (polynomial: Bits, initialRemainder: Bits, finalXorValue: Bits, leftover: Bits)
      requires |polynomial| == |initialRemainder| == |finalXorValue| == |leftover| > 8
      ensures Valid() && fresh(crcTable) && width == |polynomial|
      ensures this.polynomial == polynomial && this.initialRemainder == initialRemainder
      ensures this.finalXorValue == finalXorValue && remainder == leftover
    {
      width := |polynomial|;
      this.polynomial := polynomial;
      this.initialRemainder := initialRemainder;
      this.finalXorValue := finalXorValue;
      remainder := leftover;
      crcTable := new Bits[256];
      new;
      CrcInit();
    }

    method CrcInit()
      requires Words()
      modifies crcTable
      ensures Valid()
    {
      var dividend := 0;
      while dividend < 256
        invariant 0 <= dividend <= 256
        invariant forall d: Octet :: d < dividend ==> crcTable[d] == TableEntry(polynomial, d)
      {
        var r := ShiftLeft(ToBits(dividend, width), width - 8);
        AlignedByte(dividend, width);
        var bit := 0;
        while bit < 8
          invariant 0 <= bit <= 8
          invariant r == Steps(Top(ToBits(dividend, 8), width), polynomial, bit)
        {
          if r[0] {
            r := Xor(ShiftLeft(r, 1), polynomial);
          } else {
            r := ShiftLeft(r, 1);
          }
          bit := bit + 1;
        }
        EntryIsSteps(polynomial, dividend);
        crcTable[dividend] := r;
        dividend := dividend + 1;
      }
    }

    method Build(polynomial: Bits, initialRemainder: Bits, finalXorValue: Bits)
      requires Words() && |polynomial| == |initialRemainder| == |finalXorValue| == width
      modifies this, crcTable
      ensures Valid() && remainder == old(remainder)
      ensures this.polynomial == polynomial && this.initialRemainder == initialRemainder
      ensures this.finalXorValue == finalXorValue
    {
      this.polynomial := polynomial;
      this.initialRemainder := initialRemainder;
      this.finalXorValue := finalXorValue;
      CrcInit();
    }

    method CrcCompute(message: seq<Octet>) returns (crc: Bits)
      requires Valid()
      ensures crc == Checksum(initialRemainder, polynomial, finalXorValue, message)
    {
      hide Feed, Flatten, Xor, ShiftLeft, TopByte, TableEntry;
      var r := initialRemainder;
      FeedNothing(initialRemainder, polynomial);
      var offset := 0;
      while offset < |message|
        invariant 0 <= offset <= |message|
        invariant |r| == width && r == Feed(initialRemainder, polynomial, Flatten(message[..offset]))
      {
        var byte := TopByte(r, message[offset]);
        NextByte(initialRemainder, polynomial, message, offset, r);
        r := Xor(crcTable[byte], ShiftLeft(r, 8));
        offset := offset + 1;
      }
      assert message[..offset] == message;
      crc := Xor(r, finalXorValue);
    }

    /** The overload that carries the remainder from call to call. */
    method CrcComputePart(message: seq<Octet>, reinit: bool) returns (crc: Bits)
      requires Valid()
      modifies this`remainder
      ensures Valid()
      ensures remainder == Feed(if reinit then initialRemainder else old(remainder), polynomial, Flatten(message))
      ensures crc == Xor(remainder, finalXorValue)
    {
      hide Feed, Flatten, Xor, ShiftLeft, TopByte, TableEntry;
      if reinit {
        remainder := initialRemainder;
      }
      ghost var start := remainder;
      FeedNothing(start, polynomial);
      var offset := 0;
      while offset < |message|
        invariant 0 <= offset <= |message|
        invariant Valid() && remainder == Feed(start, polynomial, Flatten(message[..offset]))
      {
        var byte := TopByte(remainder, message[offset]);
        NextByte(start, polynomial, message, offset, remainder);
        remainder := Xor(crcTable[byte], ShiftLeft(remainder, 8));
        offset := offset + 1;
      }
      assert message[..offset] == message;
      crc := Xor(remainder, finalXorValue);
    }
  }

  // ----- What the checksum is worth -----

  /** The checksum is the remainder of init x^(8n) + M x^W modulo x^W + poly. */
  lemma ChecksumIsRemainder(init: Bits, poly: Bits, final: Bits, message: seq<Octet>)
    requires |init| == |poly| == |final| > 0
    ensures IsRemainder(Dividend(init, Flatten(message)), Generator(poly),
                        Xor(Checksum(init, poly, final, message), final))
  {
    hide Xor, Feed, IsRemainder;
    FeedIsRemainder(init, poly, Flatten(message));
    XorCancel(Feed(init, poly, Flatten(message)), final);
  }

  lemma FlattenSnoc(message: seq<Octet>, byte: Octet)
    ensures Flatten(message + [byte]) == Flatten(message) + ToBits(byte, 8)
  {
    hide ToBits;
    assert (message + [byte])[..|message|] == message;
  }

  lemma FlattenConcatLast(a: seq<Octet>, front: seq<Octet>, byte: Octet)
    requires Flatten(a + front) == Flatten(a) + Flatten(front)
    ensures Flatten(a + (front + [byte])) == Flatten(a) + Flatten(front + [byte])
  {
    hide Flatten, ToBits;
    FlattenSnoc(a + front, byte);
    FlattenSnoc(front, byte);
    assert a + (front + [byte]) == (a + front) + [byte];
  }

  lemma {:induction false} FlattenConcat(a: seq<Octet>, b: seq<Octet>)
    ensures Flatten(a + b) == Flatten(a) + Flatten(b)
  {
    if b == [] {
      assert a + b == a;
    } else {
      hide Flatten;
      var front, last := b[..|b| - 1], b[|b| - 1];
      FlattenConcat(a, front);
      FlattenConcatLast(a, front, last);
      assert b == front + [last];
    }
  }

  function Join(parts: seq<seq<Octet>>): (message: seq<Octet>) {
    if parts == [] then [] else Join(parts[..|parts| - 1]) + parts[|parts| - 1]
  }

  /** The running remainder after the calls CrcComputePart(parts[i], i == 0). */
  function Running(init: Bits, leftover: Bits, poly: Bits, parts: seq<seq<Octet>>): (r: Bits)
    requires |init| == |poly| == |leftover| > 0
    ensures |r| == |init|
  {
    if parts == [] then leftover
    else
      var n := |parts| - 1;
      Feed(if n == 0 then init else Running(init, leftover, poly, parts[..n]), poly, Flatten(parts[n]))
  }

  /** A message may be cut into any parts. */
  lemma {:induction false} PartsAgree(init: Bits, leftover: Bits, poly: Bits, final: Bits, parts: seq<seq<Octet>>)
    requires |init| == |poly| == |leftover| == |final| > 0 && parts != []
    ensures Xor(Running(init, leftover, poly, parts), final) == Checksum(init, poly, final, Join(parts))
    ensures Running(init, leftover, poly, parts) == Feed(init, poly, Flatten(Join(parts)))
  {
    hide Feed, Flatten, Xor;
    var n := |parts| - 1;
    FlattenConcat(Join(parts[..n]), parts[n]);
    FeedConcat(init, poly, Flatten(Join(parts[..n])), Flatten(parts[n]));
    if n == 0 {
      assert Join(parts[..0]) == [] && [] + parts[0] == parts[0];
    } else {
      PartsAgree(init, leftover, poly, final, parts[..n]);
    }
  }

  /** The bytes of a word, most significant first. */
  function BigEndian(word: Bits): (bytes: seq<Octet>)
    requires |word| % 8 == 0
  {
    if word == [] then []
    else
      ValueBound(word[|word| - 8..]);
      assert Pow2(8) == 256;
      BigEndian(word[..|word| - 8]) + [Value(word[|word| - 8..])]
  }

  lemma LastByte(high: Bits, low: Bits, bytes: seq<Octet>)
    requires |low| == 8 && Flatten(bytes) == high
    ensures Value(low) < 256 && Flatten(bytes + [Value(low)]) == high + low
  {
    hide Flatten, ToBits, Value;
    ValueBound(low);
    assert Pow2(8) == 256;
    FlattenSnoc(bytes, Value(low));
    ValueRoundTrip(low);
  }

  lemma BigEndianLast(high: Bits, low: Bits)
    requires |high| % 8 == 0 && |low| == 8
    ensures Value(low) < 256 && BigEndian(high + low) == BigEndian(high) + [Value(low)]
  {
    ValueBound(low);
    assert Pow2(8) == 256;
    var word := high + low;
    assert word[|word| - 8..] == low && word[..|word| - 8] == high;
    hide Value;
  }

  lemma {:induction false} BigEndianFlattens(word: Bits)
    requires |word| % 8 == 0
    ensures Flatten(BigEndian(word)) == word
  {
    hide Value;
    if word != [] {
      hide Flatten, BigEndian;
      var n := |word| - 8;
      var high, low := word[..n], word[n..];
      BigEndianFlattens(high);
      LastByte(high, low, BigEndian(high));
      BigEndianLast(high, low);
      assert word == high + low;
    }
  }

  /** Appending the big-endian checksum leaves a residue that does not depend on the message. */
  lemma ResidueIndependent(init: Bits, poly: Bits, final: Bits, message: seq<Octet>)
    requires |init| == |poly| == |final| > 0 && |init| % 8 == 0
    ensures Checksum(init, poly, final, message + BigEndian(Checksum(init, poly, final, message)))
         == Xor(Steps(final, poly, |poly|), final)
  {
    hide Feed, Steps, Xor, BigEndian, Flatten;
    var crc := Checksum(init, poly, final, message);
    FlattenConcat(message, BigEndian(crc));
    BigEndianFlattens(crc);
    Residue(init, poly, Flatten(message), final);
  }

  lemma SameChecksum(init: Bits, poly: Bits, final: Bits, message: seq<Octet>, message': seq<Octet>)
    requires |init| == |poly| == |final| > 0
    ensures Checksum(init, poly, final, message) == Checksum(init, poly, final, message')
       <==> Feed(init, poly, Flatten(message)) == Feed(init, poly, Flatten(message'))
  {
    hide Feed, Flatten, Xor;
    XorCancel(Feed(init, poly, Flatten(message)), final);
    XorCancel(Feed(init, poly, Flatten(message')), final);
  }

  /** Any change confined to W consecutive bits alters the checksum, if the polynomial is odd. */
  lemma BurstDetected(init: Bits, poly: Bits, final: Bits, message: seq<Octet>, message': seq<Octet>,
                      before: nat, burst: Bits, after: nat)
    requires |init| == |poly| == |final| > 0 && poly[|poly| - 1] && |message| == |message'|
    requires Xor(Flatten(message), Flatten(message')) == Zeros(before) + burst + Zeros(after)
    requires |burst| <= |poly| && burst != Zeros(|burst|)
    ensures Checksum(init, poly, final, message) != Checksum(init, poly, final, message')
  {
    hide Feed, Flatten;
    BurstChangesRegister(init, poly, Flatten(message), Flatten(message'), before, burst, after);
    SameChecksum(init, poly, final, message, message');
  }

  /** Any odd number of changed bits alters the checksum, if the polynomial has odd weight. */
  lemma OddErrorsDetected(init: Bits, poly: Bits, final: Bits, message: seq<Octet>, message': seq<Octet>)
    requires |init| == |poly| == |final| > 0 && Odd(poly) && |message| == |message'|
    requires Odd(Xor(Flatten(message), Flatten(message')))
    ensures Checksum(init, poly, final, message) != Checksum(init, poly, final, message')
  {
    hide Feed, Flatten;
    OddChangesRegister(init, poly, Flatten(message), Flatten(message'));
    SameChecksum(init, poly, final, message, message');
  }

  /** A changed message keeps its checksum exactly if the generator divides the change times x^W. */
  lemma Undetected(init: Bits, poly: Bits, final: Bits, message: seq<Octet>, message': seq<Octet>)
    requires |init| == |poly| == |final| > 0 && |message| == |message'|
    ensures Checksum(init, poly, final, message) == Checksum(init, poly, final, message')
       <==> IsRemainder(Xor(Flatten(message), Flatten(message')) + Zeros(|init|), Generator(poly), Zeros(|init|))
  {
    hide Feed, Flatten, Xor, IsRemainder, Checksum;
    SameChecksum(init, poly, final, message, message');
    SameRegister(init, poly, Flatten(message), Flatten(message'));
  }
}
