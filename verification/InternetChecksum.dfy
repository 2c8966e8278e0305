/** The Internet checksum as A4/41.c computes it: one sum in a 64-bit accumulator, then two
    straight-line folds, against the fold-until-no-carry loop of section 4.1 of RFC 1071. */
module InternetChecksum {

  newtype byte = x: int | 0 <= x < 256

  datatype Order = LittleEndian | BigEndian

  // ---------- words and their raw sum ----------

  /** The 16-bit word the machine reads from two consecutive bytes. */
  function Word(o: Order, first: byte, second: byte): (w: nat)
    ensures w < 65536
  {
    match o
    case LittleEndian => first as nat + 256 * second as nat
    case BigEndian => 256 * first as nat + second as nat
  }

  /** The words of a buffer; an odd last byte is completed by a zero byte after it. */
  function Words(o: Order, b: seq<byte>): seq<nat> {
    if |b| == 0 then []
    else if |b| == 1 then [Word(o, b[0], 0)]
    else [Word(o, b[0], b[1])] + Words(o, b[2..])
  }

  function Sum(ws: seq<nat>): nat {
    if ws == [] then 0 else ws[0] + Sum(ws[1..])
  }

  function RawSum(o: Order, b: seq<byte>): nat {
    Sum(Words(o, b))
  }

  // ---------- folding the carries ----------

  /** The code's two folds; only the low 16 bits of the second one are kept. */
  function TwoFolds(sum: nat): nat {
    var f := sum / 65536 + sum % 65536;
    (f + f / 65536) % 65536
  }

  /** The loop of RFC 1071, section 4.1. */
  function FoldLoop(sum: nat): (v: nat)
    ensures v < 65536
    decreases sum
  {
    if sum < 65536 then sum else FoldLoop(sum / 65536 + sum % 65536)
  }

  function Csum(o: Order, b: seq<byte>): (c: nat)
    ensures c < 65536
  {
    65535 - TwoFolds(RawSum(o, b))
  }

  function Rfc1071(o: Order, b: seq<byte>): nat {
    65535 - FoldLoop(RawSum(o, b))
  }

  /** End-around-carry arithmetic: a residue modulo 65535 in which zero stands for zero only. */
  lemma {:induction false} FoldLoopValue(sum: nat)
    ensures FoldLoop(sum) < 65536
    ensures FoldLoop(sum) % 65535 == sum % 65535
    ensures FoldLoop(sum) == 0 <==> sum == 0
    decreases sum
  {
    if sum >= 65536 {
      var f := sum / 65536 + sum % 65536;
      FoldLoopValue(f);
      assert sum == f + 65535 * (sum / 65536);
      SameResidue(f, sum / 65536);
    }
  }

  lemma SameResidue(x: int, k: int)
    ensures (x + 65535 * k) % 65535 == x % 65535
  {
  }

  /** The residue and being zero or not determine a folded value. */
  lemma FoldLoopUnique(sum: nat, v: nat)
    requires v < 65536 && v % 65535 == sum % 65535 && (v == 0 <==> sum == 0)
    ensures FoldLoop(sum) == v
  {
    FoldLoopValue(sum);
  }

  /** Two folds do what the loop does exactly when the second one carries nothing out. */
  lemma TwoFoldsExact(sum: nat)
    requires sum < 0x1_0000_0000_0000
    ensures var f := sum / 65536 + sum % 65536;
      TwoFolds(sum) == FoldLoop(sum) <==> f % 65536 + f / 65536 < 65536
  {
    var f := sum / 65536 + sum % 65536;
    var lo, hi := f % 65536, f / 65536;
    var t := (f + hi) % 65536;
    assert f == 65536 * hi + lo;
    assert sum == f + 65535 * (sum / 65536);
    SameResidue(f, sum / 65536);
    SameResidue(lo + hi, hi);
    assert hi <= 65536;
    if lo + hi < 65536 {
      assert f + hi == 65536 * hi + (lo + hi);
      assert t == lo + hi;
      FoldLoopUnique(sum, lo + hi);
    } else {
      assert f + hi == 65536 * (hi + 1) + (lo + hi - 65536);
      assert lo + hi - 65536 < 65536;
      assert t == lo + hi - 65536;
      FoldLoopValue(sum);
      SameResidue(lo + hi - 65535, 1);
      assert (lo + hi - 65535) % 65535 == sum % 65535;
      assert t % 65535 != (t + 1) % 65535;
    }
  }

  // ---------- how far two folds suffice ----------

  function Rest(b: seq<byte>): seq<byte>
    requires |b| > 0
  {
    if |b| == 1 then [] else b[2..]
  }

  function FirstWord(o: Order, b: seq<byte>): (w: nat)
    requires |b| > 0
    ensures w < 65536
  {
    Word(o, b[0], if |b| == 1 then 0 else b[1])
  }

  lemma RawSumOfFirst(o: Order, b: seq<byte>)
    requires |b| > 0
    ensures RawSum(o, b) == FirstWord(o, b) + RawSum(o, Rest(b))
  {
    assert Words(o, b) == [FirstWord(o, b)] + Words(o, Rest(b));
    SumOfConcat([FirstWord(o, b)], Words(o, Rest(b)));
  }

  lemma {:induction false} RawSumBound(o: Order, b: seq<byte>)
    ensures RawSum(o, b) <= 65535 * ((|b| + 1) / 2)
    decreases |b|
  {
    if |b| == 0 {
    } else {
      RawSumBound(o, Rest(b));
      RawSumOfFirst(o, b);
    }
  }

  lemma {:induction false} SumOfConcat(x: seq<nat>, y: seq<nat>)
    ensures Sum(x + y) == Sum(x) + Sum(y)
  {
    if x == [] {
      assert x + y == y;
    } else {
      assert (x + y)[1..] == x[1..] + y;
      SumOfConcat(x[1..], y);
    }
  }

  lemma {:induction false} RawSumOfConcat(o: Order, a: seq<byte>, b: seq<byte>)
    requires |a| % 2 == 0
    ensures RawSum(o, a + b) == RawSum(o, a) + RawSum(o, b)
  {
    if |a| == 0 {
      assert a + b == b;
    } else {
      assert (a + b)[2..] == a[2..] + b;
      RawSumOfConcat(o, a[2..], b);
      RawSumOfFirst(o, a);
      RawSumOfFirst(o, a + b);
    }
  }

  /** For every length an int can express: the code computes the checksum of RFC 1071 exactly when
      its second fold carries nothing out. */
  lemma CsumIsRfc1071Iff(o: Order, b: seq<byte>)
    requires |b| < 0x8000_0000
    ensures var f := RawSum(o, b) / 65536 + RawSum(o, b) % 65536;
      Csum(o, b) == Rfc1071(o, b) <==> f % 65536 + f / 65536 < 65536
  {
    RawSumBound(o, b);
    TwoFoldsExact(RawSum(o, b));
  }

  /** Up to 131076 bytes (65538 words) the code computes the checksum of RFC 1071. */
  lemma CsumIsRfc1071(o: Order, b: seq<byte>)
    requires |b| <= 131076
    ensures Csum(o, b) == Rfc1071(o, b)
  {
    RawSumBound(o, b);
    TwoFoldsExact(RawSum(o, b));
  }

  lemma {:induction false} RawSumOfOnes(o: Order, b: seq<byte>)
    requires |b| % 2 == 0 && forall i :: 0 <= i < |b| ==> b[i] == 255
    ensures RawSum(o, b) == 65535 * (|b| / 2)
  {
    if |b| == 0 {
    } else {
      RawSumOfOnes(o, b[2..]);
      RawSumOfFirst(o, b);
    }
  }

  lemma {:induction false} RawSumOfZeros(o: Order, b: seq<byte>)
    requires forall i :: 0 <= i < |b| ==> b[i] == 0
    ensures RawSum(o, b) == 0
    decreases |b|
  {
    if |b| == 0 {
    } else {
      RawSumOfZeros(o, Rest(b));
      RawSumOfFirst(o, b);
    }
  }

  /** A buffer of more than 131076 bytes whose raw sum is the first one that two folds get wrong. */
  function Overrun(o: Order, n: nat): (b: seq<byte>)
    requires n > 131076
    ensures |b| == n
  {
    [255 as byte, if o.LittleEndian? then 255 else 0] + seq(131074, _ => 255 as byte)
    + [1 as byte] + seq(n - 131077, _ => 0 as byte)
  }

  lemma RawSumOfOverrun(o: Order, n: nat)
    requires n > 131076
    ensures RawSum(o, Overrun(o, n)) == 0x1_0000_FFFF
  {
    var first := [255 as byte, if o.LittleEndian? then 255 else 0];
    var ones := seq(131074, _ => 255 as byte);
    var zeros := seq(n - 131077, _ => 0 as byte);
    var tail := [1 as byte] + zeros;
    assert Overrun(o, n) == first + (ones + tail);
    RawSumOfConcat(o, first, ones + tail);
    RawSumOfConcat(o, ones, tail);
    RawSumOfOnes(o, ones);
    RawSumOfFirst(o, first);
    RawSumOfFirst(o, tail);
    RawSumOfZeros(o, Rest(tail));
  }

  /** The bound is tight: at every greater length some buffer gets a different checksum. */
  lemma BoundIsTight(o: Order, n: nat)
    requires n > 131076
    ensures exists b: seq<byte> :: |b| == n && Csum(o, b) != Rfc1071(o, b)
  {
    RawSumOfOverrun(o, n);
    TwoFoldsExact(0x1_0000_FFFF);
    var b := Overrun(o, n);
    assert |b| == n && Csum(o, b) != Rfc1071(o, b);
  }

  // ---------- self-verification ----------

  lemma AllOnesIff(sum: nat)
    ensures FoldLoop(sum) == 65535 <==> sum > 0 && sum % 65535 == 0
  {
    FoldLoopValue(sum);
  }

  /** A buffer within the bound verifies exactly when its raw sum is a positive multiple of 65535. */
  lemma VerifiesIff(o: Order, b: seq<byte>)
    requires |b| <= 131076
    ensures Csum(o, b) == 0 <==> RawSum(o, b) > 0 && RawSum(o, b) % 65535 == 0
  {
    CsumIsRfc1071(o, b);
    AllOnesIff(RawSum(o, b));
  }

  function FirstByte(o: Order, w: nat): byte
    requires w < 65536
  {
    if o.LittleEndian? then (w % 256) as byte else (w / 256) as byte
  }

  function SecondByte(o: Order, w: nat): byte
    requires w < 65536
  {
    if o.LittleEndian? then (w / 256) as byte else (w % 256) as byte
  }

  function Stored(o: Order, b: seq<byte>, at: nat, w: nat): (r: seq<byte>)
    requires at + 2 <= |b| && w < 65536
    ensures |r| == |b|
  {
    b[at := FirstByte(o, w)][at + 1 := SecondByte(o, w)]
  }

  lemma RawSumOfStored(o: Order, b: seq<byte>, at: nat, w: nat)
    requires at % 2 == 0 && at + 2 <= |b| && b[at] == 0 && b[at + 1] == 0 && w < 65536
    ensures RawSum(o, Stored(o, b, at, w)) == RawSum(o, b) + w
  {
    var s := Stored(o, b, at, w);
    var front, back := b[..at], b[at + 2..];
    assert b == front + ([0, 0] + back);
    assert s == front + ([FirstByte(o, w), SecondByte(o, w)] + back);
    RawSumOfConcat(o, front, [0, 0] + back);
    RawSumOfConcat(o, front, [FirstByte(o, w), SecondByte(o, w)] + back);
    RawSumOfPair(o, 0, 0, back);
    RawSumOfPair(o, FirstByte(o, w), SecondByte(o, w), back);
  }

  lemma RawSumOfPair(o: Order, x: byte, y: byte, back: seq<byte>)
    ensures RawSum(o, [x, y] + back) == Word(o, x, y) + RawSum(o, back)
  {
    assert Rest([x, y] + back) == back;
    RawSumOfFirst(o, [x, y] + back);
  }

  /** Storing the checksum of a buffer in its zeroed, evenly placed field makes the buffer verify. */
  lemma SelfVerification(o: Order, b: seq<byte>, at: nat)
    requires at % 2 == 0 && at + 2 <= |b| <= 131076 && b[at] == 0 && b[at + 1] == 0
    ensures Csum(o, Stored(o, b, at, Csum(o, b))) == 0
  {
    CsumIsRfc1071(o, b);
    RawSumOfStored(o, b, at, Csum(o, b));
    SumWithComplement(RawSum(o, b));
    VerifiesIff(o, Stored(o, b, at, Csum(o, b)));
  }

  lemma SumWithComplement(raw: nat)
    ensures raw + (65535 - FoldLoop(raw)) > 0 && (raw + (65535 - FoldLoop(raw))) % 65535 == 0
  {
    FoldLoopValue(raw);
    ComplementOfSum(raw, 0, FoldLoop(raw));
  }

  /** The IP header of 41.c is filled with the checksum of the whole datagram (line 103), whose
      rest is `rest` at that moment. A receiver summing the header alone accepts it exactly when
      the words of the rest add up to a multiple of 65535. */
  lemma HeaderVerifiesIff(o: Order, header: seq<byte>, at: nat, rest: seq<byte>)
    requires at % 2 == 0 && at + 2 <= |header| && |header| % 2 == 0 && |header| + |rest| <= 131076
    requires header[at] == 0 && header[at + 1] == 0 && RawSum(o, header) > 0
    ensures Csum(o, Stored(o, header, at, Csum(o, header + rest))) == 0 <==> RawSum(o, rest) % 65535 == 0
  {
    var c := Csum(o, header + rest);
    RawSumOfConcat(o, header, rest);
    CsumIsRfc1071(o, header + rest);
    FoldLoopValue(RawSum(o, header + rest));
    RawSumOfStored(o, header, at, c);
    VerifiesIff(o, Stored(o, header, at, c));
    ComplementOfSum(RawSum(o, header), RawSum(o, rest), 65535 - c);
  }

  lemma ComplementOfSum(h: int, r: int, v: int)
    requires v % 65535 == (h + r) % 65535
    ensures (h + (65535 - v)) % 65535 == 0 <==> r % 65535 == 0
  {
    var k := (h + r) / 65535 - v / 65535;
    assert h + r == v + 65535 * k;
    assert h + (65535 - v) == -r + 65535 * (k + 1);
    SameResidue(-r, k + 1);
  }

  // ---------- byte order, reordering, splitting ----------

  function SwapWord(w: nat): nat {
    w % 256 * 256 + w / 256
  }

  lemma SwapResidue(high: nat, low: nat)
    ensures (256 * low + high) % 65535 == (256 * (256 * high + low)) % 65535
  {
    assert 256 * (256 * high + low) == 256 * low + high + 65535 * high;
    SameResidue(256 * low + high, high);
  }

  lemma SwapComplement(w: nat)
    requires w < 65536
    ensures SwapWord(w) < 65536 && SwapWord(65535 - w) == 65535 - SwapWord(w)
    ensures SwapWord(w) == 0 <==> w == 0
  {
  }

  /** Swapping bytes is multiplication by 256 in end-around-carry arithmetic. */
  lemma SwapIsTimes256(w: nat)
    ensures SwapWord(w) % 65535 == (256 * w) % 65535
  {
    SwapResidue(w / 256, w % 256);
  }

  lemma ResidueOfSum(x: int, y: int, x': int, y': int)
    requires x % 65535 == x' % 65535 && y % 65535 == y' % 65535
    ensures (x + y) % 65535 == (x' + y') % 65535
  {
  }

  lemma {:induction false} RawSumOfBigEndian(b: seq<byte>)
    ensures RawSum(BigEndian, b) % 65535 == (256 * RawSum(LittleEndian, b)) % 65535
    ensures RawSum(BigEndian, b) == 0 <==> RawSum(LittleEndian, b) == 0
    decreases |b|
  {
    if |b| == 0 {
    } else {
      var rest, w := Rest(b), FirstWord(LittleEndian, b);
      assert FirstWord(BigEndian, b) == SwapWord(w);
      SwapIsTimes256(w);
      SwapComplement(w);
      RawSumOfBigEndian(rest);
      RawSumOfFirst(LittleEndian, b);
      RawSumOfFirst(BigEndian, b);
      ResidueOfSum(SwapWord(w), RawSum(BigEndian, rest), 256 * w, 256 * RawSum(LittleEndian, rest));
    }
  }

  lemma FoldOfBigEndian(b: seq<byte>)
    ensures FoldLoop(RawSum(BigEndian, b)) == SwapWord(FoldLoop(RawSum(LittleEndian, b)))
  {
    var raw := RawSum(LittleEndian, b);
    RawSumOfBigEndian(b);
    FoldLoopValue(raw);
    SwapIsTimes256(FoldLoop(raw));
    SwapComplement(FoldLoop(raw));
    TimesKeepsResidue(FoldLoop(raw), raw);
    FoldLoopUnique(RawSum(BigEndian, b), SwapWord(FoldLoop(raw)));
  }

  lemma BytesOfSwapped(w: nat)
    requires w < 65536
    ensures SwapWord(w) < 65536
    ensures FirstByte(BigEndian, SwapWord(w)) == FirstByte(LittleEndian, w)
    ensures SecondByte(BigEndian, SwapWord(w)) == SecondByte(LittleEndian, w)
  {
  }

  lemma CsumOfBigEndian(b: seq<byte>)
    requires |b| <= 131076
    ensures Csum(BigEndian, b) == SwapWord(Csum(LittleEndian, b))
  {
    CsumIsRfc1071(BigEndian, b);
    CsumIsRfc1071(LittleEndian, b);
    FoldOfBigEndian(b);
    SwapComplement(FoldLoop(RawSum(LittleEndian, b)));
  }

  /** RFC 1071, section 2(B): the two byte orders give byte-swapped checksums, so the bytes
      stored in the packet are the same on either machine. */
  lemma ByteOrderIndependence(b: seq<byte>)
    requires |b| <= 131076
    ensures Csum(BigEndian, b) == SwapWord(Csum(LittleEndian, b))
    ensures FirstByte(BigEndian, Csum(BigEndian, b)) == FirstByte(LittleEndian, Csum(LittleEndian, b))
    ensures SecondByte(BigEndian, Csum(BigEndian, b)) == SecondByte(LittleEndian, Csum(LittleEndian, b))
  {
    CsumOfBigEndian(b);
    BytesOfSwapped(Csum(LittleEndian, b));
  }

  lemma TimesKeepsResidue(x: int, y: int)
    requires x % 65535 == y % 65535
    ensures (256 * x) % 65535 == (256 * y) % 65535
  {
    var k := y / 65535 - x / 65535;
    assert y == x + 65535 * k;
    SameResidue(256 * x, 256 * k);
  }

  function SwappedPairs(b: seq<byte>): (r: seq<byte>)
    ensures |r| == |b|
  {
    if |b| < 2 then b else [b[1], b[0]] + SwappedPairs(b[2..])
  }

  lemma {:induction false} WordsOfSwappedPairs(b: seq<byte>)
    requires |b| % 2 == 0
    ensures Words(LittleEndian, SwappedPairs(b)) == Words(BigEndian, b)
  {
    if |b| == 0 {
    } else {
      var s := SwappedPairs(b);
      assert s[2..] == SwappedPairs(b[2..]);
      WordsOfSwappedPairs(b[2..]);
    }
  }

  /** Summing the byte-swapped words of an even buffer yields the byte-swapped checksum. */
  lemma SwappedBuffer(b: seq<byte>)
    requires |b| % 2 == 0 && |b| <= 131076
    ensures Csum(LittleEndian, SwappedPairs(b)) == SwapWord(Csum(LittleEndian, b))
  {
    WordsOfSwappedPairs(b);
    ByteOrderIndependence(b);
  }

  function Without(y: seq<nat>, i: nat): seq<nat>
    requires i < |y|
  {
    y[..i] + y[i + 1..]
  }

  lemma SumOfInsertion(front: seq<nat>, w: nat, back: seq<nat>)
    ensures Sum(front + ([w] + back)) == Sum(front + back) + w
  {
    SumOfConcat(front, [w] + back);
    SumOfConcat([w], back);
    SumOfConcat(front, back);
  }

  lemma MultisetOfInsertion(front: seq<nat>, w: nat, back: seq<nat>)
    ensures multiset(front + ([w] + back)) == multiset(front + back) + multiset{w}
  {
  }

  lemma Reinserted(y: seq<nat>, i: nat)
    requires i < |y|
    ensures y == y[..i] + ([y[i]] + y[i + 1..])
  {
  }

  lemma WithoutOne(y: seq<nat>, i: nat)
    requires i < |y|
    ensures multiset(y) == multiset(Without(y, i)) + multiset{y[i]}
    ensures Sum(y) == Sum(Without(y, i)) + y[i]
  {
    Reinserted(y, i);
    SumOfInsertion(y[..i], y[i], y[i + 1..]);
    MultisetOfInsertion(y[..i], y[i], y[i + 1..]);
  }

  lemma BothWithoutOne(x: seq<nat>, i: nat, y: seq<nat>, j: nat)
    requires multiset(x) == multiset(y) && i < |x| && j < |y| && x[i] == y[j]
    ensures multiset(Without(x, i)) == multiset(Without(y, j))
    ensures Sum(x) == Sum(Without(x, i)) + x[i] && Sum(y) == Sum(Without(y, j)) + x[i]
  {
    WithoutOne(x, i);
    WithoutOne(y, j);
    var m, n := multiset(Without(x, i)), multiset(Without(y, j));
    assert m == multiset(x) - multiset{x[i]} && n == multiset(y) - multiset{x[i]};
  }

  lemma EmptyMultiset(y: seq<nat>)
    requires multiset(y) == multiset{}
    ensures y == []
  {
    assert |multiset(y)| == |y|;
  }

  lemma {:induction false} SumOfPermutation(x: seq<nat>, y: seq<nat>)
    requires multiset(x) == multiset(y)
    ensures Sum(x) == Sum(y)
    decreases |x|
  {
    if x == [] {
      EmptyMultiset(y);
    } else {
      assert x[0] in multiset(x);
      var i :| 0 <= i < |y| && y[i] == x[0];
      BothWithoutOne(x, 0, y, i);
      SumOfPermutation(Without(x, 0), Without(y, i));
    }
  }

  /** RFC 1071, section 2(A): the order of the words does not matter (whatever the length). */
  lemma ReorderedWords(o: Order, a: seq<byte>, b: seq<byte>)
    requires multiset(Words(o, a)) == multiset(Words(o, b))
    ensures Csum(o, a) == Csum(o, b)
  {
    SumOfPermutation(Words(o, a), Words(o, b));
  }

  /** RFC 1071, section 2(A): partial checksums of an even prefix and the rest can be combined. */
  lemma CombinedChecksum(o: Order, a: seq<byte>, b: seq<byte>)
    requires |a| % 2 == 0 && |a| + |b| <= 131076
    ensures Csum(o, a + b) == 65535 - FoldLoop((65535 - Csum(o, a)) + (65535 - Csum(o, b)))
  {
    RawSumOfConcat(o, a, b);
    Complement(o, a);
    Complement(o, b);
    Complement(o, a + b);
    var x, y := RawSum(o, a), RawSum(o, b);
    FoldOfFolds(x, y);
    assert 65535 - Csum(o, a + b) == FoldLoop(x + y);
  }

  lemma Complement(o: Order, b: seq<byte>)
    requires |b| <= 131076
    ensures 65535 - Csum(o, b) == FoldLoop(RawSum(o, b))
  {
    CsumIsRfc1071(o, b);
  }

  lemma FoldOfFolds(x: nat, y: nat)
    ensures FoldLoop(FoldLoop(x) + FoldLoop(y)) == FoldLoop(x + y)
  {
    FoldLoopValue(x);
    FoldLoopValue(y);
    FoldLoopValue(x + y);
    ResidueOfSum(FoldLoop(x), FoldLoop(y), x, y);
    FoldLoopUnique(FoldLoop(x) + FoldLoop(y), FoldLoop(x + y));
  }
}
