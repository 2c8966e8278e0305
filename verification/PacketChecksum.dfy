/** The checksum loop and the two places where A4/41.c fills a checksum into its datagram. */
module PacketChecksum {
  import opened InternetChecksum

  const IP_HEADER := 20
  const IP_CHECK := 10    // offset of `check` in the IP header
  const TCP_HEADER := 20
  const TCP_CHECK := 16   // offset of `check` in the TCP header
  const PSEUDO_HEADER := 12

  function Range(b: seq<byte>, start: nat, length: int): seq<byte>
    requires start <= |b| && start + length <= |b|
  {
    if length < 0 then [] else b[start..start + length]
  }

  lemma RawSumOfRange(o: Order, b: seq<byte>, ptr: nat, n: nat)
    requires 2 <= n && ptr + n <= |b|
    ensures RawSum(o, Range(b, ptr, n)) == Word(o, b[ptr], b[ptr + 1]) + RawSum(o, Range(b, ptr + 2, n - 2))
  {
    assert Rest(Range(b, ptr, n)) == Range(b, ptr + 2, n - 2);
    RawSumOfFirst(o, Range(b, ptr, n));
  }

  /** What is left to add when fewer than two bytes are. */
  lemma RawSumOfEnd(o: Order, b: seq<byte>, ptr: nat, n: int)
    requires n <= 1 && ptr <= |b| && ptr + n <= |b|
    ensures RawSum(o, Range(b, ptr, n)) == if n == 1 then Word(o, b[ptr], 0) else 0
  {
    if n == 1 {
      assert Range(b, ptr, n) == [b[ptr]];
      RawSumOfFirst(o, [b[ptr]]);
    } else {
      assert Range(b, ptr, n) == [];
    }
  }

  lemma RawSumFitsAccumulator(o: Order, b: seq<byte>)
    requires |b| < 0x8000_0000
    ensures RawSum(o, b) < 0x8000_0000_0000
  {
    RawSumBound(o, b);
  }

  /** The summing loop of `csum` (lines 35-44) on the bytes from index start on; the 64-bit
      accumulator does not overflow. */
  method SumWords(o: Order, buffer: array<byte>, start: nat, length: int) returns (sum: int)
    requires length < 0x8000_0000
    requires start <= buffer.Length && start + length <= buffer.Length
    ensures sum == RawSum(o, Range(buffer[..], start, length))
    ensures sum < 0x8000_0000_0000
  {
    ghost var bytes := buffer[..];
    ghost var total := RawSum(o, Range(bytes, start, length));
    RawSumFitsAccumulator(o, Range(bytes, start, length));
    var ptr, nbytes := start, length;
    sum := 0;
    while nbytes > 1
      invariant 0 <= ptr <= |bytes| && ptr + nbytes <= |bytes|
      invariant sum + RawSum(o, Range(bytes, ptr, nbytes)) == total
    {
      RawSumOfRange(o, bytes, ptr, nbytes);
      sum := sum + Word(o, buffer[ptr], buffer[ptr + 1]);
      ptr := ptr + 2;
      nbytes := nbytes - 2;
    }
    RawSumOfEnd(o, bytes, ptr, nbytes);
    if nbytes == 1 {
      var oddbyte := Word(o, buffer[ptr], 0);
      sum := sum + oddbyte;
    }
  }

  /** `csum` on the given number of bytes, which may be negative, from index start on. */
  method ComputeCsum(o: Order, buffer: array<byte>, start: nat, length: int) returns (answer: nat)
    requires length < 0x8000_0000
    requires start <= buffer.Length && start + length <= buffer.Length
    ensures answer == Csum(o, Range(buffer[..], start, length))
  {
    var sum := SumWords(o, buffer, start, length);
    sum := sum / 65536 + sum % 65536;
    sum := sum + sum / 65536;
    answer := 65535 - sum % 65536;
  }

  /** IP checksum (lines 98 and 103): clear the field, sum total bytes, store the result. */
  method FillIpChecksum(o: Order, datagram: array<byte>, total: nat)
    requires 20 <= total <= datagram.Length && total <= 131076
    modifies datagram
    ensures Csum(o, datagram[..total]) == 0
    ensures forall i :: 0 <= i < datagram.Length && i != 10 && i != 11 ==> datagram[i] == old(datagram[i])
  {
    datagram[IP_CHECK], datagram[IP_CHECK + 1] := 0, 0;
    var check := ComputeCsum(o, datagram, 0, total);
    ghost var summed := datagram[..total];
    assert Range(datagram[..], 0, total) == summed;
    datagram[IP_CHECK], datagram[IP_CHECK + 1] := FirstByte(o, check), SecondByte(o, check);
    assert datagram[..total] == Stored(o, summed, IP_CHECK, check);
    SelfVerification(o, summed, IP_CHECK);
  }

  /** The 12 bytes that precede the segment in its checksum: addresses, a zero, the protocol
      number of TCP, and the segment's length in network byte order. */
  function PseudoHeader(source: seq<byte>, dest: seq<byte>, length: nat): (psh: seq<byte>)
    requires |source| == |dest| == 4 && length < 65536
    ensures |psh| == 12 && psh[0..4] == source && psh[4..8] == dest
    ensures psh[8] == 0 && psh[9] == 6 && 256 * psh[10] as int + psh[11] as int == length
  {
    source + dest + [0, 6, (length / 256) as byte, (length % 256) as byte]
  }

  /** The copies of pseudo header and segment into one buffer. */
  method Pseudogram(psh: seq<byte>, datagram: array<byte>, size: nat) returns (pseudogram: array<byte>)
    requires IP_HEADER + size <= datagram.Length
    ensures fresh(pseudogram) && pseudogram[..] == psh + datagram[IP_HEADER..IP_HEADER + size]
  {
    pseudogram := new byte[|psh| + size];
    forall i | 0 <= i < |psh| {
      pseudogram[i] := psh[i];
    }
    forall i | 0 <= i < size {
      pseudogram[|psh| + i] := datagram[IP_HEADER + i];
    }
  }

  /** A segment with the checksum of what it belongs to in its field verifies there. */
  lemma VerifiesBehind(o: Order, psh: seq<byte>, segment: seq<byte>, at: nat, sent: seq<byte>)
    requires |psh| % 2 == 0 && at % 2 == 0 && at + 2 <= |segment| && |psh| + |segment| <= 131076
    requires segment[at] == 0 && segment[at + 1] == 0
    requires sent == Stored(o, segment, at, Csum(o, psh + segment))
    ensures Csum(o, psh + sent) == 0
  {
    var whole, field := psh + segment, |psh| + at;
    assert whole[field] == 0 && whole[field + 1] == 0;
    assert psh + sent == Stored(o, whole, field, Csum(o, whole));
    SelfVerification(o, whole, field);
  }

  /** Stores a checksum at a position of the datagram behind its IP header. */
  method StoreField(o: Order, datagram: array<byte>, size: nat, at: nat, check: nat)
    requires IP_HEADER + size <= datagram.Length && at + 2 <= size && check < 65536
    modifies datagram
    ensures datagram[IP_HEADER..IP_HEADER + size] == Stored(o, old(datagram[IP_HEADER..IP_HEADER + size]), at, check)
    ensures forall i :: 0 <= i < datagram.Length && i != IP_HEADER + at && i != IP_HEADER + at + 1
              ==> datagram[i] == old(datagram[i])
  {
    datagram[IP_HEADER + at], datagram[IP_HEADER + at + 1] := FirstByte(o, check), SecondByte(o, check);
  }

  /** TCP checksum (lines 118-134): the segment with a zeroed field is summed behind its pseudo
      header, and the result goes into the segment in the datagram. Whoever then sums the same
      pseudo header, with the protocol number 6 of TCP and the segment's length in network byte
      order, and the segment as sent gets zero. */
  method FillTcpChecksum(o: Order, datagram: array<byte>, source: seq<byte>, dest: seq<byte>, dataLength: nat)
    requires |source| == |dest| == 4
    requires 40 + dataLength <= datagram.Length < 65536
    modifies datagram
    ensures var length := 20 + dataLength;
      var pseudo := source + dest + [0, 6, (length / 256) as byte, (length % 256) as byte];
      Csum(o, pseudo + datagram[20..40 + dataLength]) == 0
    ensures forall i :: 0 <= i < datagram.Length && i != 36 && i != 37 ==> datagram[i] == old(datagram[i])
  {
    datagram[IP_HEADER + TCP_CHECK], datagram[IP_HEADER + TCP_CHECK + 1] := 0, 0;
    var size := TCP_HEADER + dataLength;
    var psh := PseudoHeader(source, dest, size);
    ghost var segment := datagram[IP_HEADER..IP_HEADER + size];
    assert segment[TCP_CHECK] == 0 && segment[TCP_CHECK + 1] == 0;
    var pseudogram := Pseudogram(psh, datagram, size);
    assert Range(pseudogram[..], 0, PSEUDO_HEADER + size) == psh + segment;
    var check := ComputeCsum(o, pseudogram, 0, PSEUDO_HEADER + size);
    StoreField(o, datagram, size, TCP_CHECK, check);
    VerifiesBehind(o, psh, segment, TCP_CHECK, datagram[IP_HEADER..IP_HEADER + size]);
  }

  /** "CSM20001", the data of the packet. */
  const DATA: seq<byte> := [67, 83, 77, 50, 48, 48, 48, 49]

  /** With that data behind a still empty TCP header, the IP checksum of 41.c is one that no
      receiver summing the IP header alone accepts. */
  lemma ShippedIpHeaderIsRejected(o: Order, header: seq<byte>)
    requires |header| == 20 && header[0] == 0x45
    requires header[10] == 0 && header[11] == 0
    ensures var rest := seq(20, _ => 0 as byte) + DATA;
      Csum(o, Stored(o, header, 10, Csum(o, header + rest))) != 0
  {
    var empty := seq(TCP_HEADER, _ => 0 as byte);
    RawSumOfFirst(o, header);
    RawSumOfConcat(o, empty, DATA);
    RawSumOfZeros(o, empty);
    RawSumOfData(o);
    HeaderVerifiesIff(o, header, IP_CHECK, empty + DATA);
  }

  lemma RawSumOfData(o: Order)
    ensures RawSum(o, DATA) == if o.LittleEndian? then 59120 else 61670
  {
    assert DATA == [67, 83] + ([77, 50] + ([48, 48] + ([48, 49] + [])));
    RawSumOfPair(o, 67, 83, [77, 50] + ([48, 48] + ([48, 49] + [])));
    RawSumOfPair(o, 77, 50, [48, 48] + ([48, 49] + []));
    RawSumOfPair(o, 48, 48, [48, 49] + []);
    RawSumOfPair(o, 48, 49, []);
  }
}
