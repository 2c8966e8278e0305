/** The size-prefixed transfer of the encoded file in A3: a 1024-byte size record, then the file,
    over a stream that may be received in any chunks. */
module SizedTransfer {
  import opened CStrings
  import opened Decimal
  import opened Streams
  import CipherPipeline

  const HEADER := 1024
  const BUFSIZ := 8192

  /** The size record: the decimal size, its terminator, and whatever else was in the buffer. */
  function SizeRecord(size: nat, junk: string): string {
    Digits(size) + ("\0" + junk)
  }

  /** Whatever follows the terminator, the size is read back. */
  lemma SizeReadBack(size: nat, rest: string)
    ensures Atoi(CString(SizeRecord(size, rest))) == size
  {
    DigitsValue(size);
    CStringOfTerminated(Digits(size), rest);
    AtoiPrinted(size);
  }

  /** One `sendfile` call: any positive part of what is left, zero at the end of the file. */
  method SendFileCall(socket: Pipe<char>, file: string, offset: nat) returns (sent: nat)
    requires offset <= |file|
    modifies socket
    ensures offset + sent <= |file| && sent <= BUFSIZ
    ensures sent == 0 <==> offset == |file|
    ensures socket.bytes == old(socket.bytes) + file[offset..offset + sent]
  {
    if offset == |file| {
      sent := 0;
    } else {
      sent :| 1 <= sent <= |file| - offset && sent <= BUFSIZ by {
        assert 1 <= 1 <= |file| - offset && 1 <= BUFSIZ;
      }
    }
    socket.Send(file[offset..offset + sent]);
  }

  /** The client, lines 111-126. */
  method SendEncrypted(socket: Pipe<char>, file: string, junk: string)
    returns (offset: nat, remain_data: int)
    requires |SizeRecord(|file|, junk)| == HEADER
    modifies socket
    ensures socket.bytes == old(socket.bytes) + SizeRecord(|file|, junk) + file
    ensures |socket.bytes| == |old(socket.bytes)| + 1024 + |file|
    ensures offset == |file| && remain_data == 0
  {
    socket.Send(SizeRecord(|file|, junk));
    ghost var header := socket.bytes;
    offset, remain_data := 0, |file|;
    var sent_bytes := SendFileCall(socket, file, offset);
    offset := offset + sent_bytes;
    while sent_bytes > 0 && remain_data > 0
      invariant offset <= |file|
      invariant offset - sent_bytes + remain_data == |file|
      invariant sent_bytes == 0 ==> offset == |file|
      invariant socket.bytes == header + file[..offset]
      decreases remain_data
    {
      remain_data := remain_data - sent_bytes;
      sent_bytes := SendFileCall(socket, file, offset);
      assert file[..offset + sent_bytes] == file[..offset] + file[offset..offset + sent_bytes];
      offset := offset + sent_bytes;
    }
    assert file[..offset] == file;
  }

  /** What the receiver's guarantees say about a stream made of a size record and a file. */
  ghost predicate Received(stream: string, first: string, received: string, rest: string, remain_data: int) {
    && stream == first + received + rest
    && remain_data == Atoi(CString(first)) - |received|
    && (remain_data <= 0 || rest == "")
  }

  lemma Append(first: string, received: string, chunk: string, rest: string)
    ensures first + received + (chunk + rest) == first + (received + chunk) + rest
  {
  }

  /** The server, lines 68-86. The first receive takes an unknown part of the stream for the size
      record; the loop stops when the announced size has arrived or the stream has ended. */
  method ReceiveEncrypted(socket: Pipe<char>) returns (first: string, received: string, remain_data: int)
    modifies socket
    ensures Received(old(socket.bytes), first, received, socket.bytes, remain_data)
    ensures |first| <= BUFSIZ && (first == "" <==> old(socket.bytes) == "")
    ensures |received| <= (if Atoi(CString(first)) <= 0 then 0 else Atoi(CString(first)) + BUFSIZ - 1)
  {
    first := socket.Recv(BUFSIZ);
    var file_size := Atoi(CString(first));
    remain_data := file_size;
    received := "";
    while remain_data > 0
      invariant old(socket.bytes) == first + received + socket.bytes
      invariant remain_data == file_size - |received|
      invariant |received| <= (if file_size <= 0 then 0 else file_size + BUFSIZ - 1)
      decreases |socket.bytes|
    {
      var buffer := socket.Recv(BUFSIZ);
      if |buffer| == 0 {
        break;
      }
      Append(first, received, buffer, socket.bytes);
      received := received + buffer;
      remain_data := remain_data - |buffer|;
    }
  }

  lemma CutBehindRecord(record: string, file: string, first: string, tail: string)
    requires record + file == first + tail && |first| >= |record|
    ensures first == record + file[..|first| - |record|]
    ensures tail == file[|first| - |record|..]
  {
    var stream, taken := record + file, |first| - |record|;
    assert first == stream[..|first|] && tail == stream[|first|..];
    assert stream[..|first|] == record + file[..taken];
    assert stream[|first|..] == file[taken..];
  }

  lemma SizeOfFirst(size: nat, junk: string, more: string)
    ensures Atoi(CString(SizeRecord(size, junk) + more)) == size
  {
    assert SizeRecord(size, junk) + more == Digits(size) + ("\0" + (junk + more));
    SizeReadBack(size, junk + more);
  }

  lemma TailReceived(file: string, taken: nat, received: string, rest: string, remain_data: int)
    requires taken <= |file| && received + rest == file[taken..]
    requires remain_data == |file| - |received| && (remain_data <= 0 || rest == "")
    ensures received == file[taken..] && rest == "" && remain_data == taken
    ensures received == file <==> taken == 0
  {
    assert |received| + |rest| == |file| - taken;
    assert received + "" == received;
    assert file[0..] == file;
  }

  lemma ReceivedTail(file: string, record: string, junk: string, first: string,
                     received: string, rest: string, remain_data: int)
    requires record == SizeRecord(|file|, junk) && |record| <= |first|
    requires Received(record + file, first, received, rest, remain_data)
    ensures received + rest == file[|first| - |record|..]
    ensures remain_data == |file| - |received|
  {
    Regroup(first, received, rest);
    CutBehindRecord(record, file, first, received + rest);
    SizeOfFirst(|file|, junk, file[..|first| - |record|]);
  }

  /** The file arrives whole exactly when the first receive ends with the record. If it takes
      more, the file loses what was taken and the receiver ends with that much missing. */
  lemma ReceivedIff(file: string, record: string, junk: string, first: string,
                    received: string, rest: string, remain_data: int)
    requires record == SizeRecord(|file|, junk) && |record| <= |first|
    requires Received(record + file, first, received, rest, remain_data)
    ensures received == file[|first| - |record|..] && rest == ""
    ensures remain_data == |first| - |record|
    ensures received == file <==> |first| == |record|
  {
    ReceivedTail(file, record, junk, first, received, rest, remain_data);
    TailReceived(file, |first| - |record|, received, rest, remain_data);
  }

  lemma CutInsideRecord(record: string, file: string, first: string, tail: string)
    requires record + file == first + tail && |first| <= |record|
    ensures tail == record[|first|..] + file
  {
    assert tail == (first + tail)[|first|..];
    assert (record + file)[|first|..] == record[|first|..] + file;
  }

  lemma PrefixOfTail(file: string, received: string, rest: string)
    ensures received == file <==> file <= received + rest && |received| == |file|
  {
    if file <= received + rest && |received| == |file| {
      assert received == (received + rest)[..|received|];
    }
  }

  /** For every first receive: the file arrives as sent exactly when the record was taken on its
      own, or was cut short where what is left of it happens to go on like the file and the loop
      stopped after as many characters as the file has. */
  lemma ReceivedWholeIff(file: string, record: string, junk: string, first: string,
                         received: string, rest: string, remain_data: int)
    requires record == SizeRecord(|file|, junk)
    requires Received(record + file, first, received, rest, remain_data)
    ensures received == file <==>
      (|first| == |record| || (|first| < |record| && file <= record[|first|..] + file && |received| == |file|))
  {
    if |first| >= |record| {
      ReceivedIff(file, record, junk, first, received, rest, remain_data);
    } else {
      Regroup(first, received, rest);
      CutInsideRecord(record, file, first, received + rest);
      PrefixOfTail(file, received, rest);
    }
  }

  lemma SizeOfCutRecord(size: nat, record: string, junk: string, first: string)
    requires record == SizeRecord(size, junk) && first <= record && |Digits(size)| <= |first|
    ensures Atoi(CString(first)) == size
  {
    var d := |Digits(size)|;
    assert first == record[..|first|];
    if |first| == d {
      assert first == Digits(size);
      CStringOfDigits(size);
    } else {
      assert first == SizeRecord(size, record[d + 1..|first|]);
      SizeReadBack(size, record[d + 1..|first|]);
    }
  }

  lemma {:induction false} CStringOfWhole(s: string)
    requires NoZero(s)
    ensures CString(s) == s
  {
    if s == "" {
    } else {
      CStringOfWhole(s[1..]);
    }
  }

  lemma CStringOfDigits(size: nat)
    ensures Atoi(CString(Digits(size))) == size
  {
    DigitsValue(size);
    CStringOfWhole(Digits(size));
    AtoiPrinted(size);
  }

  /** Where the loop stops when the first receive was cut short behind the digits of the size: it
      has taken the file's length or more, and exactly that when nothing is over. */
  lemma StopOfCutRecord(file: string, record: string, junk: string, first: string,
                        received: string, rest: string, remain_data: int)
    requires record == SizeRecord(|file|, junk) && |Digits(|file|)| <= |first| < |record|
    requires Received(record + file, first, received, rest, remain_data)
    ensures |received| >= |file|
    ensures |received| == |file| <==> remain_data == 0
  {
    assert first == (record + file)[..|first|] && first <= record;
    SizeOfCutRecord(|file|, record, junk, first);
    assert |received| + |rest| == |record| + |file| - |first|;
  }

  /** Both programs together: whenever the size record is received on its own, the server writes
      the characters of the client's lines, in every chunking of the rest. */
  method Transfer(lines: seq<seq<CipherPipeline.Byte>>, key: nat, junk: string)
    returns (first: string, remain_data: int, file: seq<CipherPipeline.Byte>)
    requires 1 <= key <= 24 && |SizeRecord(|CipherPipeline.EncodedFile(lines, key)|, junk)| == HEADER
    requires forall i :: 0 <= i < |lines| ==> CipherPipeline.IsCString(lines[i])
    ensures |first| == HEADER ==>
      remain_data == 0 && file == CipherPipeline.Survivors(CipherPipeline.Flatten(lines))
  {
    var socket := new Pipe<char>();
    var wFile := CipherPipeline.EncodeLines(lines, key);
    var offset, unsent := SendEncrypted(socket, wFile, junk);
    assert socket.bytes == SizeRecord(|wFile|, junk) + wFile;
    var received_file;
    first, received_file, remain_data := ReceiveEncrypted(socket);
    file := CipherPipeline.DecodeText(received_file, key);
    if |first| == HEADER {
      ReceivedIff(wFile, SizeRecord(|wFile|, junk), junk, first, received_file, socket.bytes, remain_data);
      CipherPipeline.PipelineResult(lines, key);
    }
  }
}
