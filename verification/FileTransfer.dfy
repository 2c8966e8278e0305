/** The file upload and download of A2: request records built in one shared buffer, 10-byte
    chunked transfer, and a server with a running total. */
module FileTransfer {
  import opened CStrings
  import opened Streams

  const BUFFSIZE := 10
  const MAX_LINE := 10

  // ---------- request records ----------

  const ZEROS := "\0\0\0\0\0\0\0\0\0\0"

  /** The buffer after a string has been copied to its start, without a terminator. */
  function Overwritten(buff: string, s: string): (r: string)
    requires |s| <= |buff|
    ensures |r| == |buff|
  {
    s + buff[|s|..]
  }

  /** The record sent for the operation word, and the one sent for the name after it: both are
      written into the same buffer, and the name is copied without its terminator. */
  function OperationRecord(operation: string): (r: string)
    requires |operation| < BUFFSIZE
    ensures |r| == BUFFSIZE
  {
    Overwritten(ZEROS, operation)
  }

  function NameRecord(operation: string, filename: string): (r: string)
    requires |operation| < BUFFSIZE && |filename| <= BUFFSIZE
    ensures |r| == BUFFSIZE
  {
    Overwritten(OperationRecord(operation), filename)
  }

  /** The file name in a buffer. C gives no meaning to opening an unterminated one, nor to writing
      beyond the buffer. */
  datatype FileName = Name(name: string) | Unterminated | Overrun

  /** What the server, whose buffer is cleared first, finds in it after a receive. */
  function NameIn(received: string): FileName {
    if |received| >= BUFFSIZE && NoZero(received) then Unterminated else Name(CString(received))
  }

  /** The name that the server opens for a client's operation word and file name. */
  function NameAtServer(operation: string, filename: string): FileName {
    if |operation| >= BUFFSIZE || |filename| > BUFFSIZE then Overrun else NameIn(NameRecord(operation, filename))
  }

  lemma TerminatedBy(s: string, record: string)
    requires NoZero(s) && |s| < |record| && record[..|s|] == s && record[|s|] == '\0'
    ensures CString(record) == s
  {
    var rest := record[|s| + 1..];
    assert record == s + ("\0" + rest);
    CStringOfTerminated(s, rest);
  }

  lemma OperationArrives(operation: string)
    requires |operation| < BUFFSIZE && NoZero(operation)
    ensures CString(OperationRecord(operation)) == operation
  {
    TerminatedBy(operation, OperationRecord(operation));
  }

  lemma ShortNameAtServer(operation: string, filename: string, stored: string)
    requires |operation| < BUFFSIZE && |filename| < BUFFSIZE && NoZero(operation) && NoZero(filename)
    requires stored == if |filename| < |operation| then filename + operation[|filename|..] else filename
    ensures NameAtServer(operation, filename) == Name(stored)
  {
    var record := NameRecord(operation, filename);
    assert NoZero(stored);
    assert record[..|stored|] == stored;
    assert record[|stored|] == '\0';
    TerminatedBy(stored, record);
  }

  /** A name shorter than the operation word keeps the tail of that word; one of ten characters is
      not terminated, and a longer one does not fit. */
  lemma NameAtServerIs(operation: string, filename: string)
    requires |operation| < BUFFSIZE && NoZero(operation) && NoZero(filename)
    ensures NameAtServer(operation, filename) ==
      if |filename| > 10 then Overrun
      else if |filename| == 10 then Unterminated
      else if |filename| < |operation| then Name(filename + operation[|filename|..])
      else Name(filename)
  {
    if |filename| == BUFFSIZE {
      assert NameRecord(operation, filename) == filename;
    } else if |filename| < BUFFSIZE {
      ShortNameAtServer(operation, filename,
                        if |filename| < |operation| then filename + operation[|filename|..] else filename);
    }
  }

  /** Both clients, lines 50-66: `strcpy` of the operation, send, `strncpy` of the name over the
      same buffer, send. fits tells whether both copies stayed within the buffer. */
  method SendRequest(socket: Pipe<char>, operation: string, filename: string)
    returns (fits: bool, first: string, second: string)
    requires NoZero(operation) && NoZero(filename)
    modifies socket
    ensures fits <==> NameAtServer(operation, filename) != Overrun
    ensures fits ==> socket.bytes == old(socket.bytes) + first + second && |first| == |second| == 10
    ensures fits ==> CString(first) == operation && NameIn(second) == NameAtServer(operation, filename)
  {
    fits, first, second := false, "", "";
    var buff := new char[BUFFSIZE](_ => '\0');
    if |operation| >= BUFFSIZE {
      return;
    }
    forall i | 0 <= i < |operation| {
      buff[i] := operation[i];
    }
    first := buff[..];
    assert first == OperationRecord(operation);
    OperationArrives(operation);
    socket.Send(first);
    if |filename| > BUFFSIZE {
      return;
    }
    forall i | 0 <= i < |filename| {
      buff[i] := filename[i];
    }
    second := buff[..];
    assert second == NameRecord(operation, filename);
    socket.Send(second);
    fits := true;
  }

  lemma NamedIff(operation: string, filename: string)
    requires |operation| < BUFFSIZE && NoZero(operation) && NoZero(filename)
    ensures NameAtServer(operation, filename).Name? <==> |filename| < BUFFSIZE
  {
    NameAtServerIs(operation, filename);
  }

  /** The server opens the file the client named exactly when the name is at least as long as the
      operation word and shorter than the buffer. */
  lemma NameArrivesIff(operation: string, filename: string)
    requires NoZero(operation) && NoZero(filename)
    ensures NameAtServer(operation, filename) == Name(filename) <==> |operation| <= |filename| < 10
  {
    if |operation| < BUFFSIZE {
      NameAtServerIs(operation, filename);
    }
  }

  /** An upload and a download of one name reach the same file exactly when the name has eight or
      nine characters: at least the length of "download", and less than the buffer. */
  lemma SameStoredNameIff(filename: string)
    requires NoZero(filename)
    ensures var up, down := NameAtServer("upload", filename), NameAtServer("download", filename);
      up.Name? && up == down <==> 8 <= |filename| < 10
  {
    NameAtServerIs("upload", filename);
    NameAtServerIs("download", filename);
    if |filename| == 7 {
      assert |filename + "download"[|filename|..]| == 8;
    } else if |filename| < 7 {
      assert |filename + "upload"[|filename|..]| <= 7 && |filename + "download"[|filename|..]| == 8;
    }
  }

  // ---------- the two loops ----------

  /** Either program's global byte counter and its transfer loops. */
  class Peer {
    var total: nat

    constructor ()
      ensures total == 0
    {
      total := 0;
    }

    /** `sendfile`: read at most MAX_LINE bytes at a time and send them. */
    method SendFile(fp: string, socket: Pipe<char>)
      modifies this, socket
      ensures socket.bytes == old(socket.bytes) + fp
      ensures total == old(total) + |fp|
    {
      var position := 0;
      var n := if |fp| < MAX_LINE then |fp| else MAX_LINE;
      while n > 0
        invariant 0 <= position <= position + n <= |fp|
        invariant n == 0 ==> position == |fp|
        invariant total == old(total) + position
        invariant socket.bytes == old(socket.bytes) + fp[..position]
        decreases |fp| - position
      {
        total := total + n;
        socket.Send(fp[position..position + n]);
        assert fp[..position + n] == fp[..position] + fp[position..position + n];
        position := position + n;
        n := if |fp| - position < MAX_LINE then |fp| - position else MAX_LINE;
      }
      assert fp[..position] == fp;
    }

    /** `writefile`: receive at most MAX_LINE bytes at a time and append them, up to the end of
        the stream. */
    method WriteFile(socket: Pipe<char>) returns (fp: string)
      modifies this, socket
      ensures fp == old(socket.bytes) && socket.bytes == ""
      ensures total == old(total) + |fp|
    {
      fp := "";
      var buff := socket.Recv(MAX_LINE);
      while |buff| > 0
        invariant fp + buff + socket.bytes == old(socket.bytes)
        invariant buff == "" ==> socket.bytes == ""
        invariant total == old(total) + |fp|
        decreases |buff| + |socket.bytes|
      {
        total := total + |buff|;
        fp := fp + buff;
        buff := socket.Recv(MAX_LINE);
      }
      assert fp + "" + "" == fp;
    }
  }

  // ---------- both loops at once, in every schedule ----------

  /** Sender and receiver of one file in the middle of the transfer. */
  datatype Transfer = Transfer(
    unread: string, flight: string, written: string,
    senderTotal: nat, receiverTotal: nat, closed: bool, done: bool)

  datatype Move = SendChunk | Close | ReceiveChunk(n: nat) | Finish

  function Start(file: string, senderTotal: nat, receiverTotal: nat): Transfer {
    Transfer(file, "", "", senderTotal, receiverTotal, false, false)
  }

  predicate CanMove(t: Transfer, m: Move) {
    match m
    case SendChunk => t.unread != ""
    case Close => !t.closed && t.unread == ""
    case ReceiveChunk(n) => !t.done && 1 <= n <= |t.flight| && n <= MAX_LINE
    case Finish => !t.done && t.closed && t.flight == ""
  }

  function Moved(t: Transfer, m: Move): Transfer
    requires CanMove(t, m)
  {
    match m
    case SendChunk =>
      var n := if |t.unread| < MAX_LINE then |t.unread| else MAX_LINE;
      t.(unread := t.unread[n..], flight := t.flight + t.unread[..n], senderTotal := t.senderTotal + n)
    case Close => t.(closed := true)
    case ReceiveChunk(n) =>
      t.(flight := t.flight[n..], written := t.written + t.flight[..n], receiverTotal := t.receiverTotal + n)
    case Finish => t.(done := true)
  }

  ghost predicate IsSchedule(t: Transfer, moves: seq<Move>, t': Transfer)
    decreases moves
  {
    if moves == [] then t == t'
    else CanMove(t, moves[0]) && IsSchedule(Moved(t, moves[0]), moves[1..], t')
  }

  predicate Conserved(file: string, sender0: nat, receiver0: nat, t: Transfer) {
    && t.written + t.flight + t.unread == file
    && t.senderTotal == sender0 + |t.written| + |t.flight|
    && t.receiverTotal == receiver0 + |t.written|
    && (t.closed ==> t.unread == "")
    && (t.done ==> t.closed && t.flight == "")
  }

  function Remaining(t: Transfer): nat {
    2 * |t.unread| + |t.flight| + (if t.closed then 0 else 1) + (if t.done then 0 else 1)
  }

  lemma MoveConserves(file: string, sender0: nat, receiver0: nat, t: Transfer, m: Move)
    requires Conserved(file, sender0, receiver0, t) && CanMove(t, m)
    ensures Conserved(file, sender0, receiver0, Moved(t, m))
    ensures Remaining(Moved(t, m)) < Remaining(t)
  {
    match m
    case SendChunk =>
      var n := if |t.unread| < MAX_LINE then |t.unread| else MAX_LINE;
      assert t.unread == t.unread[..n] + t.unread[n..];
    case ReceiveChunk(n) =>
      assert t.flight == t.flight[..n] + t.flight[n..];
    case _ =>
  }

  /** In every schedule what is written, in flight and unread makes up the file, both counters
      follow, and the schedule cannot go on for ever. */
  lemma {:induction false} ScheduleConserves(file: string, sender0: nat, receiver0: nat,
                                             t: Transfer, moves: seq<Move>, t': Transfer)
    requires Conserved(file, sender0, receiver0, t) && IsSchedule(t, moves, t')
    ensures Conserved(file, sender0, receiver0, t')
    ensures |moves| <= Remaining(t) - Remaining(t')
    decreases moves
  {
    if moves == [] {
    } else {
      MoveConserves(file, sender0, receiver0, t, moves[0]);
      ScheduleConserves(file, sender0, receiver0, Moved(t, moves[0]), moves[1..], t');
    }
  }

  /** As long as the receiver has not finished, somebody can move. */
  lemma SomebodyCanMove(file: string, sender0: nat, receiver0: nat, t: Transfer)
    requires Conserved(file, sender0, receiver0, t) && !t.done
    ensures exists m :: CanMove(t, m)
  {
    if t.unread != "" {
      assert CanMove(t, SendChunk);
    } else if t.flight != "" {
      assert CanMove(t, ReceiveChunk(1));
    } else if !t.closed {
      assert CanMove(t, Close);
    } else {
      assert CanMove(t, Finish);
    }
  }

  /** Every schedule ends, after at most 2 * size + 2 moves, and when nobody can move any more the
      copies are equal and each side's total has grown by the size. */
  lemma EverySchedule(file: string, sender0: nat, receiver0: nat, moves: seq<Move>, t: Transfer)
    requires IsSchedule(Start(file, sender0, receiver0), moves, t)
    ensures |moves| <= 2 * |file| + 2
    ensures t.written + t.flight + t.unread == file
    ensures (forall m :: !CanMove(t, m)) <==> t.done
    ensures t.done ==> t.written == file && t.senderTotal == sender0 + |file| && t.receiverTotal == receiver0 + |file|
  {
    assert "" + "" + file == file;
    ScheduleConserves(file, sender0, receiver0, Start(file, sender0, receiver0), moves, t);
    if !t.done {
      SomebodyCanMove(file, sender0, receiver0, t);
    } else {
      assert t.written + "" + "" == t.written;
    }
  }
}
