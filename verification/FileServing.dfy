/** The server of A2 over whole sessions (A2/h1/h1.c), with the clients of A2/h2 and A2/h3. */
module FileServing {
  import opened CStrings
  import opened Streams
  import opened FileTransfer

  // ---------- sessions as steps of the server's state ----------

  datatype Store = Store(files: map<string, string>, total: nat)

  /** A client's request, with the file name as the user of the client wrote it. */
  datatype Request = Upload(filename: string, data: string) | Download(filename: string)

  function Target(r: Request): FileName {
    NameAtServer(if r.Upload? then "upload" else "download", r.filename)
  }

  /** The server has a name to open and does not exit because a file to be downloaded is missing. */
  predicate Completes(s: Store, r: Request) {
    Target(r).Name? && (r.Download? ==> Target(r).name in s.files)
  }

  function Handled(s: Store, r: Request): Store
    requires Completes(s, r)
  {
    match r
    case Upload(_, data) => Store(s.files[Target(r).name := data], s.total + |data|)
    case Download(_) => s.(total := s.total + |s.files[Target(r).name]|)
  }

  ghost predicate IsRun(s: Store, requests: seq<Request>, s': Store)
    decreases requests
  {
    if requests == [] then s == s'
    else Completes(s, requests[0]) && IsRun(Handled(s, requests[0]), requests[1..], s')
  }

  predicate Writes(r: Request, name: FileName) {
    r.Upload? && Target(r) == name
  }

  lemma {:induction false} UntouchedFile(s: Store, requests: seq<Request>, s': Store, name: string)
    requires IsRun(s, requests, s')
    requires forall i :: 0 <= i < |requests| ==> !Writes(requests[i], Name(name))
    ensures (name in s'.files <==> name in s.files) && (name in s.files ==> s'.files[name] == s.files[name])
    decreases requests
  {
    if requests == [] {
    } else {
      assert !Writes(requests[0], Name(name));
      forall i | 0 <= i < |requests[1..]| ensures !Writes(requests[1..][i], Name(name)) {
        assert requests[1..][i] == requests[i + 1];
      }
      UntouchedFile(Handled(s, requests[0]), requests[1..], s', name);
    }
  }

  /** What a download is answered with. */
  datatype Answer = NoAnswer | Data(data: string)

  function AnswerTo(s: Store, filename: string): Answer {
    var r := Download(filename);
    if Completes(s, r) then Data(s.files[Target(r).name]) else NoAnswer
  }

  lemma Targets(filename: string, data: string)
    requires NoZero(filename)
    ensures Target(Upload(filename, data)).Name? <==> |filename| < BUFFSIZE
    ensures Target(Download(filename)).Name? <==> |filename| < BUFFSIZE
    ensures |filename| < BUFFSIZE ==>
      (Target(Upload(filename, data)) == Target(Download(filename)) <==> 8 <= |filename|)
  {
    NamedIff("upload", filename);
    NamedIff("download", filename);
    SameStoredNameIff(filename);
  }

  lemma AnswerByName(s: Store, filename: string)
    requires Target(Download(filename)).Name?
    ensures var name := Target(Download(filename)).name;
      AnswerTo(s, filename) == if name in s.files then Data(s.files[name]) else NoAnswer
  {
  }

  /** Downloading a name that was uploaded before, with any sessions in between that do not write
      that file: a name of eight or nine characters gives the uploaded data back; for a shorter
      one the upload has no influence at all on the answer. Longer names have no upload. */
  lemma DownloadAfterUpload(s: Store, filename: string, data: string, between: seq<Request>, s': Store)
    requires NoZero(filename) && Completes(s, Upload(filename, data))
    requires IsRun(Handled(s, Upload(filename, data)), between, s')
    requires forall i :: 0 <= i < |between| ==> !Writes(between[i], Target(Download(filename)))
    ensures AnswerTo(s', filename) == if 8 <= |filename| < 10 then Data(data) else AnswerTo(s, filename)
    ensures |filename| < BUFFSIZE
  {
    Targets(filename, data);
    var s1 := Handled(s, Upload(filename, data));
    UntouchedFile(s1, between, s', Target(Download(filename)).name);
    AnswerByName(s, filename);
    AnswerByName(s1, filename);
    AnswerByName(s', filename);
  }

  // ---------- the server ----------

  /** What one pass of the accept loop did. Undefined: the name was not terminated. */
  datatype Outcome =
    | Uploaded(name: string, data: string)
    | Downloaded(name: string, data: string)
    | Ignored
    | Exited
    | Undefined

  predicate Stops(o: Outcome) {
    o.Exited? || o.Undefined?
  }

  function FilesAfterOne(files: map<string, string>, o: Outcome): map<string, string> {
    if o.Uploaded? then files[o.name := o.data] else files
  }

  function FilesAfter(files: map<string, string>, outcomes: seq<Outcome>): map<string, string> {
    if outcomes == [] then files
    else FilesAfterOne(FilesAfter(files, outcomes[..|outcomes| - 1]), outcomes[|outcomes| - 1])
  }

  function Bytes(o: Outcome): nat {
    if o.Uploaded? || o.Downloaded? then |o.data| else 0
  }

  function AllBytes(outcomes: seq<Outcome>): nat {
    if outcomes == [] then 0 else AllBytes(outcomes[..|outcomes| - 1]) + Bytes(outcomes[|outcomes| - 1])
  }

  /** A download delivers what the file holds at that moment. */
  predicate Current(files: map<string, string>, o: Outcome) {
    o.Downloaded? ==> o.name in files && files[o.name] == o.data
  }

  /** What the outcome means for the two directions of the connection: an uploaded file is the end
      of what was sent up, a downloaded one is all that is sent down. */
  predicate OnStreams(o: Outcome, up0: string, down0: string, down: string) {
    && (o.Uploaded? ==> |o.data| <= |up0| && up0[|up0| - |o.data|..] == o.data)
    && down == down0 + if o.Downloaded? then o.data else ""
  }

  /** Every download delivered what the file held at its time. */
  predicate AllCurrent(files: map<string, string>, outcomes: seq<Outcome>) {
    forall i :: 0 <= i < |outcomes| ==> Current(FilesAfter(files, outcomes[..i]), outcomes[i])
  }

  /** How the accept loop has come from store s0 to s: the outcomes on the connections so far, of
      which only the last one may have stopped the server. */
  predicate Accepted(s0: Store, ups: seq<string>, outcomes: seq<Outcome>, downs: seq<string>, s: Store, stopped: bool) {
    && |outcomes| == |downs| <= |ups|
    && (forall i :: 0 <= i < |outcomes| ==> OnStreams(outcomes[i], ups[i], "", downs[i]))
    && (forall i :: 0 <= i < |outcomes| ==> (Stops(outcomes[i]) <==> stopped && i == |outcomes| - 1))
    && (stopped ==> outcomes != [])
    && s.files == FilesAfter(s0.files, outcomes)
    && s.total == s0.total + AllBytes(outcomes)
    && AllCurrent(s0.files, outcomes)
  }

  lemma OneMoreCurrent(files: map<string, string>, outcomes: seq<Outcome>, o: Outcome)
    requires AllCurrent(files, outcomes) && Current(FilesAfter(files, outcomes), o)
    ensures AllCurrent(files, outcomes + [o])
    ensures FilesAfter(files, outcomes + [o]) == FilesAfterOne(FilesAfter(files, outcomes), o)
    ensures AllBytes(outcomes + [o]) == AllBytes(outcomes) + Bytes(o)
  {
    var more := outcomes + [o];
    assert more[..|outcomes|] == outcomes;
    forall i | 0 <= i < |more| ensures Current(FilesAfter(files, more[..i]), more[i]) {
      assert more[..i] == outcomes[..i];
    }
  }

  lemma OneMoreAccepted(s0: Store, ups: seq<string>, outcomes: seq<Outcome>, downs: seq<string>, s: Store,
                        o: Outcome, down: string, s': Store)
    requires Accepted(s0, ups, outcomes, downs, s, false) && |outcomes| < |ups|
    requires Current(s.files, o) && OnStreams(o, ups[|outcomes|], "", down)
    requires s' == Store(FilesAfterOne(s.files, o), s.total + Bytes(o))
    ensures Accepted(s0, ups, outcomes + [o], downs + [down], s', Stops(o))
  {
    OneMoreCurrent(s0.files, outcomes, o);
  }

  lemma DataIsTail(stream: string, records: string, data: string)
    requires stream == records + data
    ensures |data| <= |stream| && stream[|stream| - |data|..] == data && stream[|records|..] == data
  {
  }

  class FileServer {
    var files: map<string, string>
    const peer: Peer

    ghost function State(): Store
      reads this, peer
    {
      Store(files, peer.total)
    }

    constructor (disk: map<string, string>)
      ensures files == disk && peer.total == 0 && fresh(peer)
    {
      files := disk;
      peer := new Peer();
    }

    /** One pass of the accept loop (lines 63-123): up is what the client sends, down what it is
        sent; the client has closed its side. first and second are what the two receives for the
        operation and the file name happened to take. */
    method Serve(up: Pipe<char>, down: Pipe<char>) returns (first: string, second: string, outcome: Outcome)
      requires up != down
      modifies this, peer, up, down
      ensures first <= old(up.bytes) && |first| <= BUFFSIZE
      ensures CString(first) == "upload" || CString(first) == "download" ==>
        first + second <= old(up.bytes) && |second| <= BUFFSIZE
      ensures match outcome
              case Uploaded(name, data) =>
                && CString(first) == "upload" && NameIn(second) == Name(name)
                && data == old(up.bytes)[|first| + |second|..]
              case Downloaded(name, _) => CString(first) == "download" && NameIn(second) == Name(name)
              case Exited => CString(first) == "download" && NameIn(second).Name? && NameIn(second).name !in files
              case Undefined => (CString(first) == "upload" || CString(first) == "download") && !NameIn(second).Name?
              case Ignored => CString(first) != "upload" && CString(first) != "download"
      ensures Current(old(files), outcome) && OnStreams(outcome, old(up.bytes), old(down.bytes), down.bytes)
      ensures files == FilesAfterOne(old(files), outcome) && peer.total == old(peer.total) + Bytes(outcome)
    {
      outcome, second := Ignored, "";
      first := up.Recv(BUFFSIZE);
      var operation := CString(first);
      if operation == "upload" {
        second := up.Recv(BUFFSIZE);
        var filename := NameIn(second);
        if !filename.Name? {
          assert old(up.bytes) == (first + second) + up.bytes;
          return first, second, Undefined;
        }
        ghost var rest := up.bytes;
        assert old(up.bytes) == (first + second) + rest;
        var fp := peer.WriteFile(up);
        DataIsTail(old(up.bytes), first + second, fp);
        files := files[filename.name := fp];
        outcome := Uploaded(filename.name, fp);
      }
      if operation == "download" {
        second := up.Recv(BUFFSIZE);
        assert old(up.bytes) == (first + second) + up.bytes;
        var filename := NameIn(second);
        if !filename.Name? {
          return first, second, Undefined;
        }
        if filename.name !in files {
          return first, second, Exited;
        }
        peer.SendFile(files[filename.name], down);
        outcome := Downloaded(filename.name, files[filename.name]);
      }
    }

    /** A connection from `accept` to `close`, whatever its receives take. */
    method Connection(up: string) returns (outcome: Outcome, down: string)
      modifies this, peer
      ensures Current(old(files), outcome) && OnStreams(outcome, up, "", down)
      ensures State() == Store(FilesAfterOne(old(files), outcome), old(peer.total) + Bytes(outcome))
    {
      var fromClient := new Pipe<char>();
      var toClient := new Pipe<char>();
      fromClient.Send(up);
      assert fromClient.bytes == up;
      var first, second;
      first, second, outcome := Serve(fromClient, toClient);
      down := toClient.bytes;
    }

    /** The accept loop until the server exits (lines 52-124). ups holds what each client in turn
        sends, downs what it is sent. Whatever the receives take, the counter grows by exactly
        what was written to files and sent down, and every download delivers the file as the
        uploads before it left it. */
    method AcceptLoop(ups: seq<string>) returns (outcomes: seq<Outcome>, downs: seq<string>, stopped: bool)
      modifies this, peer
      ensures Accepted(old(State()), ups, outcomes, downs, State(), stopped)
      ensures stopped || |outcomes| == |ups|
    {
      outcomes, downs, stopped := [], [], false;
      while |outcomes| < |ups| && !stopped
        invariant Accepted(old(State()), ups, outcomes, downs, State(), stopped)
        decreases |ups| - |outcomes|
      {
        ghost var before := State();
        var outcome, down := Connection(ups[|outcomes|]);
        OneMoreAccepted(old(State()), ups, outcomes, downs, before, outcome, down, State());
        outcomes, downs, stopped := outcomes + [outcome], downs + [down], Stops(outcome);
      }
    }
  }

  /** Every download delivers the data of the last upload of that name before it. */
  lemma {:induction false} LastUploadIsDelivered(files: map<string, string>, outcomes: seq<Outcome>, i: nat, j: nat)
    requires i < j < |outcomes| && outcomes[i].Uploaded?
    requires outcomes[j].Downloaded? && outcomes[j].name == outcomes[i].name
    requires forall k :: i < k < j && outcomes[k].Uploaded? ==> outcomes[k].name != outcomes[i].name
    requires AllCurrent(files, outcomes)
    ensures outcomes[j].data == outcomes[i].data
  {
    assert Current(FilesAfter(files, outcomes[..j]), outcomes[j]);
    StillThere(files, outcomes, i, j);
  }

  lemma {:induction false} StillThere(files: map<string, string>, outcomes: seq<Outcome>, i: nat, j: nat)
    requires i < j <= |outcomes| && outcomes[i].Uploaded?
    requires forall k :: i < k < j && outcomes[k].Uploaded? ==> outcomes[k].name != outcomes[i].name
    ensures outcomes[i].name in FilesAfter(files, outcomes[..j])
    ensures FilesAfter(files, outcomes[..j])[outcomes[i].name] == outcomes[i].data
    decreases j
  {
    assert outcomes[..j][..j - 1] == outcomes[..j - 1];
    if i < j - 1 {
      StillThere(files, outcomes, i, j - 1);
    }
  }

  // ---------- server and clients ----------

  lemma SameLengthPrefix(a: string, b: string, rest: string)
    requires a <= b + rest && |a| == |b|
    ensures a == b
  {
    assert a == (b + rest)[..|a|];
  }

  lemma WholeRecords(stream: string, sent1: string, sent2: string, data: string, first: string, second: string)
    requires stream == sent1 + sent2 + data && first + second <= stream
    requires |first| == |sent1| && |second| == |sent2|
    ensures first == sent1 && second == sent2 && stream[|first| + |second|..] == data
  {
    SameLengthPrefix(first + second, sent1 + sent2, data);
    assert first == (first + second)[..|first|] && sent1 == (sent1 + sent2)[..|first|];
    assert second == (first + second)[|first|..] && sent2 == (sent1 + sent2)[|first|..];
  }

  lemma FirstRecord(stream: string, sent1: string, sent2: string, data: string, first: string)
    requires stream == sent1 + sent2 + data && first <= stream && |first| == |sent1|
    ensures first == sent1
  {
    assert sent1 + sent2 + data == sent1 + (sent2 + data);
    SameLengthPrefix(first, sent1, sent2 + data);
  }

  /** An upload by the client of A2/h2. sent: the request fitted the client's buffer; whole: its two
      records were received one by one. */
  method UploadSession(server: FileServer, client: Peer, filename: string, data: string)
    returns (sent: bool, whole: bool, outcome: Outcome)
    requires NoZero(filename) && client != server.peer
    modifies server, server.peer, client
    ensures sent <==> |filename| <= BUFFSIZE
    ensures sent ==> client.total == old(client.total) + |data|
    ensures whole ==> sent && (outcome.Uploaded? <==> Completes(old(server.State()), Upload(filename, data)))
    ensures whole && outcome.Uploaded? ==> server.State() == Handled(old(server.State()), Upload(filename, data))
  {
    whole, outcome := false, Undefined;
    var up := new Pipe<char>();
    var down := new Pipe<char>();
    var sent1, sent2;
    sent, sent1, sent2 := SendRequest(up, "upload", filename);
    NamedIff("upload", filename);
    if !sent {
      return;
    }
    client.SendFile(data, up);
    ghost var stream := up.bytes;
    assert "" + sent1 + sent2 == sent1 + sent2;
    var first, second;
    first, second, outcome := server.Serve(up, down);
    whole := |first| == BUFFSIZE && |second| == BUFFSIZE;
    if whole {
      FirstRecord(stream, sent1, sent2, data, first);
      WholeRecords(stream, sent1, sent2, data, first, second);
    }
  }

  /** A download by the client of A2/h3, which writes what it receives to its own file. */
  method DownloadSession(server: FileServer, client: Peer, filename: string)
    returns (sent: bool, whole: bool, outcome: Outcome, fp: string)
    requires NoZero(filename) && client != server.peer
    modifies server, server.peer, client
    ensures sent <==> |filename| <= BUFFSIZE
    ensures client.total == old(client.total) + |fp|
    ensures whole ==> sent && (outcome.Downloaded? <==> Completes(old(server.State()), Download(filename)))
    ensures whole && outcome.Downloaded? ==> server.State() == Handled(old(server.State()), Download(filename))
    ensures whole && outcome.Downloaded? ==> Data(fp) == AnswerTo(old(server.State()), filename)
    ensures whole && !outcome.Downloaded? ==> server.State() == old(server.State()) && fp == ""
  {
    whole, outcome, fp := false, Undefined, "";
    var up := new Pipe<char>();
    var down := new Pipe<char>();
    var sent1, sent2;
    sent, sent1, sent2 := SendRequest(up, "download", filename);
    NamedIff("download", filename);
    if !sent {
      return;
    }
    ghost var stream := up.bytes;
    assert "" + sent1 + sent2 == sent1 + sent2;
    var first, second;
    first, second, outcome := server.Serve(up, down);
    fp := client.WriteFile(down);
    whole := |first| == BUFFSIZE && |second| == BUFFSIZE;
    if whole {
      assert stream + "" == stream;
      FirstRecord(stream, sent1, sent2, "", first);
      WholeRecords(stream, sent1, sent2, "", first, second);
    }
  }
}
