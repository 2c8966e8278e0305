/** The chat server's table of clients (A5/server.c): its three operations as functions on the
    slots, and as the code runs them on the shared array. */
module ClientTable {

  const MAX_CONNECTIONS := 5

  /** A CLIENT record: id stands for the allocation and its socket, cid is the drawn number. */
  datatype Client = Client(id: nat, cid: int)

  datatype Slot = Null | Ptr(client: Client)

  type Output = map<Client, seq<string>>

  /** What has been written to a client's socket. */
  function Log(out: Output, c: Client): seq<string> {
    if c in out then out[c] else []
  }

  // ---------- the operations ----------

  function FirstFree(slots: seq<Slot>): (k: nat)
    ensures k <= |slots|
    ensures k < |slots| ==> slots[k] == Null
    ensures forall i :: 0 <= i < k ==> slots[i].Ptr?
  {
    if slots == [] || slots[0].Null? then 0 else 1 + FirstFree(slots[1..])
  }

  predicate Holds(slot: Slot, cid: int) {
    slot.Ptr? && slot.client.cid == cid
  }

  function FirstHolding(slots: seq<Slot>, cid: int): (k: nat)
    ensures k <= |slots|
    ensures k < |slots| ==> Holds(slots[k], cid)
    ensures forall i :: 0 <= i < k ==> !Holds(slots[i], cid)
  {
    if slots == [] || Holds(slots[0], cid) then 0 else 1 + FirstHolding(slots[1..], cid)
  }

  function Added(slots: seq<Slot>, c: Client): (r: seq<Slot>)
    ensures |r| == |slots|
  {
    var k := FirstFree(slots);
    if k < |slots| then slots[k := Ptr(c)] else slots
  }

  function Removed(slots: seq<Slot>, cid: int): (r: seq<Slot>)
    ensures |r| == |slots|
  {
    var k := FirstHolding(slots, cid);
    if k < |slots| then slots[k := Null] else slots
  }

  predicate Receives(slot: Slot, cid: int) {
    slot.Ptr? && slot.client.cid != cid
  }

  /** Writing the text once for each of the given slots whose client has another cid. */
  function Broadcast(slots: seq<Slot>, cid: int, text: string, out: Output): Output {
    if slots == [] then out
    else
      var before := Broadcast(slots[..|slots| - 1], cid, text, out);
      var slot := slots[|slots| - 1];
      if Receives(slot, cid) then before[slot.client := Log(before, slot.client) + [text]] else before
  }

  /** Index of the first recipient whose socket cannot be written, where the loop is left. */
  function Reach(slots: seq<Slot>, cid: int, broken: set<Client>): (k: nat)
    ensures k <= |slots|
    ensures k < |slots| ==> Receives(slots[k], cid) && slots[k].client in broken
    ensures forall i :: 0 <= i < k ==> !(Receives(slots[i], cid) && slots[i].client in broken)
  {
    if slots == [] || (Receives(slots[0], cid) && slots[0].client in broken) then 0
    else 1 + Reach(slots[1..], cid, broken)
  }

  // ---------- the table as a bounded set ----------

  predicate Injective(slots: seq<Slot>) {
    forall i, j :: 0 <= i < j < |slots| && slots[i].Ptr? ==> slots[i] != slots[j]
  }

  predicate DistinctCids(slots: seq<Slot>) {
    forall i, j :: 0 <= i < |slots| && 0 <= j < |slots| && slots[i].Ptr? && slots[j].Ptr? ==>
      (slots[i].client.cid == slots[j].client.cid ==> slots[i].client == slots[j].client)
  }

  function Members(slots: seq<Slot>): set<Client> {
    set slot | slot in slots && slot.Ptr? :: slot.client
  }

  lemma MemberIffInSlot(slots: seq<Slot>, c: Client)
    ensures c in Members(slots) <==> Ptr(c) in slots
  {
  }

  lemma {:induction false} MembersBound(slots: seq<Slot>)
    requires Injective(slots)
    ensures |Members(slots)| <= |slots|
    ensures |Members(slots)| == |slots| <==> FirstFree(slots) == |slots|
  {
    if slots == [] {
    } else {
      MembersBound(slots[1..]);
      var slot, rest := slots[0], slots[1..];
      assert slots == [slot] + rest;
      if slot.Ptr? {
        assert slot !in rest;
        assert Members(slots) == Members(rest) + {slot.client};
      } else {
        assert Members(slots) == Members(rest);
      }
    }
  }

  lemma MembersOfAdded(slots: seq<Slot>, c: Client)
    requires Injective(slots) && Ptr(c) !in slots
    ensures Injective(Added(slots, c))
    ensures Members(Added(slots, c)) == if |Members(slots)| < |slots| then Members(slots) + {c} else Members(slots)
  {
    MembersBound(slots);
    var k := FirstFree(slots);
    if k < |slots| {
      var r := Added(slots, c);
      assert r[k] == Ptr(c);
      forall d ensures Ptr(d) in r <==> Ptr(d) in slots || d == c {
        if Ptr(d) in slots {
          var i :| 0 <= i < |slots| && slots[i] == Ptr(d);
          assert r[i] == Ptr(d);
        }
      }
      assert Members(r) == Members(slots) + {c};
    }
  }

  /** Removal clears at most one slot, and that one held a client with the cid. */
  lemma RemovedClearsOne(slots: seq<Slot>, cid: int, i: nat)
    requires i < |slots|
    ensures Removed(slots, cid)[i] == if i == FirstHolding(slots, cid) then Null else slots[i]
    ensures Removed(slots, cid)[i] != slots[i] ==> Holds(slots[i], cid)
  {
  }

  lemma InjectiveRemoved(slots: seq<Slot>, cid: int)
    requires Injective(slots)
    ensures Injective(Removed(slots, cid))
  {
  }

  lemma OnlyOneHolds(slots: seq<Slot>, cid: int, i: nat)
    requires Injective(slots) && DistinctCids(slots) && i < |slots| && Holds(slots[i], cid)
    ensures FirstHolding(slots, cid) == i
  {
    var k := FirstHolding(slots, cid);
    assert slots[k] == slots[i];
  }

  lemma InRemoved(slots: seq<Slot>, cid: int, d: Client)
    requires Injective(slots)
    ensures Ptr(d) in Removed(slots, cid) <==>
      Ptr(d) in slots && (FirstHolding(slots, cid) < |slots| ==> slots[FirstHolding(slots, cid)] != Ptr(d))
  {
    var r, k := Removed(slots, cid), FirstHolding(slots, cid);
    if Ptr(d) in r {
      var i :| 0 <= i < |r| && r[i] == Ptr(d);
      assert slots[i] == Ptr(d);
    }
    if Ptr(d) in slots {
      var i :| 0 <= i < |slots| && slots[i] == Ptr(d);
      assert i != k ==> r[i] == Ptr(d);
    }
  }

  lemma NoOtherHolder(slots: seq<Slot>, cid: int, c: Client)
    requires Injective(slots) && DistinctCids(slots) && Ptr(c) in slots && c.cid == cid
    ensures FirstHolding(slots, cid) < |slots| && slots[FirstHolding(slots, cid)] == Ptr(c)
  {
    var i :| 0 <= i < |slots| && slots[i] == Ptr(c);
    OnlyOneHolds(slots, cid, i);
  }

  /** Removing takes the first holder of the cid out of the set and nobody else; with distinct
      cids that is everybody with this cid. */
  lemma MembersOfRemoved(slots: seq<Slot>, cid: int)
    requires Injective(slots)
    ensures var k := FirstHolding(slots, cid);
      Members(Removed(slots, cid)) == if k < |slots| then Members(slots) - {slots[k].client} else Members(slots)
    ensures DistinctCids(slots) ==> Members(Removed(slots, cid)) == set c | c in Members(slots) && c.cid != cid
  {
    var r, k := Removed(slots, cid), FirstHolding(slots, cid);
    forall c ensures c in Members(r) <==> c in Members(slots) && (k < |slots| ==> slots[k] != Ptr(c)) {
      MemberIffInSlot(r, c);
      MemberIffInSlot(slots, c);
      InRemoved(slots, cid, c);
    }
    if DistinctCids(slots) {
      forall c | c in Members(slots) && c.cid == cid ensures k < |slots| && slots[k] == Ptr(c) {
        MemberIffInSlot(slots, c);
        NoOtherHolder(slots, cid, c);
      }
    }
  }

  /** c is not in the table, or stands there before all others with its cid. */
  predicate RemovesOwn(slots: seq<Slot>, c: Client) {
    Ptr(c) !in slots || (FirstHolding(slots, c.cid) < |slots| && slots[FirstHolding(slots, c.cid)] == Ptr(c))
  }

  /** Removing by cid takes a client out of the table exactly when no other client with the same
      cid stands before it. */
  lemma RemovesOwnIff(slots: seq<Slot>, c: Client)
    requires Injective(slots)
    ensures Ptr(c) !in Removed(slots, c.cid) <==> RemovesOwn(slots, c)
  {
    InRemoved(slots, c.cid, c);
    if Ptr(c) in slots {
      var i :| 0 <= i < |slots| && slots[i] == Ptr(c);
      assert Holds(slots[i], c.cid);
    }
  }

  /** Whoever stands first in the table under c's cid, if anybody, is c. */
  predicate NoNamesakeFirst(slots: seq<Slot>, c: Client) {
    FirstHolding(slots, c.cid) == |slots| || slots[FirstHolding(slots, c.cid)] == Ptr(c)
  }

  /** Removing by cid leaves all slots of other clients alone exactly then. */
  lemma ClearsOnlyOwnIff(slots: seq<Slot>, c: Client)
    ensures (forall i :: 0 <= i < |slots| && Removed(slots, c.cid)[i] != slots[i] ==> slots[i] == Ptr(c)) <==>
      NoNamesakeFirst(slots, c)
  {
    var k := FirstHolding(slots, c.cid);
    assert k < |slots| ==> Removed(slots, c.cid)[k] != slots[k];
  }

  /** The same said of the clients that lose their slot. */
  lemma RemovesOnlyOwnIff(slots: seq<Slot>, c: Client)
    requires Injective(slots)
    ensures (forall d :: Ptr(d) in slots && Ptr(d) !in Removed(slots, c.cid) ==> d == c) <==> NoNamesakeFirst(slots, c)
  {
    var k := FirstHolding(slots, c.cid);
    forall d ensures Ptr(d) in slots && Ptr(d) !in Removed(slots, c.cid) <==> k < |slots| && slots[k] == Ptr(d) {
      InRemoved(slots, c.cid, d);
    }
    if k < |slots| {
      assert slots[k] == Ptr(slots[k].client);
    }
  }

  /** A client that nobody precedes under its cid also gets itself out, but not conversely: one that
      found the table full may leave while a namesake sits in it. */
  lemma NoNamesakeFirstIsStronger(slots: seq<Slot>, c: Client, d: Client)
    requires Injective(slots)
    ensures NoNamesakeFirst(slots, c) ==> RemovesOwn(slots, c)
    ensures c != d && c.cid == d.cid && Ptr(c) !in slots && Ptr(d) in slots ==>
      RemovesOwn(slots, c) && !NoNamesakeFirst(slots, c)
  {
    if Ptr(c) in slots {
      var i :| 0 <= i < |slots| && slots[i] == Ptr(c);
      assert Holds(slots[i], c.cid);
    }
    if Ptr(d) in slots && d.cid == c.cid {
      var i :| 0 <= i < |slots| && slots[i] == Ptr(d);
      assert Holds(slots[i], c.cid);
    }
  }

  /** In a table without duplicates every client gets the text at most once: if it is in one of
      the slots reached and has another cid than the sender. */
  lemma {:induction false} LogAfterBroadcast(slots: seq<Slot>, cid: int, text: string, out: Output, c: Client)
    requires Injective(slots)
    ensures Log(Broadcast(slots, cid, text, out), c) ==
      Log(out, c) + if Ptr(c) in slots && c.cid != cid then [text] else []
  {
    if slots == [] {
      assert Log(out, c) + [] == Log(out, c);
    } else {
      var front, slot := slots[..|slots| - 1], slots[|slots| - 1];
      assert slots == front + [slot];
      LogAfterBroadcast(front, cid, text, out, c);
      if slot == Ptr(c) {
        assert slot !in front;
        assert Log(out, c) + [] == Log(out, c);
      }
    }
  }

  // ---------- the code on the shared array ----------

  class ChatTable {
    const clients: array<Slot>
    var out: Output

    ghost predicate Valid()
      reads this
    {
      clients.Length == MAX_CONNECTIONS
    }

    constructor ()
      ensures Valid() && fresh(clients) && out == map[]
      ensures forall i :: 0 <= i < clients.Length ==> clients[i] == Null
    {
      clients := new Slot[MAX_CONNECTIONS](_ => Null);
      out := map[];
    }

    method AddClient(cli: Client)
      requires Valid()
      modifies clients
      ensures clients[..] == Added(old(clients[..]), cli)
    {
      for i := 0 to MAX_CONNECTIONS
        invariant clients[..] == old(clients[..])
        invariant i <= FirstFree(clients[..])
      {
        if clients[i].Null? {
          assert clients[..][i] == Null;
          clients[i] := Ptr(cli);
          break;
        }
      }
    }

    method RemoveClient(cid: int)
      requires Valid()
      modifies clients
      ensures clients[..] == Removed(old(clients[..]), cid)
    {
      for i := 0 to MAX_CONNECTIONS
        invariant clients[..] == old(clients[..])
        invariant i <= FirstHolding(clients[..], cid)
      {
        if clients[i].Ptr? {
          if clients[i].client.cid == cid {
            assert Holds(clients[..][i], cid);
            clients[i] := Null;
            break;
          }
        }
      }
    }

    /** `send_msg`; a write to a broken socket fails, and then the loop is left. */
    method SendMsg(s: string, cid: int, broken: set<Client>)
      requires Valid()
      modifies this`out
      ensures out == Broadcast(clients[..Reach(clients[..], cid, broken)], cid, s, old(out))
    {
      for i := 0 to MAX_CONNECTIONS
        invariant i <= Reach(clients[..], cid, broken)
        invariant out == Broadcast(clients[..i], cid, s, old(out))
      {
        assert clients[..i + 1][..i] == clients[..i];
        if clients[i].Ptr? {
          if clients[i].client.cid != cid {
            if clients[i].client in broken {
              assert Receives(clients[..][i], cid) && clients[..][i].client in broken;
              break;
            }
            out := out[clients[i].client := Log(out, clients[i].client) + [s]];
          }
        }
      }
    }
  }
}
