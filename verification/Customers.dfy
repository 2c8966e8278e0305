/** The linked list of customers of CN1, keyed by the printed address
    (NS Lab debashish/CN1/server.c, `insert` and `search`). */
module Customers {
  import opened Decimal

  type Octet = n: nat | n < 256
  type Port = n: nat | n < 65536

  datatype Address = Address(a: Octet, b: Octet, c: Octet, d: Octet, port: Port)

  /** "%s:%d" of the dotted address and the port. */
  function Text(ad: Address): string {
    Digits(ad.a) + ("." + (Digits(ad.b) + ("." + (Digits(ad.c) + ("." + (Digits(ad.d) + (":" + Digits(ad.port))))))))
  }

  lemma Shift(x: string, y: string, z: string, right: string)
    requires y + z == right
    ensures (x + y) + z == x + right
  {
  }

  /** Four decimal octets with dots between them, a colon and the port. */
  lemma TextIs(ad: Address)
    ensures Text(ad) ==
      Digits(ad.a) + "." + Digits(ad.b) + "." + Digits(ad.c) + "." + Digits(ad.d) + ":" + Digits(ad.port)
  {
    var a, b, c, d, port := Digits(ad.a), Digits(ad.b), Digits(ad.c), Digits(ad.d), Digits(ad.port);
    TextOfParts(a, b, c, d, port);
  }

  lemma TextOfParts(a: string, b: string, c: string, d: string, port: string)
    ensures a + "." + b + "." + c + "." + d + ":" + port ==
      a + ("." + (b + ("." + (c + ("." + (d + (":" + port)))))))
  {
    var l1 := a + ".";
    var l2 := l1 + b + ".";
    var l3 := l2 + c + ".";
    Shift(l3 + d, ":", port, ":" + port);
    Shift(l3, d, ":" + port, d + (":" + port));
    var r3 := d + (":" + port);
    Shift(l2 + c, ".", r3, "." + r3);
    Shift(l2, c, "." + r3, c + ("." + r3));
    var r2 := c + ("." + r3);
    Shift(l1 + b, ".", r2, "." + r2);
    Shift(l1, b, "." + r2, b + ("." + r2));
    var r1 := b + ("." + r2);
    Shift(a, ".", r1, "." + r1);
  }

  lemma CancelDigits(m: nat, n: nat, mark: char, r1: string, r2: string)
    requires !IsDigit(mark)
    requires Digits(m) + ([mark] + r1) == Digits(n) + ([mark] + r2)
    ensures m == n && r1 == r2
  {
    DigitsValue(m);
    DigitsValue(n);
    assert Digits(m) + [mark] + r1 == Digits(m) + ([mark] + r1);
    assert Digits(n) + [mark] + r2 == Digits(n) + ([mark] + r2);
    SplitAtMark(Digits(m), Digits(n), mark, r1, r2);
  }

  /** Different addresses are printed differently. */
  lemma TextIsInjective(x: Address, y: Address)
    ensures Text(x) == Text(y) <==> x == y
  {
    if Text(x) == Text(y) {
      var x4, y4 := Digits(x.d) + (":" + Digits(x.port)), Digits(y.d) + (":" + Digits(y.port));
      var x3, y3 := Digits(x.c) + ("." + x4), Digits(y.c) + ("." + y4);
      var x2, y2 := Digits(x.b) + ("." + x3), Digits(y.b) + ("." + y3);
      CancelDigits(x.a, y.a, '.', x2, y2);
      CancelDigits(x.b, y.b, '.', x3, y3);
      CancelDigits(x.c, y.c, '.', x4, y4);
      CancelDigits(x.d, y.d, ':', Digits(x.port), Digits(y.port));
      DigitsValue(x.port);
      DigitsValue(y.port);
    }
  }

  class Node {
    var addr: string
    var next: Node?

    constructor (addr: string)
      ensures this.addr == addr && next == null
    {
      this.addr := addr;
      next := null;
    }
  }

  class CustomerList {
    var head: Node?
    ghost var nodes: seq<Node>       // the nodes from the head on
    ghost var contents: seq<string>  // their addresses

    /** The links run through `nodes` once each and end: the list has no cycle. */
    ghost predicate Valid()
      reads this, nodes
    {
      && |contents| == |nodes|
      && head == (if nodes == [] then null else nodes[0])
      && (forall i :: 0 <= i < |nodes| - 1 ==> nodes[i].next == nodes[i + 1])
      && (nodes != [] ==> nodes[|nodes| - 1].next == null)
      && (forall i :: 0 <= i < |nodes| ==> nodes[i].addr == contents[i])
      && (forall i, j :: 0 <= i < j < |nodes| ==> nodes[i] != nodes[j])
    }

    constructor ()
      ensures Valid() && contents == [] && nodes == []
    {
      head, nodes, contents := null, [], [];
    }

    /** Appends a node for the address behind the last one. */
    method Insert(ad: Address)
      requires Valid()
      modifies this, nodes
      ensures Valid() && contents == old(contents) + [Text(ad)]
      ensures |nodes| == |old(nodes)| + 1 && old(nodes) == nodes[..|old(nodes)|] && fresh(nodes[|old(nodes)|])
    {
      var new_node := new Node(Text(ad));
      assert Valid();
      if head == null {
        head := new_node;
      } else {
        var cur_node: Node := head;
        ghost var at := 0;
        while cur_node.next != null
          invariant at < |nodes| && cur_node == nodes[at]
          invariant cur_node.next == if at == |nodes| - 1 then null else nodes[at + 1]
          decreases |nodes| - at
        {
          cur_node := cur_node.next;
          at := at + 1;
        }
        cur_node.next := new_node;
      }
      nodes := nodes + [new_node];
      contents := contents + [Text(ad)];
    }

    method Search(ad: Address) returns (found: bool)
      requires Valid()
      ensures found <==> Text(ad) in contents
    {
      var to_search := Text(ad);
      var cur_node := head;
      ghost var at := 0;
      while cur_node != null
        invariant at <= |nodes|
        invariant cur_node == if at < |nodes| then nodes[at] else null
        invariant to_search !in contents[..at]
        decreases |nodes| - at
      {
        if cur_node.addr == to_search {
          return true;
        }
        cur_node := cur_node.next;
        at := at + 1;
      }
      assert contents[..at] == contents;
      found := false;
    }
  }
}
