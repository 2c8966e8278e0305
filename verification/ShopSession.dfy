/** Whole sessions of the fruit shop CN1: the server's `handle_connection` and accept loop, and
    the client that formats an order and interprets the replies. */
module ShopSession {
  import opened Decimal
  import opened Catalogue
  import opened Customers

  const BUF_SIZE := 31

  // ---------- one connection ----------

  /** Conversion of an int to the signed `char` that holds the result of `purchase`. */
  function ToChar(n: int): int {
    (n + 128) % 256 - 128
  }

  function Lower(c: char): char {
    if 'A' <= c <= 'Z' then (c as int + 32) as char else c
  }

  function LowerText(s: string): (r: string)
    ensures |r| == |s| && forall i :: 0 <= i < |s| ==> r[i] == Lower(s[i])
    ensures forall i :: 0 <= i < |s| && !('A' <= s[i] <= 'Z') ==> r[i] == s[i]
    ensures forall i :: 0 <= i < |s| && 'A' <= s[i] <= 'Z' ==> r[i] as int == s[i] as int + 32
  {
    if s == "" then "" else [Lower(s[0])] + LowerText(s[1..])
  }

  datatype Request = ReadFailed | Order(text: string)

  /** An accepted connection: its peer's address, what is read from it, and the clock. */
  datatype Connection = Connection(cad: Address, request: Request, now: int)

  /** What the server keeps: stock, customer list, count of unique customers. */
  datatype Shop = Shop(fruits: seq<Fruit>, customers: seq<string>, unique: int)

  /** Orders as the buffers of the two programs allow them: `buf` of 31 bytes, `quantity` of 5. */
  predicate OrderFits(order: string) {
    |order| < BUF_SIZE && |QuantityText(LowerText(order))| <= 4
  }

  predicate Fits(c: Connection) {
    c.request.Order? ==> OrderFits(c.request.text)
  }

  function Verdict(fruits: seq<Fruit>, order: string): int {
    ToChar(Code(fruits, LowerText(order)))
  }

  predicate AnsweredDone(fruits: seq<Fruit>, c: Connection) {
    c.request.Order? && Verdict(fruits, c.request.text) < 0 && Verdict(fruits, c.request.text) != NOT_FOUND
  }

  function Answer(verdict: int): seq<string> {
    if verdict >= 0 then ["no_quan", Printed(verdict)]
    else if verdict == NOT_FOUND then ["no_fruit"]
    else ["done"]
  }

  /** The messages written to the client, in order. */
  function Replies(s: Shop, c: Connection): seq<string> {
    [Printed(s.unique)] + match c.request
                          case ReadFailed => []
                          case Order(text) => Answer(Verdict(s.fruits, text))
  }

  function Restocked(fruits: seq<Fruit>, c: Connection): (r: seq<Fruit>)
    ensures |r| == |fruits|
  {
    match c.request
    case ReadFailed => fruits
    case Order(text) => Stock(fruits, LowerText(text), c.now)
  }

  predicate NewCustomer(s: Shop, c: Connection) {
    AnsweredDone(s.fruits, c) && Text(c.cad) !in s.customers
  }

  function Served(s: Shop, c: Connection): Shop {
    Shop(
      Restocked(s.fruits, c),
      if NewCustomer(s, c) then s.customers + [Text(c.cad)] else s.customers,
      s.unique + if NewCustomer(s, c) then 1 else 0)
  }

  function ServedAll(s: Shop, cs: seq<Connection>): Shop {
    if cs == [] then s else Served(ServedAll(s, cs[..|cs| - 1]), cs[|cs| - 1])
  }

  lemma ServedOrder(s: Shop, c: Connection, i: int, fruits: seq<Fruit>, customers: seq<string>, r: int)
    requires c.request.Order? && i == ToChar(Code(s.fruits, LowerText(c.request.text)))
    requires fruits == Stock(s.fruits, LowerText(c.request.text), c.now)
    requires r == if i < 0 && i != NOT_FOUND && Text(c.cad) !in s.customers then 1 else 0
    requires customers == if r == 1 then s.customers + [Text(c.cad)] else s.customers
    ensures Served(s, c) == Shop(fruits, customers, s.unique + r)
    ensures Replies(s, c) == [Printed(s.unique)] + Answer(i)
  {
  }

  class Server {
    const fruits: array<Fruit>
    const list: CustomerList

    constructor (fruits: array<Fruit>)
      ensures this.fruits == fruits && list.Valid() && list.contents == []
      ensures fresh(list) && list.nodes == []
    {
      this.fruits := fruits;
      list := new CustomerList();
    }

    ghost function State(unique: int): Shop
      reads fruits, list
    {
      Shop(fruits[..], list.contents, unique)
    }

    /** The loop of line 49. */
    static method ToLower(text: string) returns (order: string)
      ensures order == LowerText(text)
    {
      order := text;
      for i := 0 to |order|
        invariant |order| == |text|
        invariant forall k :: 0 <= k < |text| ==> order[k] == if k < i then Lower(text[k]) else text[k]
      {
        order := order[i := Lower(order[i])];
      }
    }

    /** What follows the purchase (lines 52-80); i is its result as a `char`. */
    method Reply(i: int, cad: Address) returns (messages: seq<string>, r: int)
      requires list.Valid()
      modifies list, list.nodes
      ensures list.Valid()
      ensures forall k :: 0 <= k < |list.nodes| ==> list.nodes[k] in old(list.nodes) || fresh(list.nodes[k])
      ensures messages == Answer(i)
      ensures r == if i < 0 && i != NOT_FOUND && Text(cad) !in old(list.contents) then 1 else 0
      ensures list.contents == if r == 1 then old(list.contents) + [Text(cad)] else old(list.contents)
    {
      r := 0;
      if i >= 0 {
        messages := ["no_quan", Printed(i)];
      } else if i == NOT_FOUND {
        messages := ["no_fruit"];
      } else {
        messages := ["done"];
        var known := list.Search(cad);
        if !known {
          list.Insert(cad);
          r := 1;
        }
      }
    }

    /** `handle_connection`: the result is 1 for a new customer. */
    method HandleConnection(un_conn: int, c: Connection) returns (messages: seq<string>, r: int)
      requires list.Valid() && Fits(c)
      modifies fruits, list, list.nodes
      ensures list.Valid()
      ensures forall k :: 0 <= k < |list.nodes| ==> list.nodes[k] in old(list.nodes) || fresh(list.nodes[k])
      ensures messages == Replies(old(State(un_conn)), c)
      ensures State(un_conn + r) == Served(old(State(un_conn)), c)
    {
      messages, r := [Printed(un_conn)], 0;
      if c.request.Order? {
        var order := ToLower(c.request.text);
        var code := Purchase(order, fruits, c.now);
        var answer;
        answer, r := Reply(ToChar(code), c.cad);
        ServedOrder(old(State(un_conn)), c, ToChar(code), fruits[..], list.contents, r);
        messages := messages + answer;
      }
    }

    /** The accept loop of `main`. */
    method Session(connections: seq<Connection>) returns (session_unique_conn: int)
      requires list.Valid() && list.contents == []
      requires forall i :: 0 <= i < |connections| ==> Fits(connections[i])
      modifies fruits, list, list.nodes
      ensures list.Valid()
      ensures State(session_unique_conn) == ServedAll(old(State(0)), connections)
    {
      session_unique_conn := 0;
      for k := 0 to |connections|
        invariant list.Valid()
        invariant forall i :: 0 <= i < |list.nodes| ==> list.nodes[i] in old(list.nodes) || fresh(list.nodes[i])
        invariant State(session_unique_conn) == ServedAll(old(State(0)), connections[..k])
      {
        var messages, r := HandleConnection(session_unique_conn, connections[k]);
        assert connections[..k + 1][..k] == connections[..k];
        session_unique_conn := session_unique_conn + r;
      }
      assert connections[..|connections|] == connections;
    }
  }
}
