/** The client of CN1 and one order from end to end (NS Lab debashish/CN1/client.c). */
module ShopClient {
  import opened Decimal
  import opened Catalogue
  import opened Customers
  import opened ShopSession
  import opened ShopLaws
  import opened ShopCustomers

  datatype Report = NotSold | Placed | Available(n: int) | UnknownResponse

  function OrderText(fruit: string, quantity: string): string {
    fruit + "." + quantity
  }

  /** What the client tells its user about the messages that follow the customer count; a missing
      message reads as an empty buffer. */
  function Interpretation(messages: seq<string>): Report {
    var buf := if messages == [] then "" else messages[0];
    if buf == "no_fruit" then NotSold
    else if buf == "done" then Placed
    else if buf == "no_quan" then Available(if |messages| < 2 then 0 else Atoi(messages[1]))
    else UnknownResponse
  }

  /** The three replies by name; anything else, and no reply, is unknown. */
  lemma Interpreted(messages: seq<string>, n: int)
    ensures Interpretation(["no_fruit"] + messages) == NotSold
    ensures Interpretation(["done"] + messages) == Placed
    ensures Interpretation(["no_quan", Printed(n)] + messages) == Available(n)
    ensures Interpretation(["no_quan"]) == Available(0)
    ensures Interpretation([]) == UnknownResponse
    ensures messages != [] && messages[0] !in ["no_fruit", "done", "no_quan"] ==>
      Interpretation(messages) == UnknownResponse
  {
    AtoiPrinted(n);
    assert |"no_quan"| == 7 && |"done"| == 4 && |"no_fruit"| == 8;
    var names := ["no_fruit", "done", "no_quan"];
    assert names[0] == "no_fruit" && names[1] == "done" && names[2] == "no_quan";
  }

  /** Overrun: the order does not fit the client's buffer. */
  datatype Run = InvalidQuantity | Overrun | Ran(order: string, report: Report)

  /** `main` of the client, with one buffer for every step. The server's messages do not depend on
      the client once the order is known, so they are given as a function of it. */
  method RunClient(fruit: string, quantity: string, server: string -> seq<string>) returns (run: Run)
    requires forall order, i :: 0 <= i < |server(order)| ==> |server(order)[i]| < BUF_SIZE
    ensures run == if Atoi(quantity) <= 0 then InvalidQuantity
      else if |OrderText(fruit, quantity)| >= 31 then Overrun
      else Ran(OrderText(fruit, quantity),
               Interpretation(var m := server(OrderText(fruit, quantity)); if m == [] then [] else m[1..]))
  {
    if Atoi(quantity) <= 0 {
      return InvalidQuantity;
    }
    if |fruit| + 1 + |quantity| >= BUF_SIZE {
      return Overrun;
    }
    var buf := fruit + "." + quantity;
    var order := buf;
    var inbox := server(order);
    var next := 1;  // message 0 is the customer count, read before the order was sent
    buf := "";
    if next < |inbox| {
      buf := inbox[next];
      next := next + 1;
    }
    if buf == "no_fruit" {
      run := Ran(order, NotSold);
    } else if buf == "done" {
      run := Ran(order, Placed);
    } else if buf == "no_quan" {
      buf := "";
      if next < |inbox| {
        buf := inbox[next];
      }
      var i := Atoi(buf);
      run := Ran(order, Available(i));
    } else {
      run := Ran(order, UnknownResponse);
    }
  }

  // ---------- one order from end to end ----------

  lemma LowerOfParts(fruit: string, digits: string)
    requires AllDigits(digits)
    ensures LowerText(OrderText(fruit, digits)) == LowerText(fruit) + "." + digits
  {
  }

  lemma LowerKeepsDots(fruit: string)
    requires forall i :: 0 <= i < |fruit| ==> fruit[i] != '.'
    ensures forall i :: 0 <= i < |fruit| ==> LowerText(fruit)[i] != '.'
  {
  }

  lemma LowerOfOrder(fruit: string, q: nat)
    requires forall i :: 0 <= i < |fruit| ==> fruit[i] != '.'
    ensures Wanted(LowerText(OrderText(fruit, Printed(q)))) == LowerText(fruit)
    ensures QuantityText(LowerText(OrderText(fruit, Printed(q)))) == Printed(q)
    ensures Quantity(LowerText(OrderText(fruit, Printed(q)))) == q
  {
    DigitsValue(q);
    LowerOfParts(fruit, Printed(q));
    LowerKeepsDots(fruit);
    DotOfOrder(LowerText(fruit), Printed(q));
    AtoiPrinted(q);
  }

  /** Entry k is the first one whose name begins with the text or is a beginning of it. */
  predicate Finds(fruits: seq<Fruit>, k: nat, text: string) {
    && k < |fruits| && (fruits[k].name <= text || text <= fruits[k].name)
    && forall j :: 0 <= j < k ==> !(fruits[j].name <= text || text <= fruits[j].name)
  }

  /** The client's order for a fruit, as the server receives it; entry k answers to it. */
  predicate OrderOf(s: Shop, k: nat, fruit: string, q: nat, c: Connection) {
    && Finds(s.fruits, k, LowerText(fruit))
    && (forall i :: 0 <= i < |fruit| ==> fruit[i] != '.')
    && 1 <= q
    && c.request == Order(OrderText(fruit, Printed(q))) && Fits(c)
  }

  function PowerOfTen(n: nat): (p: nat)
    ensures p >= 1 && (n >= 1 ==> p >= 10)
  {
    if n == 0 then 1 else 10 * PowerOfTen(n - 1)
  }

  lemma {:induction false} DigitsFit(q: nat, n: nat)
    requires 1 <= n
    ensures |Digits(q)| <= n <==> q < PowerOfTen(n)
  {
    if q >= 10 {
      DigitsValue(q / 10);
      if n > 1 {
        DigitsFit(q / 10, n - 1);
      } else {
        assert PowerOfTen(0) == 1;
      }
    }
  }

  /** The orders that fit: quantities of at most four digits, and not too long a name. */
  lemma OrderFitsIff(fruit: string, q: nat)
    requires forall i :: 0 <= i < |fruit| ==> fruit[i] != '.'
    ensures OrderFits(OrderText(fruit, Printed(q))) <==> q <= 9999 && |fruit| + 1 + |Printed(q)| < 31
  {
    LowerOfOrder(fruit, q);
    DigitsFit(q, 4);
    assert PowerOfTen(4) == 10000;
  }

  /** What the client reports about the server's replies. */
  function ReportOf(s: Shop, c: Connection): Report {
    Interpretation(Replies(s, c)[1..])
  }

  lemma OrderIsFound(s: Shop, k: nat, fruit: string, q: nat, c: Connection)
    requires OrderOf(s, k, fruit, q, c)
    ensures Lookup(s.fruits, Wanted(LowerText(c.request.text))) == k
    ensures Quantity(LowerText(c.request.text)) == q
    ensures forall j: nat :: j != k ==> !AcceptedFor(s.fruits, c, j)
  {
    LowerOfOrder(fruit, q);
    var l := Lookup(s.fruits, LowerText(fruit));
    assert l >= k && k >= l;
  }

  lemma VerdictOfOrder(s: Shop, k: nat, fruit: string, q: nat, c: Connection)
    requires OrderOf(s, k, fruit, q, c)
    ensures Verdict(s.fruits, c.request.text) == ToChar(if s.fruits[k].quantity < q then s.fruits[k].quantity else SOLD)
    ensures AcceptedFor(s.fruits, c, k) <==> q <= s.fruits[k].quantity
    ensures Taken(s.fruits, c, k) == if q <= s.fruits[k].quantity then q else 0
  {
    OrderIsFound(s, k, fruit, q, c);
  }

  function ReportOfVerdict(v: int): Report {
    if v >= 0 then Available(v) else if v == NOT_FOUND then NotSold else Placed
  }

  lemma ReportOfAnswer(s: Shop, c: Connection)
    requires c.request.Order?
    ensures ReportOf(s, c) == ReportOfVerdict(Verdict(s.fruits, c.request.text))
  {
    var v := Verdict(s.fruits, c.request.text);
    assert Replies(s, c)[1..] == Answer(v);
    AtoiPrinted(v);
    assert |"no_quan"| == 7 && |"done"| == 4 && |"no_fruit"| == 8;
  }

  lemma StockAfterOrder(s: Shop, k: nat, fruit: string, q: nat, c: Connection)
    requires OrderOf(s, k, fruit, q, c)
    ensures Served(s, c).fruits[k].quantity == s.fruits[k].quantity - if q <= s.fruits[k].quantity then q else 0
    ensures forall j :: 0 <= j < |s.fruits| && j != k ==> Served(s, c).fruits[j] == s.fruits[j]
    ensures q > s.fruits[k].quantity ==> Served(s, c).fruits == s.fruits
  {
    VerdictOfOrder(s, k, fruit, q, c);
    OrderIsFound(s, k, fruit, q, c);
    forall j | 0 <= j < |s.fruits| ensures Served(s, c).fruits[j] == if AcceptedFor(s.fruits, c, j)
        then Fruit(s.fruits[j].name, s.fruits[j].quantity - Taken(s.fruits, c, j), c.now) else s.fruits[j] {
      OneConnection(s.fruits, c, j);
    }
  }

  lemma VerdictOfStock(stock: nat, q: nat)
    ensures var r := ReportOfVerdict(ToChar(if stock < q then stock else SOLD));
      && (r == (if q <= stock then Placed else Available(stock)) <==> q <= stock || stock <= 127)
      && (r == Placed <==> q <= stock || PassesForSale(stock))
  {
    RemainderAsChar(stock);
    CharOfStock(stock);
  }

  lemma ReportOfOrder(s: Shop, k: nat, fruit: string, q: nat, c: Connection)
    requires OrderOf(s, k, fruit, q, c) && s.fruits[k].quantity >= 0
    ensures var stock := s.fruits[k].quantity;
      && (ReportOf(s, c) == (if q <= stock then Placed else Available(stock)) <==> q <= stock || stock <= 127)
      && (ReportOf(s, c) == Placed <==> q <= stock || PassesForSale(stock))
  {
    VerdictOfOrder(s, k, fruit, q, c);
    ReportOfAnswer(s, c);
    VerdictOfStock(s.fruits[k].quantity, q);
  }

  /** The stock of the ordered fruit falls by the quantity if there is enough and all else stays;
      the client reports this truthfully, "placed" or the exact stock left, exactly when the
      order is accepted or what is left is at most 127. */
  lemma OrderEndToEnd(s: Shop, k: nat, fruit: string, q: nat, c: Connection)
    requires OrderOf(s, k, fruit, q, c) && s.fruits[k].quantity >= 0
    ensures Served(s, c).fruits[k].quantity == s.fruits[k].quantity - if q <= s.fruits[k].quantity then q else 0
    ensures forall j :: 0 <= j < |s.fruits| && j != k ==> Served(s, c).fruits[j] == s.fruits[j]
    ensures ReportOf(s, c) == (if q <= s.fruits[k].quantity then Placed else Available(s.fruits[k].quantity))
      <==> q <= s.fruits[k].quantity || s.fruits[k].quantity <= 127
  {
    StockAfterOrder(s, k, fruit, q, c);
    ReportOfOrder(s, k, fruit, q, c);
  }

  lemma VerdictNotFound(q: nat)
    ensures ToChar(q) == NOT_FOUND <==> q % 256 == 254
    ensures ToChar(NOT_FOUND) == NOT_FOUND && ToChar(SOLD) == SOLD
  {
  }

  /** "Not sold" is reported for a request that no entry is comparable with, and also for a refused
      one of which 254 pieces (modulo 256) are left. */
  lemma NotSoldIff(s: Shop, c: Connection, k: nat)
    requires c.request.Order? && Fits(c) && k == Lookup(s.fruits, Wanted(LowerText(c.request.text)))
    requires forall i :: 0 <= i < |s.fruits| ==> s.fruits[i].quantity >= 0
    ensures ReportOf(s, c) == NotSold <==>
      k == |s.fruits| || (Refused(s.fruits, c.request.text, k) && s.fruits[k].quantity % 256 == 254)
    ensures k == |s.fruits| ==> Served(s, c) == s && Replies(s, c)[1..] == ["no_fruit"]
  {
    ReportOfAnswer(s, c);
    VerdictNotFound(if k < |s.fruits| then s.fruits[k].quantity else 0);
  }

  /** The server lowers the capitals of an order. */
  lemma LowerOfWritten(lower: string, written: string)
    requires |written| == |lower| && forall i :: 0 <= i < |lower| ==> 'a' <= lower[i] <= 'z'
    requires forall i :: 0 <= i < |lower| ==> written[i] == lower[i] || written[i] as int + 32 == lower[i] as int
    ensures LowerText(written) == lower && forall i :: 0 <= i < |written| ==> written[i] != '.'
  {
    forall i | 0 <= i < |lower| ensures LowerText(written)[i] == lower[i] && written[i] != '.' {
      if written[i] != lower[i] {
        assert 'A' <= written[i] <= 'Z';
      }
    }
  }

  /** An order in small letters, capitals or both, for whatever entry is the first to be comparable
      with it, also one whose name it only begins with or extends. */
  lemma OrderHoweverWritten(s: Shop, k: nat, lower: string, written: string, q: nat, c: Connection)
    requires Finds(s.fruits, k, lower) && s.fruits[k].quantity >= 0
    requires |written| == |lower| && forall i :: 0 <= i < |lower| ==> 'a' <= lower[i] <= 'z'
    requires forall i :: 0 <= i < |lower| ==> written[i] == lower[i] || written[i] as int + 32 == lower[i] as int
    requires 1 <= q <= 9999 && |written| + 1 + |Printed(q)| < 31
    requires c.request == Order(written + "." + Printed(q))
    ensures var stock := s.fruits[k].quantity;
      && Served(s, c).fruits[k].quantity == (if q <= stock then stock - q else stock)
      && (forall j :: 0 <= j < |s.fruits| && j != k ==> Served(s, c).fruits[j] == s.fruits[j])
      && (q <= stock ==> Replies(s, c)[1..] == ["done"] && ReportOf(s, c) == Placed)
      && (q > stock && stock <= 127 ==>
            Replies(s, c)[1..] == ["no_quan", Printed(stock)] && ReportOf(s, c) == Available(stock))
  {
    LowerOfWritten(lower, written);
    OrderFitsIff(written, q);
    OrderEndToEnd(s, k, written, q, c);
    VerdictOfOrder(s, k, written, q, c);
    RemainderAsChar(s.fruits[k].quantity);
    CharOfStock(s.fruits[k].quantity);
  }

  /** In a catalogue of which no name begins with another, the name as written there, in whatever
      letters, orders exactly that fruit. */
  lemma OrderByName(s: Shop, k: nat, written: string, q: nat, c: Connection)
    requires forall i, j :: 0 <= i < |s.fruits| && 0 <= j < |s.fruits| && i != j ==>
      !(s.fruits[i].name <= s.fruits[j].name)
    requires k < |s.fruits| && s.fruits[k].quantity >= 0 && |written| == |s.fruits[k].name|
    requires forall i :: 0 <= i < |written| ==> 'a' <= s.fruits[k].name[i] <= 'z'
    requires forall i :: 0 <= i < |written| ==>
      written[i] == s.fruits[k].name[i] || written[i] as int + 32 == s.fruits[k].name[i] as int
    requires 1 <= q <= 9999 && |written| + 1 + |Printed(q)| < 31
    requires c.request == Order(written + "." + Printed(q))
    ensures var stock := s.fruits[k].quantity;
      && Served(s, c).fruits[k].quantity == (if q <= stock then stock - q else stock)
      && (forall j :: 0 <= j < |s.fruits| && j != k ==> Served(s, c).fruits[j] == s.fruits[j])
      && (q <= stock ==> Replies(s, c)[1..] == ["done"] && ReportOf(s, c) == Placed)
      && (q > stock && stock <= 127 ==>
            Replies(s, c)[1..] == ["no_quan", Printed(stock)] && ReportOf(s, c) == Available(stock))
  {
    assert Finds(s.fruits, k, s.fruits[k].name);
    OrderHoweverWritten(s, k, s.fruits[k].name, written, q, c);
  }

  /** With stock up to 127 the client says "placed" exactly when the stock fell by the quantity. */
  lemma PlacedIffStockFell(s: Shop, k: nat, fruit: string, q: nat, c: Connection)
    requires OrderOf(s, k, fruit, q, c) && 0 <= s.fruits[k].quantity <= 127
    ensures ReportOf(s, c) == Placed <==> Served(s, c).fruits[k].quantity == s.fruits[k].quantity - q
    ensures ReportOf(s, c) != Placed ==> ReportOf(s, c) == Available(Served(s, c).fruits[k].quantity)
  {
    OrderEndToEnd(s, k, fruit, q, c);
  }

  /** Otherwise a refused order may be reported as placed, exactly when the remainder, cut to
      eight bits, is negative and not -2; the customer then enters the list as well. */
  lemma RefusedOrderReportedPlacedIff(s: Shop, k: nat, fruit: string, q: nat, c: Connection)
    requires OrderOf(s, k, fruit, q, c) && 0 <= s.fruits[k].quantity < q
    ensures Served(s, c).fruits == s.fruits
    ensures ReportOf(s, c) == Placed <==> PassesForSale(s.fruits[k].quantity)
    ensures ReportOf(s, c) == Placed ==> Text(c.cad) in Served(s, c).customers
  {
    StockAfterOrder(s, k, fruit, q, c);
    ReportOfOrder(s, k, fruit, q, c);
    ReportOfAnswer(s, c);
  }

  lemma OrderInSmallShop(s: Shop, name: string, q: nat, c: Connection)
    requires |s.fruits| == 1 && s.fruits[0].name == name && LowerText(name) == name
    requires forall i :: 0 <= i < |name| ==> name[i] != '.'
    requires 1 <= q && c.request == Order(OrderText(name, Printed(q))) && Fits(c)
    ensures OrderOf(s, 0, name, q, c)
  {
  }

  lemma BeyondChar(left: nat)
    requires 128 <= left < 254
    ensures PassesForSale(left)
  {
  }

  /** Such orders exist for every fruit name that fits into its 20 bytes, and any stock from 128 to
      253: an order of one piece more. As the first of a session it leaves a list of one customer
      although nobody has purchased anything. */
  lemma RefusedOrderReportedPlaced(name: string, stock: nat, cad: Address, now: int) returns (s: Shop, c: Connection)
    requires |name| < 20 && LowerText(name) == name && 128 <= stock < 254
    requires forall i :: 0 <= i < |name| ==> name[i] != '.'
    ensures OrderOf(s, 0, name, stock + 1, c) && s.fruits[0].quantity == stock
    ensures Served(s, c).fruits == s.fruits && ReportOf(s, c) == Placed && c.cad == cad
    ensures s.customers == [] && s.unique == 0 && Purchasers(s, [c]) == []
    ensures ServedAll(s, [c]).customers == [Text(cad)] && ServedAll(s, [c]).unique == 1
  {
    var q := stock + 1;
    s := Shop([Fruit(name, stock, 0)], [], 0);
    c := Connection(cad, Order(OrderText(name, Printed(q))), now);
    DigitsFit(q, 4);
    OrderFitsIff(name, q);
    OrderInSmallShop(s, name, q, c);
    BeyondChar(stock);
    RefusedOrderReportedPlacedIff(s, 0, name, q, c);
    OrderIsFound(s, 0, name, q, c);
    OnlyConnection(s, c);
  }

  lemma OnlyConnection(s: Shop, c: Connection)
    ensures ServedAll(s, [c]) == Served(s, c)
    ensures Purchasers(s, [c]) == if Purchases(s.fruits, c) then [c.cad] else []
  {
    assert [c][..0] == [];
    assert ServedAll(s, []) == s && Purchasers(s, []) == [];
  }
}
