/** What holds over whole sessions of the fruit shop, and what one order does from end to end. */
module ShopLaws {
  import opened Decimal
  import opened Catalogue
  import opened Customers
  import opened ShopSession

  // ---------- stock ----------

  predicate AcceptedFor(fruits: seq<Fruit>, c: Connection, k: nat) {
    c.request.Order? && Accepts(fruits, LowerText(c.request.text), k)
  }

  /** What one connection takes from the stock of entry k. */
  function Taken(fruits: seq<Fruit>, c: Connection, k: nat): int {
    if AcceptedFor(fruits, c, k) then Quantity(LowerText(c.request.text)) else 0
  }

  function TotalTaken(s: Shop, cs: seq<Connection>, k: nat): int {
    if cs == [] then 0
    else TotalTaken(s, cs[..|cs| - 1], k) + Taken(ServedAll(s, cs[..|cs| - 1]).fruits, cs[|cs| - 1], k)
  }

  /** A connection changes exactly the entry that accepts its order, by exactly the quantity
      ordered, and stamps it; a refused order changes nothing. */
  lemma OneConnection(fruits: seq<Fruit>, c: Connection, k: nat)
    requires k < |fruits|
    ensures Restocked(fruits, c)[k] ==
      if AcceptedFor(fruits, c, k)
      then Fruit(fruits[k].name, fruits[k].quantity - Taken(fruits, c, k), c.now)
      else fruits[k]
  {
  }

  /** A connection whose order cannot be read is told the count only, and changes nothing. */
  lemma FailedRead(s: Shop, c: Connection)
    requires c.request.ReadFailed?
    ensures Replies(s, c) == [Printed(s.unique)] && Served(s, c) == s
  {
  }

  /** Conservation: over any connections, each entry keeps its name and has lost exactly what was
      taken by accepted orders for it; and no stock ever becomes negative. */
  lemma {:induction false} Conservation(s: Shop, cs: seq<Connection>, k: nat)
    requires k < |s.fruits|
    ensures |ServedAll(s, cs).fruits| == |s.fruits|
    ensures ServedAll(s, cs).fruits[k].name == s.fruits[k].name
    ensures s.fruits[k].quantity - ServedAll(s, cs).fruits[k].quantity == TotalTaken(s, cs, k)
    ensures s.fruits[k].quantity >= 0 ==> ServedAll(s, cs).fruits[k].quantity >= 0
    decreases |cs|
  {
    if cs == [] {
    } else {
      Conservation(s, cs[..|cs| - 1], k);
      OneConnection(ServedAll(s, cs[..|cs| - 1]).fruits, cs[|cs| - 1], k);
    }
  }

  // ---------- the answer to a refused order ----------

  lemma PrintedIsInjective(m: int, n: int)
    ensures Printed(m) == Printed(n) <==> m == n
  {
    AtoiPrinted(m);
    AtoiPrinted(n);
  }

  lemma AnswersDiffer(text: string)
    ensures ["no_quan", text] != ["done"] && ["no_fruit"] != ["done"] && ["no_quan", text] != ["no_fruit"]
  {
    assert |"no_fruit"| != |"done"|;
    assert ["no_fruit"][0] != ["done"][0];
  }

  /** Remainders that the server takes for a sale: kept in a `char`, they are negative and not -2. */
  predicate PassesForSale(left: int) {
    left % 256 >= 128 && left % 256 != 254
  }

  lemma RemainderAsChar(q: nat)
    ensures ToChar(q) == (if q % 256 < 128 then q % 256 else q % 256 - 256)
    ensures ToChar(q) == q <==> q <= 127
  {
  }

  /** The four ways to answer, told apart by their first message. */
  lemma AnswerKinds(i: int, q: nat)
    ensures Answer(i) == ["no_quan", Printed(q)] <==> i >= 0 && i == q
    ensures Answer(i) == ["done"] <==> i < 0 && i != NOT_FOUND
  {
    AnswersDiffer(Printed(i));
    AnswersDiffer(Printed(q));
    PrintedIsInjective(i, q);
    assert ["no_quan", Printed(i)][1] == Printed(i) && ["no_quan", Printed(q)][1] == Printed(q);
  }

  lemma AnswerToRemainder(q: nat)
    ensures Answer(ToChar(q)) == ["no_quan", Printed(q)] <==> q <= 127
    ensures Answer(ToChar(q)) == ["done"] <==> PassesForSale(q)
  {
    RemainderAsChar(q);
    AnswerKinds(ToChar(q), q);
  }

  predicate Refused(fruits: seq<Fruit>, order: string, k: nat) {
    && OrderFits(order) && k < |fruits|
    && Lookup(fruits, Wanted(LowerText(order))) == k && fruits[k].quantity < Quantity(LowerText(order))
  }

  /** A refused order that fits the buffers is answered with the true remainder exactly when that is at most 127, the
      largest value of the `char` in which the server keeps it; some larger remainders are even
      taken for a sale. */
  lemma RefusalReportedIff(fruits: seq<Fruit>, order: string, k: nat)
    requires Refused(fruits, order, k) && fruits[k].quantity >= 0
    ensures Answer(Verdict(fruits, order)) == ["no_quan", Printed(fruits[k].quantity)] <==> fruits[k].quantity <= 127
    ensures Answer(Verdict(fruits, order)) == ["done"] <==> PassesForSale(fruits[k].quantity)
  {
    assert Code(fruits, LowerText(order)) == fruits[k].quantity;
    AnswerToRemainder(fruits[k].quantity);
  }

  // ---------- unique customers ----------

  function FirstOccurrences<T(==)>(xs: seq<T>): seq<T> {
    if xs == [] then []
    else
      var before := FirstOccurrences(xs[..|xs| - 1]);
      if xs[|xs| - 1] in xs[..|xs| - 1] then before else before + [xs[|xs| - 1]]
  }

  predicate NoDuplicates<T(==)>(xs: seq<T>) {
    forall i, j :: 0 <= i < j < |xs| ==> xs[i] != xs[j]
  }

  function Elements<T>(xs: seq<T>): set<T> {
    set x | x in xs
  }

  lemma {:induction false} FirstOccurrencesUnique<T>(xs: seq<T>)
    ensures NoDuplicates(FirstOccurrences(xs))
    ensures forall x :: x in FirstOccurrences(xs) <==> x in xs
    ensures Elements(FirstOccurrences(xs)) == Elements(xs)
    ensures |FirstOccurrences(xs)| == |Elements(xs)|
  {
    if xs == [] {
    } else {
      var front, x := xs[..|xs| - 1], xs[|xs| - 1];
      FirstOccurrencesUnique(front);
      assert xs == front + [x];
      assert Elements(xs) == Elements(front) + {x};
    }
  }

  /** The addresses that were answered "done", in the order of their connections. */
  function Buyers(s: Shop, cs: seq<Connection>): seq<Address> {
    if cs == [] then []
    else
      var front, c := cs[..|cs| - 1], cs[|cs| - 1];
      Buyers(s, front) + if AnsweredDone(ServedAll(s, front).fruits, c) then [c.cad] else []
  }

  function Texts(ads: seq<Address>): (r: seq<string>)
    ensures |r| == |ads| && forall i :: 0 <= i < |ads| ==> r[i] == Text(ads[i])
  {
    seq(|ads|, i requires 0 <= i < |ads| => Text(ads[i]))
  }

  lemma TextAmong(ad: Address, ads: seq<Address>)
    ensures Text(ad) in Texts(ads) <==> ad in ads
  {
    if ad in ads {
      var i :| 0 <= i < |ads| && ads[i] == ad;
      assert Texts(ads)[i] == Text(ad);
    }
    if Text(ad) in Texts(ads) {
      var i :| 0 <= i < |ads| && Texts(ads)[i] == Text(ad);
      TextIsInjective(ads[i], ad);
    }
  }

  /** The list holds the buyers' addresses once each, and the count is their number. */
  predicate Registers(s: Shop, buyers: seq<Address>) {
    && s.customers == Texts(FirstOccurrences(buyers))
    && s.unique == |Elements(buyers)|
  }

  lemma OneMoreConnection(s: Shop, buyers: seq<Address>, c: Connection)
    requires Registers(s, buyers)
    ensures Registers(Served(s, c), if AnsweredDone(s.fruits, c) then buyers + [c.cad] else buyers)
  {
    FirstOccurrencesUnique(buyers);
    TextAmong(c.cad, FirstOccurrences(buyers));
    OneMoreBuyer(buyers, c.cad);
    assert Texts(FirstOccurrences(buyers) + [c.cad]) == Texts(FirstOccurrences(buyers)) + [Text(c.cad)];
  }

  /** After any session that starts with an empty list, the list holds the addresses answered
      "done", each once, in the order of their first such answer; the running count is the number
      of different addresses. */
  lemma {:induction false} UniqueCustomers(fruits: seq<Fruit>, cs: seq<Connection>)
    ensures var s := Shop(fruits, [], 0); Registers(ServedAll(s, cs), Buyers(s, cs))
    decreases |cs|
  {
    var s := Shop(fruits, [], 0);
    if cs == [] {
    } else {
      var front, c := cs[..|cs| - 1], cs[|cs| - 1];
      UniqueCustomers(fruits, front);
      OneMoreConnection(ServedAll(s, front), Buyers(s, front), c);
      assert Buyers(s, front) + [] == Buyers(s, front);
    }
  }

  /** Every client is first told how many different customers have bought something before it. */
  lemma AnnouncedCount(fruits: seq<Fruit>, cs: seq<Connection>, c: Connection)
    ensures var s := Shop(fruits, [], 0);
      Replies(ServedAll(s, cs), c)[0] == Printed(|Elements(Buyers(s, cs))|)
  {
    UniqueCustomers(fruits, cs);
  }

  lemma OneMoreBuyer(before: seq<Address>, ad: Address)
    ensures FirstOccurrences(before + [ad]) ==
      if ad in before then FirstOccurrences(before) else FirstOccurrences(before) + [ad]
    ensures |Elements(before + [ad])| == |Elements(before)| + if ad in before then 0 else 1
  {
    var xs := before + [ad];
    assert xs[..|xs| - 1] == before;
    assert Elements(xs) == Elements(before) + {ad};
    if ad in before {
      assert Elements(xs) == Elements(before);
    } else {
      assert ad !in Elements(before);
    }
  }

  /** Stocks that a `char` can report. */
  predicate SmallStock(fruits: seq<Fruit>) {
    forall k :: 0 <= k < |fruits| ==> 0 <= fruits[k].quantity <= 127
  }

  predicate Buys(c: Connection) {
    c.request.Order? ==> Quantity(LowerText(c.request.text)) >= 0
  }

  lemma SmallNumberIsChar(n: int)
    requires -128 <= n <= 127
    ensures ToChar(n) == n
  {
  }

  lemma SmallCode(fruits: seq<Fruit>, request: string)
    requires SmallStock(fruits)
    ensures -2 <= Code(fruits, request) <= 127
  {
  }

  lemma SmallVerdict(fruits: seq<Fruit>, order: string)
    requires SmallStock(fruits)
    ensures Verdict(fruits, order) == Code(fruits, LowerText(order))
  {
    SmallCode(fruits, LowerText(order));
    SmallNumberIsChar(Code(fruits, LowerText(order)));
  }

  lemma DoneMeansAccepted(fruits: seq<Fruit>, c: Connection)
    requires SmallStock(fruits)
    ensures AnsweredDone(fruits, c) <==> exists k: nat :: AcceptedFor(fruits, c, k)
  {
    if c.request.Order? {
      SmallVerdict(fruits, c.request.text);
      var k := Lookup(fruits, Wanted(LowerText(c.request.text)));
      assert AnsweredDone(fruits, c) <==> AcceptedFor(fruits, c, k);
    }
  }

  /** From stocks of at most 127, and with no negative quantities ordered, every stock stays
      reportable, so that throughout the session "done" is answered to accepted orders only. */
  lemma {:induction false} DoneMeansAcceptedThroughout(s: Shop, cs: seq<Connection>, c: Connection)
    requires SmallStock(s.fruits) && forall i :: 0 <= i < |cs| ==> Buys(cs[i])
    ensures SmallStock(ServedAll(s, cs).fruits)
    ensures AnsweredDone(ServedAll(s, cs).fruits, c) <==> exists k: nat :: AcceptedFor(ServedAll(s, cs).fruits, c, k)
    decreases |cs|
  {
    if cs == [] {
    } else {
      var front, last := cs[..|cs| - 1], cs[|cs| - 1];
      forall i | 0 <= i < |front| ensures Buys(front[i]) {
        assert front[i] == cs[i];
      }
      DoneMeansAcceptedThroughout(s, front, last);
      var fruits := ServedAll(s, front).fruits;
      assert Buys(last);
      forall k | 0 <= k < |fruits| ensures 0 <= Restocked(fruits, last)[k].quantity <= 127 {
        OneConnection(fruits, last, k);
      }
    }
    DoneMeansAccepted(ServedAll(s, cs).fruits, c);
  }
}
