/** Who is in the customer list of the fruit shop: the list is to hold the unique users that made a
    successful purchase (NS Lab debashish/CN1/server.c, line 24). */
module ShopCustomers {
  import opened Decimal
  import opened Catalogue
  import opened Customers
  import opened ShopSession
  import opened ShopLaws

  /** The connection's order is accepted, so that stock is sold. */
  predicate Purchases(fruits: seq<Fruit>, c: Connection) {
    c.request.Order? && var request := LowerText(c.request.text);
    Accepts(fruits, request, Lookup(fruits, Wanted(request)))
  }

  lemma PurchasesIff(fruits: seq<Fruit>, c: Connection)
    ensures Purchases(fruits, c) <==> exists k: nat :: AcceptedFor(fruits, c, k)
  {
    if Purchases(fruits, c) {
      assert AcceptedFor(fruits, c, Lookup(fruits, Wanted(LowerText(c.request.text))));
    }
  }

  /** The addresses with a successful purchase, in the order of their connections. */
  function Purchasers(s: Shop, cs: seq<Connection>): seq<Address> {
    if cs == [] then []
    else
      var front, c := cs[..|cs| - 1], cs[|cs| - 1];
      Purchasers(s, front) + if Purchases(ServedAll(s, front).fruits, c) then [c.cad] else []
  }

  /** The order is refused, but what is left passes for a sale. */
  predicate Mistaken(fruits: seq<Fruit>, c: Connection) {
    c.request.Order? && var k := Lookup(fruits, Wanted(LowerText(c.request.text)));
    Refused(fruits, c.request.text, k) && PassesForSale(fruits[k].quantity)
  }

  /** "done" is answered to purchases and to mistaken refusals, which are different things. */
  lemma DoneIsPurchaseOrMistake(fruits: seq<Fruit>, c: Connection)
    requires Fits(c)
    ensures AnsweredDone(fruits, c) <==> Purchases(fruits, c) || Mistaken(fruits, c)
    ensures !(Purchases(fruits, c) && Mistaken(fruits, c))
  {
    if c.request.Order? {
      var k := Lookup(fruits, Wanted(LowerText(c.request.text)));
      if k < |fruits| {
        CharOfStock(fruits[k].quantity);
      }
    }
  }

  lemma CharOfStock(n: int)
    ensures PassesForSale(n) <==> ToChar(n) < 0 && ToChar(n) != NOT_FOUND
    ensures ToChar(SOLD) == SOLD && ToChar(NOT_FOUND) == NOT_FOUND
  {
    assert ToChar(n) == if n % 256 < 128 then n % 256 else n % 256 - 256;
  }

  // ---------- at every moment of a session ----------

  predicate AllFit(cs: seq<Connection>) {
    forall i :: 0 <= i < |cs| ==> Fits(cs[i])
  }

  /** After the first n connections the list holds the purchasers so far, each once, in the order
      of their first purchase, and the count is their number. */
  predicate ListsPurchasers(fruits: seq<Fruit>, cs: seq<Connection>, n: nat)
    requires n <= |cs|
  {
    var s := Shop(fruits, [], 0);
    Registers(ServedAll(s, cs[..n]), Purchasers(s, cs[..n]))
  }

  /** Connection n is not mistaken for a sale, or comes from somebody who has purchased before. */
  predicate GuardedAt(fruits: seq<Fruit>, cs: seq<Connection>, n: nat)
    requires n < |cs|
  {
    var s := Shop(fruits, [], 0);
    Mistaken(ServedAll(s, cs[..n]).fruits, cs[n]) ==> cs[n].cad in Purchasers(s, cs[..n])
  }

  /** A connection added to a right list. */
  lemma OneMorePurchaser(s: Shop, purchasers: seq<Address>, c: Connection)
    requires Registers(s, purchasers) && Fits(c)
    ensures Registers(Served(s, c), if Purchases(s.fruits, c) then purchasers + [c.cad] else purchasers) <==>
      (Mistaken(s.fruits, c) ==> c.cad in purchasers)
  {
    OneMoreConnection(s, purchasers, c);
    DoneIsPurchaseOrMistake(s.fruits, c);
    if Mistaken(s.fruits, c) {
      OneMoreBuyer(purchasers, c.cad);
    }
  }

  lemma NextConnection(fruits: seq<Fruit>, cs: seq<Connection>, n: nat)
    requires n < |cs| && AllFit(cs) && ListsPurchasers(fruits, cs, n)
    ensures ListsPurchasers(fruits, cs, n + 1) <==> GuardedAt(fruits, cs, n)
  {
    var s := Shop(fruits, [], 0);
    assert cs[..n + 1][..n] == cs[..n];
    OneMorePurchaser(ServedAll(s, cs[..n]), Purchasers(s, cs[..n]), cs[n]);
    assert Purchasers(s, cs[..n]) + [] == Purchasers(s, cs[..n]);
  }

  lemma EmptyListIsRight(fruits: seq<Fruit>, cs: seq<Connection>)
    ensures ListsPurchasers(fruits, cs, 0)
  {
    assert cs[..0] == [];
  }

  lemma {:induction false} GuardedSoFar(fruits: seq<Fruit>, cs: seq<Connection>, n: nat)
    requires n <= |cs| && AllFit(cs) && forall i :: 0 <= i < |cs| ==> GuardedAt(fruits, cs, i)
    ensures ListsPurchasers(fruits, cs, n)
  {
    if n == 0 {
      EmptyListIsRight(fruits, cs);
    } else {
      GuardedSoFar(fruits, cs, n - 1);
      NextConnection(fruits, cs, n - 1);
    }
  }

  /** In every session the list holds throughout exactly the addresses with a purchase, in the order
      of their first one, if and only if every refusal that passes for a sale goes to somebody
      who has purchased before. */
  lemma CustomersArePurchasersIff(fruits: seq<Fruit>, cs: seq<Connection>)
    requires AllFit(cs)
    ensures (forall n :: 0 <= n <= |cs| ==> ListsPurchasers(fruits, cs, n)) <==>
            (forall n :: 0 <= n < |cs| ==> GuardedAt(fruits, cs, n))
  {
    if forall n :: 0 <= n <= |cs| ==> ListsPurchasers(fruits, cs, n) {
      forall n | 0 <= n < |cs| ensures GuardedAt(fruits, cs, n) {
        assert ListsPurchasers(fruits, cs, n) && ListsPurchasers(fruits, cs, n + 1);
        NextConnection(fruits, cs, n);
      }
    }
    if forall n :: 0 <= n < |cs| ==> GuardedAt(fruits, cs, n) {
      forall n | 0 <= n <= |cs| ensures ListsPurchasers(fruits, cs, n) {
        GuardedSoFar(fruits, cs, n);
      }
    }
  }

  // ---------- at the end of a session ----------

  lemma {:induction false} BuyerIff(s: Shop, cs: seq<Connection>, ad: Address)
    requires AllFit(cs)
    ensures ad in Purchasers(s, cs) ==> ad in Buyers(s, cs)
    ensures ad in Buyers(s, cs) && ad !in Purchasers(s, cs) ==>
      exists n :: 0 <= n < |cs| && cs[n].cad == ad && Mistaken(ServedAll(s, cs[..n]).fruits, cs[n])
    decreases |cs|
  {
    if cs == [] {
    } else {
      var front, c := cs[..|cs| - 1], cs[|cs| - 1];
      BuyerIff(s, front, ad);
      DoneIsPurchaseOrMistake(ServedAll(s, front).fruits, c);
      if n :| 0 <= n < |front| && front[n].cad == ad && Mistaken(ServedAll(s, front[..n]).fruits, front[n]) {
        assert front[..n] == cs[..n] && front[n] == cs[n];
      }
    }
  }

  lemma {:induction false} MistakenIsBuyer(s: Shop, cs: seq<Connection>, n: nat)
    requires n < |cs| && AllFit(cs) && Mistaken(ServedAll(s, cs[..n]).fruits, cs[n])
    ensures cs[n].cad in Buyers(s, cs)
    decreases |cs|
  {
    var front := cs[..|cs| - 1];
    if n < |front| {
      assert front[..n] == cs[..n];
      MistakenIsBuyer(s, front, n);
    } else {
      DoneIsPurchaseOrMistake(ServedAll(s, front).fruits, cs[n]);
    }
  }

  lemma SubsetOfSameSize<T>(a: set<T>, b: set<T>)
    requires a <= b
    ensures |a| == |b| <==> a == b
  {
    assert b == a + (b - a);
    assert |b| == |a| + |b - a|;
  }

  /** The final count is the number of different addresses with a purchase if and only if everybody
      whose refusal passed for a sale has made one in the same session, before or after. */
  lemma CountIsPurchasersIff(fruits: seq<Fruit>, cs: seq<Connection>)
    requires AllFit(cs)
    ensures var s := Shop(fruits, [], 0);
      ServedAll(s, cs).unique == |Elements(Purchasers(s, cs))| <==>
      forall n :: 0 <= n < |cs| && Mistaken(ServedAll(s, cs[..n]).fruits, cs[n]) ==> cs[n].cad in Purchasers(s, cs)
  {
    var s := Shop(fruits, [], 0);
    var purchasers, buyers := Elements(Purchasers(s, cs)), Elements(Buyers(s, cs));
    UniqueCustomers(fruits, cs);
    forall ad | ad in purchasers ensures ad in buyers {
      BuyerIff(s, cs, ad);
    }
    SubsetOfSameSize(purchasers, buyers);
    if purchasers == buyers {
      forall n | 0 <= n < |cs| && Mistaken(ServedAll(s, cs[..n]).fruits, cs[n]) ensures cs[n].cad in Purchasers(s, cs) {
        MistakenIsBuyer(s, cs, n);
        assert cs[n].cad in buyers;
      }
    }
    if forall n :: 0 <= n < |cs| && Mistaken(ServedAll(s, cs[..n]).fruits, cs[n]) ==> cs[n].cad in Purchasers(s, cs) {
      forall ad | ad in buyers ensures ad in purchasers {
        BuyerIff(s, cs, ad);
      }
    }
  }

  // ---------- small stocks ----------

  lemma SmallStockIsNotMistaken(fruits: seq<Fruit>, c: Connection)
    requires SmallStock(fruits)
    ensures !Mistaken(fruits, c)
  {
    if c.request.Order? {
      var k := Lookup(fruits, Wanted(LowerText(c.request.text)));
      if k < |fruits| {
        SmallDoesNotPass(fruits[k].quantity);
      }
    }
  }

  lemma SmallDoesNotPass(n: int)
    requires 0 <= n <= 127
    ensures !PassesForSale(n)
  {
  }

  /** From stocks of at most 127, and with no negative quantities ordered: the list is that of the
      purchasers at every moment, and every client is first told their number. */
  lemma SmallStocksListPurchasers(fruits: seq<Fruit>, cs: seq<Connection>, n: nat, c: Connection)
    requires SmallStock(fruits) && AllFit(cs) && n <= |cs| && forall i :: 0 <= i < |cs| ==> Buys(cs[i])
    ensures ListsPurchasers(fruits, cs, n)
    ensures var s := Shop(fruits, [], 0);
      Replies(ServedAll(s, cs[..n]), c)[0] == Printed(|Elements(Purchasers(s, cs[..n]))|)
  {
    var s := Shop(fruits, [], 0);
    forall i | 0 <= i < |cs| ensures GuardedAt(fruits, cs, i) {
      forall j | 0 <= j < i ensures Buys(cs[..i][j]) {
        assert cs[..i][j] == cs[j];
      }
      DoneMeansAcceptedThroughout(s, cs[..i], cs[i]);
      SmallStockIsNotMistaken(ServedAll(s, cs[..i]).fruits, cs[i]);
    }
    CustomersArePurchasersIff(fruits, cs);
  }
}
