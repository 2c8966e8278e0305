/** The fruit catalogue of CN1: how a request is matched and what a purchase does to the stock
    (NS Lab debashish/CN1/server.c, `purchase`). */
module Catalogue {
  import opened Decimal

  datatype Fruit = Fruit(name: string, quantity: int, lastSold: int)

  const NOT_FOUND := -2
  const SOLD := -1

  // ---------- reading a request "name.quantity" ----------

  /** Index of the first dot, or the length when there is none. */
  function Dot(request: string): (d: nat)
    ensures d <= |request|
    ensures d < |request| ==> request[d] == '.'
    ensures forall i :: 0 <= i < d ==> request[i] != '.'
  {
    if request == "" || request[0] == '.' then 0 else 1 + Dot(request[1..])
  }

  function Wanted(request: string): string {
    request[..Dot(request)]
  }

  /** Everything behind the first dot. */
  function QuantityText(request: string): string {
    if Dot(request) == |request| then "" else request[Dot(request) + 1..]
  }

  function Quantity(request: string): int {
    Atoi(QuantityText(request))
  }

  // ---------- finding the fruit ----------

  /** One of the two texts begins with the other. */
  predicate Comparable(a: string, b: string) {
    a <= b || b <= a
  }

  /** The least index whose name is comparable with the text, or the catalogue's size. */
  function Lookup(fruits: seq<Fruit>, wanted: string): (k: nat)
    ensures k <= |fruits|
    ensures k < |fruits| ==> fruits[k].name <= wanted || wanted <= fruits[k].name
    ensures forall i :: 0 <= i < k ==> !(fruits[i].name <= wanted || wanted <= fruits[i].name)
  {
    if fruits == [] || Comparable(fruits[0].name, wanted) then 0 else 1 + Lookup(fruits[1..], wanted)
  }

  predicate PrefixFree(fruits: seq<Fruit>) {
    forall i, j :: 0 <= i < j < |fruits| ==> !Comparable(fruits[i].name, fruits[j].name)
  }

  /** Looking up any name of the catalogue finds the entry with exactly that name if and only if
      no name of the catalogue begins with another one. */
  lemma ExactLookupIff(fruits: seq<Fruit>)
    ensures PrefixFree(fruits) <==> forall k :: 0 <= k < |fruits| ==> Lookup(fruits, fruits[k].name) == k
  {
    if PrefixFree(fruits) {
      forall k | 0 <= k < |fruits| ensures Lookup(fruits, fruits[k].name) == k {
        var l := Lookup(fruits, fruits[k].name);
        assert Comparable(fruits[k].name, fruits[k].name);
      }
    } else {
      var i, j :| 0 <= i < j < |fruits| && Comparable(fruits[i].name, fruits[j].name);
      assert Lookup(fruits, fruits[j].name) <= i;
    }
  }

  // ---------- the purchase ----------

  /** The number `purchase` returns: what is left when that is too little, -1 for a sale, -2 for
      a fruit that is not sold. */
  function Code(fruits: seq<Fruit>, request: string): int {
    var k := Lookup(fruits, Wanted(request));
    if k == |fruits| then NOT_FOUND
    else if fruits[k].quantity < Quantity(request) then fruits[k].quantity
    else SOLD
  }

  /** A request is accepted for entry k. */
  predicate Accepts(fruits: seq<Fruit>, request: string, k: nat) {
    && k < |fruits|
    && Lookup(fruits, Wanted(request)) == k
    && Quantity(request) <= fruits[k].quantity
  }

  function Stock(fruits: seq<Fruit>, request: string, now: int): (r: seq<Fruit>)
    ensures |r| == |fruits|
  {
    var k := Lookup(fruits, Wanted(request));
    if Accepts(fruits, request, k)
    then fruits[k := fruits[k].(quantity := fruits[k].quantity - Quantity(request), lastSold := now)]
    else fruits
  }

  lemma NotComparable(a: string, b: string, j: nat)
    requires j < |a| && j < |b| && a[j] != b[j]
    ensures !Comparable(a, b)
  {
  }

  /** The inner comparison loop of `purchase` (lines 137-145): walk both texts until one ends,
      the request's dot comes, or they differ. */
  method Matches(request: string, name: string) returns (status: bool)
    ensures status <==> name <= request[..Dot(request)] || request[..Dot(request)] <= name
  {
    var j := 0;
    while j < |request| && j < |name|
      invariant j <= |request| && j <= |name| && j <= Dot(request)
      invariant request[..j] == name[..j]
    {
      if request[j] == '.' {
        assert j == Dot(request);
        assert Wanted(request) <= name;
        return true;
      }
      if request[j] != name[j] {
        NotComparable(name, Wanted(request), j);
        return false;
      }
      j := j + 1;
    }
    if j == |name| {
      assert name == Wanted(request)[..j];
    } else {
      assert Wanted(request) == request;
    }
    status := true;
  }

  /** The copying loop of lines 149-157. */
  method CopyQuantity(request: string) returns (quantity: string)
    ensures quantity == QuantityText(request)
  {
    quantity := "";
    var status := false;
    for j := 0 to |request|
      invariant status <==> Dot(request) < j
      invariant quantity == if status then request[Dot(request) + 1..j] else ""
    {
      if !status {
        if request[j] == '.' {
          status := true;
        }
      } else {
        quantity := quantity + [request[j]];
      }
    }
  }

  /** `purchase`: the stock is updated in place. */
  method Purchase(request: string, fruits: array<Fruit>, now: int) returns (code: int)
    requires |QuantityText(request)| <= 4  // `char quantity[5]`
    modifies fruits
    ensures code == Code(old(fruits[..]), request)
    ensures fruits[..] == Stock(old(fruits[..]), request, now)
  {
    for i := 0 to fruits.Length
      invariant fruits[..] == old(fruits[..])
      invariant i <= Lookup(fruits[..], Wanted(request))
    {
      var status := Matches(request, fruits[i].name);
      if status {
        assert fruits[..][i] == fruits[i];
        assert Lookup(fruits[..], Wanted(request)) == i;
        var quantity := CopyQuantity(request);
        var q_int := Atoi(quantity);
        if fruits[i].quantity < q_int {
          return fruits[i].quantity;
        } else {
          fruits[i] := fruits[i].(quantity := fruits[i].quantity - q_int, lastSold := now);
          return SOLD;
        }
      }
    }
    code := NOT_FOUND;
  }

  // ---------- what a request of the client's form means ----------

  lemma DotOfOrder(name: string, rest: string)
    requires forall i :: 0 <= i < |name| ==> name[i] != '.'
    ensures Wanted(name + "." + rest) == name
    ensures QuantityText(name + "." + rest) == rest
  {
    var r := name + "." + rest;
    assert r[|name|] == '.';
    assert forall i :: 0 <= i < |name| ==> r[i] == name[i];
    assert Dot(r) == |name|;
    assert r[..|name|] == name;
    assert r[|name| + 1..] == rest;
  }
}
