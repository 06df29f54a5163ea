/** The price total shown at the foot of the cart drawer, and how the add
    and remove actions move it. Rounding to two decimals happens only when
    the total is displayed and is not part of this model. */
module CartTotal {
  import opened Types
  import opened Cart

  /** What one line contributes: its amount times its unit price. */
  function LineTotal(line: Item): real {
    line.amount as real * line.price
  }

  /** `calculateTotal`: the line totals, summed left to right as `reduce` does. */
  function CalculateTotal(items: seq<Item>): (r: real)
    ensures |items| == 0 ==> r == 0.0
    ensures |items| == 1 ==> r == LineTotal(items[0])
  {
    if |items| == 0 then 0.0 else CalculateTotal(items[..|items| - 1]) + LineTotal(items[|items| - 1])
  }

  /** The empty cart costs nothing, and a cart whose amounts and prices are
      all non-negative never has a negative total. */
  lemma {:induction false} TotalNonNegative(items: seq<Item>)
    requires forall i :: 0 <= i < |items| ==> items[i].amount >= 0 && items[i].price >= 0.0
    ensures CalculateTotal(items) >= 0.0
    ensures |items| == 0 ==> CalculateTotal(items) == 0.0
  {
    if |items| > 0 {
      var last := items[|items| - 1];
      TotalNonNegative(items[..|items| - 1]);
      assert last.amount as real >= 0.0;
      assert LineTotal(last) >= 0.0;
    }
  }

  /** A well-formed cart of non-negatively priced products has a
      non-negative total. */
  lemma {:induction false} WellFormedTotalNonNegative(items: seq<Item>)
    requires WellFormed(items)
    requires forall i :: 0 <= i < |items| ==> items[i].price >= 0.0
    ensures CalculateTotal(items) >= 0.0
  {
    TotalNonNegative(items);
  }

  /** The total of a concatenation is the sum of the totals. */
  lemma {:induction false} TotalAppend(a: seq<Item>, b: seq<Item>)
    ensures CalculateTotal(a + b) == CalculateTotal(a) + CalculateTotal(b)
  {
    if |b| > 0 {
      assert (a + b)[..|a + b| - 1] == a + b[..|b| - 1];
      TotalAppend(a, b[..|b| - 1]);
    } else {
      assert a + b == a;
    }
  }

  /** The total split around position `k`. */
  lemma {:induction false} TotalSplit(s: seq<Item>, k: nat)
    requires k < |s|
    ensures CalculateTotal(s) == CalculateTotal(s[..k]) + LineTotal(s[k]) + CalculateTotal(s[k + 1..])
  {
    assert s == s[..k] + [s[k]] + s[k + 1..];
    TotalAppend(s[..k] + [s[k]], s[k + 1..]);
    TotalAppend(s[..k], [s[k]]);
    assert [s[k]][..0] == [];
  }

  /** Changing one line's amount moves the total by that line's share. */
  lemma {:induction false} TotalWithAmount(s: seq<Item>, k: nat, amount: int)
    requires k < |s|
    ensures CalculateTotal(WithAmount(s, k, amount)) == CalculateTotal(s) - LineTotal(s[k]) + LineTotal(s[k].(amount := amount))
  {
    var t := WithAmount(s, k, amount);
    TotalSplit(s, k);
    TotalSplit(t, k);
    assert t[..k] == s[..k];
    assert t[k + 1..] == s[k + 1..];
    assert t[k] == s[k].(amount := amount);
  }

  /** One unit more of a line raises the total by that line's price. */
  lemma {:induction false} TotalIncrement(s: seq<Item>, k: nat)
    requires k < |s|
    ensures CalculateTotal(WithAmount(s, k, s[k].amount + 1)) == CalculateTotal(s) + s[k].price
  {
    TotalWithAmount(s, k, s[k].amount + 1);
    assert LineTotal(s[k].(amount := s[k].amount + 1)) == LineTotal(s[k]) + s[k].price;
  }

  /** One unit less of a line lowers the total by that line's price. */
  lemma {:induction false} TotalDecrement(s: seq<Item>, k: nat)
    requires k < |s|
    ensures CalculateTotal(WithAmount(s, k, s[k].amount - 1)) == CalculateTotal(s) - s[k].price
  {
    TotalWithAmount(s, k, s[k].amount - 1);
    assert LineTotal(s[k].(amount := s[k].amount - 1)) == LineTotal(s[k]) - s[k].price;
  }

  /** On a cart with unique ids, the line `find` returns is the one at the
      id's position. */
  lemma {:induction false} FindAt(items: seq<Item>, k: nat)
    requires UniqueIds(items)
    requires k < |items|
    ensures Find(items, items[k].id) == Some(items[k])
  {
    assert InCart(items, items[k].id);
    var line := Find(items, items[k].id).value;
    var j :| 0 <= j < |items| && items[j] == line;
  }

  /** The unit price an add charges: the stored line's price when the id is
      already in the cart, the clicked product's price otherwise. */
  function AddedPrice(prev: seq<Item>, clicked: Item): real {
    match Find(prev, clicked.id)
    case Some(line) => line.price
    case None => clicked.price
  }

  /** Adding a product raises the total by one unit price. */
  lemma {:induction false} AddRaisesTotal(prev: seq<Item>, clicked: Item)
    requires UniqueIds(prev)
    ensures CalculateTotal(AddToCart(prev, clicked)) == CalculateTotal(prev) + AddedPrice(prev, clicked)
  {
    if InCart(prev, clicked.id) {
      var k :| 0 <= k < |prev| && prev[k].id == clicked.id;
      FindAt(prev, k);
      AddPresentAt(prev, clicked, k);
      TotalIncrement(prev, k);
    } else {
      var line := clicked.(amount := 1);
      TotalAppend(prev, [line]);
      assert [line][..0] == [];
      assert LineTotal(line) == clicked.price;
    }
  }

  /** The unit price a removal refunds: the stored line's price when the id
      is in the cart, nothing otherwise. */
  function RemovedPrice(prev: seq<Item>, id: int): real {
    match Find(prev, id)
    case Some(line) => line.price
    case None => 0.0
  }

  /** Dropping a line holding one unit lowers the total by its price. */
  lemma {:induction false} TotalWithoutSingleUnit(s: seq<Item>, k: nat)
    requires k < |s| && s[k].amount == 1
    ensures CalculateTotal(s[..k] + s[k + 1..]) == CalculateTotal(s) - s[k].price
  {
    TotalSplit(s, k);
    TotalAppend(s[..k], s[k + 1..]);
    assert LineTotal(s[k]) == s[k].price;
  }

  /** Removing a present id lowers the total by that line's price; removing
      an absent id leaves it unchanged. */
  lemma {:induction false} RemoveLowersTotal(prev: seq<Item>, id: int)
    requires UniqueIds(prev)
    ensures CalculateTotal(RemoveFromCart(prev, id)) == CalculateTotal(prev) - RemovedPrice(prev, id)
  {
    if InCart(prev, id) {
      var k :| 0 <= k < |prev| && prev[k].id == id;
      FindAt(prev, k);
      assert RemovedPrice(prev, id) == prev[k].price;
      RemovePresent(prev, k);
      var price := prev[k].price;
      var amount := prev[k].amount;
      if amount == 1 {
        TotalWithoutSingleUnit(prev, k);
      } else {
        TotalDecrement(prev, k);
      }
    }
  }

  /** Deleting position `k` removes exactly that element from the multiset. */
  lemma {:induction false} MultisetWithout<T>(s: seq<T>, k: nat)
    requires k < |s|
    ensures multiset(s[..k] + s[k + 1..]) == multiset(s) - multiset{s[k]}
  {
    assert s == s[..k] + [s[k]] + s[k + 1..];
  }

  /** Deleting position `k` lowers the total by that line's share. */
  lemma {:induction false} TotalWithout(s: seq<Item>, k: nat)
    requires k < |s|
    ensures CalculateTotal(s[..k] + s[k + 1..]) == CalculateTotal(s) - LineTotal(s[k])
  {
    TotalSplit(s, k);
    TotalAppend(s[..k], s[k + 1..]);
  }

  /** Removing the last element of `a` and a matching element of `b` from
      two equal multisets leaves equal multisets. */
  lemma {:induction false} MultisetCancel(a: seq<Item>, b: seq<Item>, k: nat)
    requires multiset(a) == multiset(b)
    requires |a| > 0 && k < |b| && b[k] == a[|a| - 1]
    ensures multiset(a[..|a| - 1]) == multiset(b[..k] + b[k + 1..])
  {
    MultisetWithout(a, |a| - 1);
    MultisetWithout(b, k);
    assert a[..|a| - 1] + a[|a|..] == a[..|a| - 1];
  }

  /** The inductive step of order independence: matching the last line of
      `a` with line `k` of `b`, equal totals of the rests give equal totals. */
  lemma {:induction false} TotalOrderStep(a: seq<Item>, b: seq<Item>, k: nat)
    requires |a| > 0 && k < |b| && b[k] == a[|a| - 1]
    requires CalculateTotal(a[..|a| - 1]) == CalculateTotal(b[..k] + b[k + 1..])
    ensures CalculateTotal(a) == CalculateTotal(b)
  {
    TotalWithout(b, k);
  }

  /** The total depends only on which lines the cart holds, not on their
      order. */
  lemma {:induction false} TotalOrderIndependent(a: seq<Item>, b: seq<Item>)
    requires multiset(a) == multiset(b)
    ensures CalculateTotal(a) == CalculateTotal(b)
    decreases |a|
  {
    if |a| == 0 {
      assert |b| == |multiset(b)| == 0;
      assert b == [];
    } else {
      var last := a[|a| - 1];
      assert last in multiset(b);
      assert last in b;
      var k :| 0 <= k < |b| && b[k] == last;
      MultisetCancel(a, b, k);
      TotalOrderIndependent(a[..|a| - 1], b[..k] + b[k + 1..]);
      TotalOrderStep(a, b, k);
    }
  }
}
