/** The cart aggregate of the application component: a sequence of cart
    lines in insertion order, the add and remove actions, and the total item
    count shown on the cart badge. */
module Cart {
  import opened Types

  /** Some line of the cart carries product id `id`. */
  predicate InCart(cart: seq<Item>, id: int) {
    exists i :: 0 <= i < |cart| && cart[i].id == id
  }

  /** No two lines share an id. */
  predicate UniqueIds(cart: seq<Item>) {
    forall i, j :: 0 <= i < j < |cart| ==> cart[i].id != cart[j].id
  }

  /** Every line holds at least one unit. */
  predicate PositiveAmounts(cart: seq<Item>) {
    forall i :: 0 <= i < |cart| ==> cart[i].amount >= 1
  }

  /** The invariant the add and remove actions keep. */
  predicate WellFormed(cart: seq<Item>) {
    UniqueIds(cart) && PositiveAmounts(cart)
  }

  /** No line before position `k` carries id `id`. */
  predicate NoneBefore(items: seq<Item>, id: int, k: int)
    requires k <= |items|
  {
    forall j :: 0 <= j < k ==> items[j].id != id
  }

  /** `items.find(item => item.id === id)`: the first line with that id. */
  function Find(items: seq<Item>, id: int): (r: Option<Item>)
    ensures r.Some? <==> InCart(items, id)
    ensures r.Some? ==> r.value.id == id && r.value in items
    ensures r.Some? ==> exists k :: 0 <= k < |items| && items[k] == r.value && NoneBefore(items, id, k)
  {
    if |items| == 0 then None
    else if items[0].id == id then
      assert NoneBefore(items, id, 0);
      Some(items[0])
    else
      var r := Find(items[1..], id);
      assert r.Some? ==> exists k :: 0 <= k < |items| && items[k] == r.value && NoneBefore(items, id, k) by {
        if r.Some? {
          var k :| 0 <= k < |items[1..]| && items[1..][k] == r.value && NoneBefore(items[1..], id, k);
          assert items[k + 1] == r.value;
          forall j | 0 <= j < k + 1 ensures items[j].id != id {
            if j > 0 { assert items[j] == items[1..][j - 1]; }
          }
          assert NoneBefore(items, id, k + 1);
        }
      }
      assert InCart(items, id) ==> InCart(items[1..], id) by {
        if InCart(items, id) {
          var i :| 0 <= i < |items| && items[i].id == id;
          assert items[1..][i - 1].id == id;
        }
      }
      assert InCart(items[1..], id) ==> InCart(items, id) by {
        if InCart(items[1..], id) {
          var i :| 0 <= i < |items[1..]| && items[1..][i].id == id;
          assert items[i + 1].id == id;
        }
      }
      r
  }

  /** `getTotalItems`: the units held, summed left to right as `reduce` does. */
  function GetTotalItems(items: seq<Item>): (r: int)
    ensures |items| == 0 ==> r == 0
    ensures PositiveAmounts(items) ==> r >= |items|
  {
    if |items| == 0 then 0 else GetTotalItems(items[..|items| - 1]) + items[|items| - 1].amount
  }

  /** Add one unit of `clicked`. A line with the same id gains one unit and
      keeps its stored fields; otherwise a copy of `clicked` holding one unit
      is appended at the end. */
  function AddToCart(prev: seq<Item>, clicked: Item): (r: seq<Item>)
    ensures InCart(r, clicked.id)
    ensures InCart(prev, clicked.id) ==>
      && |r| == |prev|
      && forall i :: 0 <= i < |prev| ==>
           if prev[i].id == clicked.id
           then r[i].amount == prev[i].amount + 1 && r[i].(amount := prev[i].amount) == prev[i]
           else r[i] == prev[i]
    ensures !InCart(prev, clicked.id) ==>
      && |r| == |prev| + 1
      && r[..|prev|] == prev
      && r[|prev|].amount == 1
      && r[|prev|].(amount := clicked.amount) == clicked
  {
    match Find(prev, clicked.id)
    case Some(_) =>
      var r := seq(|prev|, i requires 0 <= i < |prev| =>
        if prev[i].id == clicked.id then prev[i].(amount := prev[i].amount + 1) else prev[i]);
      var i :| 0 <= i < |prev| && prev[i].id == clicked.id;
      assert r[i].id == clicked.id;
      r
    case None =>
      var r := prev + [clicked.(amount := 1)];
      assert r[|prev|].id == clicked.id;
      r
  }

  /** Remove one unit of product `id`, rebuilding the cart left to right as
      `reduce` does: a matching line holding one unit is dropped, any other
      matching line loses one unit, and every other line is copied. */
  function RemoveFromCart(prev: seq<Item>, id: int): (r: seq<Item>)
    ensures |r| <= |prev|
    ensures !InCart(prev, id) ==> r == prev
  {
    if |prev| == 0 then []
    else
      var init := prev[..|prev| - 1];
      var item := prev[|prev| - 1];
      assert prev == init + [item];
      var ack := RemoveFromCart(init, id);
      assert InCart(init, id) ==> InCart(prev, id) by {
        if InCart(init, id) {
          var i :| 0 <= i < |init| && init[i].id == id;
          assert prev[i].id == id;
        }
      }
      if item.id == id then
        if item.amount == 1 then ack else ack + [item.(amount := item.amount - 1)]
      else
        ack + [item]
  }

  /** The line at position `k` with its amount replaced. */
  function WithAmount(cart: seq<Item>, k: nat, amount: int): seq<Item>
    requires k < |cart|
  {
    cart[k := cart[k].(amount := amount)]
  }

  /** The cart with one unit of the line at `k` taken away: a one-unit line
      is deleted and the gap closed; any other line loses one unit. */
  function TakeOne(cart: seq<Item>, k: nat): seq<Item>
    requires k < |cart|
  {
    if cart[k].amount == 1 then cart[..k] + cart[k + 1..] else WithAmount(cart, k, cart[k].amount - 1)
  }

  /** Taking a unit from a line before the last commutes with appending. */
  lemma {:induction false} TakeOneAppend(init: seq<Item>, item: Item, k: nat)
    requires k < |init|
    ensures TakeOne(init + [item], k) == TakeOne(init, k) + [item]
  {
    var prev := init + [item];
    if init[k].amount == 1 {
      assert prev[..k] == init[..k];
      assert prev[k + 1..] == init[k + 1..] + [item];
    } else {
      assert WithAmount(prev, k, init[k].amount - 1) == WithAmount(init, k, init[k].amount - 1) + [item];
    }
  }

  /** Dropping the last line of a cart with unique ids keeps the ids unique,
      and the dropped id occurs nowhere else. */
  lemma {:induction false} UniqueInit(prev: seq<Item>)
    requires UniqueIds(prev) && |prev| > 0
    ensures UniqueIds(prev[..|prev| - 1])
    ensures !InCart(prev[..|prev| - 1], prev[|prev| - 1].id)
  {
    var init := prev[..|prev| - 1];
    forall i | 0 <= i < |init| ensures init[i].id != prev[|prev| - 1].id {
      assert init[i] == prev[i];
    }
  }

  /** Removing a present id from a cart with unique ids takes one unit from
      its line: a line holding more than one unit loses one, a line holding
      exactly one disappears and the gap closes. Every other line keeps its
      value and its relative order. */
  lemma {:induction false} RemovePresent(prev: seq<Item>, k: nat)
    requires UniqueIds(prev)
    requires k < |prev|
    ensures RemoveFromCart(prev, prev[k].id) == TakeOne(prev, k)
  {
    var id := prev[k].id;
    var n := |prev|;
    var init := prev[..n - 1];
    var item := prev[n - 1];
    assert prev == init + [item];
    UniqueInit(prev);
    if k == n - 1 {
      assert prev[..k] == init && prev[k + 1..] == [];
    } else {
      assert init[k] == prev[k];
      assert item.id != id;
      RemovePresent(init, k);
      TakeOneAppend(init, item, k);
    }
  }

  /** Deleting a line keeps the cart invariant. */
  lemma {:induction false} DeleteKeepsWellFormed(cart: seq<Item>, k: nat)
    requires WellFormed(cart) && k < |cart|
    ensures WellFormed(cart[..k] + cart[k + 1..])
  {
    var r := cart[..k] + cart[k + 1..];
    forall i | 0 <= i < |r| ensures r[i] == cart[if i < k then i else i + 1] {
    }
  }

  /** Lowering a line holding two or more units keeps the cart invariant. */
  lemma {:induction false} DecrementKeepsWellFormed(cart: seq<Item>, k: nat)
    requires WellFormed(cart) && k < |cart| && cart[k].amount > 1
    ensures WellFormed(WithAmount(cart, k, cart[k].amount - 1))
  {
  }

  /** Removal keeps the cart invariant: ids stay unique and no line is left
      holding zero units. */
  lemma {:induction false} RemovePreservesWellFormed(prev: seq<Item>, id: int)
    requires WellFormed(prev)
    ensures WellFormed(RemoveFromCart(prev, id))
  {
    if InCart(prev, id) {
      var k :| 0 <= k < |prev| && prev[k].id == id;
      RemovePresent(prev, k);
      if prev[k].amount == 1 {
        DeleteKeepsWellFormed(prev, k);
      } else {
        DecrementKeepsWellFormed(prev, k);
      }
    }
  }

  // ---------------------------------------------------------------------
  // Item counts
  // ---------------------------------------------------------------------

  /** The count of a concatenation is the sum of the counts. */
  lemma {:induction false} TotalItemsAppend(a: seq<Item>, b: seq<Item>)
    ensures GetTotalItems(a + b) == GetTotalItems(a) + GetTotalItems(b)
  {
    if |b| > 0 {
      assert (a + b)[..|a + b| - 1] == a + b[..|b| - 1];
      TotalItemsAppend(a, b[..|b| - 1]);
    } else {
      assert a + b == a;
    }
  }

  /** The count split around position `k`. */
  lemma {:induction false} TotalItemsSplit(s: seq<Item>, k: nat)
    requires k < |s|
    ensures GetTotalItems(s) == GetTotalItems(s[..k]) + s[k].amount + GetTotalItems(s[k + 1..])
  {
    assert s == s[..k] + [s[k]] + s[k + 1..];
    TotalItemsAppend(s[..k] + [s[k]], s[k + 1..]);
    TotalItemsAppend(s[..k], [s[k]]);
    assert [s[k]][..0] == [];
  }

  /** Changing the amount of one line changes the count by the difference. */
  lemma {:induction false} TotalItemsWithAmount(s: seq<Item>, k: nat, amount: int)
    requires k < |s|
    ensures GetTotalItems(WithAmount(s, k, amount)) == GetTotalItems(s) - s[k].amount + amount
  {
    var t := WithAmount(s, k, amount);
    TotalItemsSplit(s, k);
    TotalItemsSplit(t, k);
    assert t[..k] == s[..k];
    assert t[k + 1..] == s[k + 1..];
  }

  /** On a cart with unique ids, adding a present product bumps exactly the
      line at its position. */
  lemma {:induction false} AddPresentAt(prev: seq<Item>, clicked: Item, k: nat)
    requires UniqueIds(prev)
    requires k < |prev| && prev[k].id == clicked.id
    ensures AddToCart(prev, clicked) == WithAmount(prev, k, prev[k].amount + 1)
  {
    assert InCart(prev, clicked.id);
  }

  /** Every add raises the item count by exactly one. */
  lemma {:induction false} AddIncrementsTotalItems(prev: seq<Item>, clicked: Item)
    requires UniqueIds(prev)
    ensures GetTotalItems(AddToCart(prev, clicked)) == GetTotalItems(prev) + 1
  {
    if InCart(prev, clicked.id) {
      var k :| 0 <= k < |prev| && prev[k].id == clicked.id;
      AddPresentAt(prev, clicked, k);
      TotalItemsWithAmount(prev, k, prev[k].amount + 1);
    } else {
      TotalItemsAppend(prev, [clicked.(amount := 1)]);
      assert [clicked.(amount := 1)][..0] == [];
    }
  }

  /** Removing a present id lowers the item count by exactly one; removing an
      absent id leaves it unchanged. */
  lemma {:induction false} RemoveDecrementsTotalItems(prev: seq<Item>, id: int)
    requires UniqueIds(prev)
    ensures GetTotalItems(RemoveFromCart(prev, id)) == GetTotalItems(prev) - (if InCart(prev, id) then 1 else 0)
  {
    if InCart(prev, id) {
      var k :| 0 <= k < |prev| && prev[k].id == id;
      RemovePresent(prev, k);
      TotalItemsSplit(prev, k);
      if prev[k].amount == 1 {
        TotalItemsAppend(prev[..k], prev[k + 1..]);
      } else {
        TotalItemsWithAmount(prev, k, prev[k].amount - 1);
      }
    }
  }

  /** Adding keeps the cart invariant: a present id only gains a unit and a
      new id gets a fresh one-unit line. */
  lemma {:induction false} AddPreservesWellFormed(prev: seq<Item>, clicked: Item)
    requires WellFormed(prev)
    ensures WellFormed(AddToCart(prev, clicked))
  {
    var r := AddToCart(prev, clicked);
    if !InCart(prev, clicked.id) {
      assert forall i :: 0 <= i < |prev| ==> r[i] == prev[i];
    }
  }

  /** Removing right after adding undoes the add, on a well-formed cart. */
  lemma {:induction false} RemoveUndoesAdd(prev: seq<Item>, clicked: Item)
    requires WellFormed(prev)
    ensures RemoveFromCart(AddToCart(prev, clicked), clicked.id) == prev
  {
    if InCart(prev, clicked.id) {
      var k :| 0 <= k < |prev| && prev[k].id == clicked.id;
      RemoveUndoesAddPresent(prev, clicked, k);
    } else {
      RemoveUndoesAddAbsent(prev, clicked);
    }
  }

  /** Undoing the add of a present product. */
  lemma {:induction false} RemoveUndoesAddPresent(prev: seq<Item>, clicked: Item, k: nat)
    requires WellFormed(prev)
    requires k < |prev| && prev[k].id == clicked.id
    ensures RemoveFromCart(AddToCart(prev, clicked), clicked.id) == prev
  {
    AddPresentAt(prev, clicked, k);
    var added := WithAmount(prev, k, prev[k].amount + 1);
    assert UniqueIds(added);
    RemovePresent(added, k);
    assert WithAmount(added, k, added[k].amount - 1) == prev;
  }

  /** Undoing the add of a new product. */
  lemma {:induction false} RemoveUndoesAddAbsent(prev: seq<Item>, clicked: Item)
    requires WellFormed(prev)
    requires !InCart(prev, clicked.id)
    ensures RemoveFromCart(AddToCart(prev, clicked), clicked.id) == prev
  {
    var n := |prev|;
    var added := prev + [clicked.(amount := 1)];
    AddPreservesWellFormed(prev, clicked);
    assert AddToCart(prev, clicked) == added;
    RemovePresent(added, n);
    assert added[..n] == prev;
  }

  /** `n` removals of the same id in a row. */
  function RemoveTimes(cart: seq<Item>, id: int, n: nat): seq<Item>
    decreases n
  {
    if n == 0 then cart else RemoveTimes(RemoveFromCart(cart, id), id, n - 1)
  }

  /** Removing a line's id as many times as it holds units deletes the line
      and nothing else; further removals change nothing. */
  lemma {:induction false} RemoveRepeatedlyDeletesLine(cart: seq<Item>, k: nat, extra: nat)
    requires WellFormed(cart)
    requires k < |cart|
    ensures RemoveTimes(cart, cart[k].id, cart[k].amount + extra) == cart[..k] + cart[k + 1..]
    decreases cart[k].amount
  {
    var id := cart[k].id;
    var amount := cart[k].amount;
    RemovePresent(cart, k);
    var next := RemoveFromCart(cart, id);
    assert RemoveTimes(cart, id, amount + extra) == RemoveTimes(next, id, amount - 1 + extra);
    if amount == 1 {
      var rest := cart[..k] + cart[k + 1..];
      assert next == rest;
      assert !InCart(rest, id) by {
        forall i | 0 <= i < |rest| ensures rest[i].id != id {
          assert rest[i] == cart[if i < k then i else i + 1];
        }
      }
      RemoveAbsentForever(rest, id, extra);
    } else {
      RemovePreservesWellFormed(cart, id);
      assert next == WithAmount(cart, k, amount - 1);
      assert next[k].id == id && next[k].amount == amount - 1;
      RemoveRepeatedlyDeletesLine(next, k, extra);
      assert next[..k] == cart[..k] && next[k + 1..] == cart[k + 1..];
    }
  }

  /** Removing an absent id any number of times changes nothing. */
  lemma {:induction false} RemoveAbsentForever(cart: seq<Item>, id: int, n: nat)
    requires !InCart(cart, id)
    ensures RemoveTimes(cart, id, n) == cart
  {
    if n > 0 {
      RemoveAbsentForever(cart, id, n - 1);
    }
  }

  /** `n` adds of the same product in a row. */
  function AddTimes(cart: seq<Item>, clicked: Item, n: nat): seq<Item>
    decreases n
  {
    if n == 0 then cart else AddToCart(AddTimes(cart, clicked, n - 1), clicked)
  }

  /** Adding the same product `n >= 1` times to an empty cart yields a single
      line holding `n` units, with the product's other fields. */
  lemma {:induction false} AddTimesMerges(clicked: Item, n: nat)
    requires n >= 1
    ensures AddTimes([], clicked, n) == [clicked.(amount := n)]
  {
    if n > 1 {
      AddTimesMerges(clicked, n - 1);
      var prev := [clicked.(amount := n - 1)];
      AddPresentAt(prev, clicked, 0);
    }
  }
}
