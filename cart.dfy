/** The shopping cart: its lines, the totals the cart panel shows, the four
    operations that change it, and the snapshot kept in local storage. */
module Cart {
  import opened Wrappers
  import opened Lists
  import opened Catalog

  /** A frozen copy of a product's fields plus a quantity. The quantity is an
      unbounded integer: a cart read back from storage is taken as it is. */
  datatype CartLine = CartLine(item: Product, quantity: int)

  /** What the checkout dialog reports. */
  datatype Summary = Summary(itemsCount: int, total: int)

  /** At most one line per product id. */
  ghost predicate DistinctIds(lines: seq<CartLine>)
  {
    forall i, j :: 0 <= i < j < |lines| ==> lines[i].item.id != lines[j].item.id
  }

  /** The cart invariant: distinct ids and every quantity at least one. */
  ghost predicate WellFormed(lines: seq<CartLine>)
  {
    DistinctIds(lines) && forall i :: 0 <= i < |lines| ==> lines[i].quantity >= 1
  }

  ghost predicate HasLine(lines: seq<CartLine>, id: int)
  {
    exists i :: 0 <= i < |lines| && lines[i].item.id == id
  }

  /** `cart.reduce((sum, item) => sum + item.quantity, 0)`: the badge count. */
  function ItemCount(lines: seq<CartLine>): (n: int)
    ensures (forall i :: 0 <= i < |lines| ==> lines[i].quantity >= 1) ==> n >= |lines|
  {
    if lines == [] then 0 else ItemCount(lines[..|lines| - 1]) + lines[|lines| - 1].quantity
  }

  /** `item.price * item.quantity`: one line's share of the total. */
  function LineTotal(l: CartLine): (t: int)
    ensures l.quantity == 1 ==> t == l.item.price
    ensures l.item.price >= 0 && l.quantity >= 0 ==> t >= 0
  {
    l.item.price * l.quantity
  }

  /** `cart.reduce((sum, item) => sum + item.price * item.quantity, 0)`. */
  function TotalPrice(lines: seq<CartLine>): (t: int)
    ensures (forall i :: 0 <= i < |lines| ==> lines[i].item.price >= 0 && lines[i].quantity >= 0) ==> t >= 0
  {
    if lines == [] then 0 else TotalPrice(lines[..|lines| - 1]) + LineTotal(lines[|lines| - 1])
  }

  lemma {:induction false} ItemCountAppend(a: seq<CartLine>, b: seq<CartLine>)
    ensures ItemCount(a + b) == ItemCount(a) + ItemCount(b)
    decreases |b|
  {
    if b == [] {
      assert a + b == a;
    } else {
      assert (a + b)[..|a + b| - 1] == a + b[..|b| - 1];
      ItemCountAppend(a, b[..|b| - 1]);
    }
  }

  lemma {:induction false} TotalPriceAppend(a: seq<CartLine>, b: seq<CartLine>)
    ensures TotalPrice(a + b) == TotalPrice(a) + TotalPrice(b)
    decreases |b|
  {
    if b == [] {
      assert a + b == a;
    } else {
      assert (a + b)[..|a + b| - 1] == a + b[..|b| - 1];
      TotalPriceAppend(a, b[..|b| - 1]);
    }
  }

  /** Replacing one line changes the totals by the difference of the two lines. */
  lemma TotalsUpdate(lines: seq<CartLine>, k: nat, l: CartLine)
    requires k < |lines|
    ensures ItemCount(lines[k := l]) == ItemCount(lines) - lines[k].quantity + l.quantity
    ensures TotalPrice(lines[k := l]) == TotalPrice(lines) - LineTotal(lines[k]) + LineTotal(l)
  {
    var pre, post := lines[..k], lines[k + 1..];
    assert lines == pre + [lines[k]] + post;
    assert lines[k := l] == pre + [l] + post;
    ItemCountAppend(pre + [lines[k]], post);
    ItemCountAppend(pre, [lines[k]]);
    ItemCountAppend(pre + [l], post);
    ItemCountAppend(pre, [l]);
    TotalPriceAppend(pre + [lines[k]], post);
    TotalPriceAppend(pre, [lines[k]]);
    TotalPriceAppend(pre + [l], post);
    TotalPriceAppend(pre, [l]);
  }

  /** `pokemons.find(p => p.id === productId)`. */
  function FindProduct(catalog: seq<Product>, id: int): (r: Option<Product>)
    ensures r.Some? ==> exists k :: 0 <= k < |catalog| && catalog[k] == r.value && r.value.id == id
                                    && forall j :: 0 <= j < k ==> catalog[j].id != id
    ensures r.None? <==> forall i :: 0 <= i < |catalog| ==> catalog[i].id != id
  {
    Find(catalog, (p: Product) => p.id == id)
  }

  /** The position of `cart.find(item => item.id === productId)`. */
  function LineIndex(lines: seq<CartLine>, id: int): (r: Option<nat>)
    ensures r.Some? ==> r.value < |lines| && lines[r.value].item.id == id
    ensures r.Some? ==> forall j :: 0 <= j < r.value ==> lines[j].item.id != id
    ensures r.None? <==> !HasLine(lines, id)
  {
    FindIndex(lines, (l: CartLine) => l.item.id == id)
  }

  /** The confirmed branch of adding `p`: bump the first line with its id, or
      append a copy of it with quantity one. */
  function Added(lines: seq<CartLine>, p: Product): (r: seq<CartLine>)
    ensures HasLine(r, p.id)
    ensures |lines| <= |r| <= |lines| + 1
  {
    match LineIndex(lines, p.id)
    case Some(k) =>
      var r := lines[k := lines[k].(quantity := lines[k].quantity + 1)];
      assert r[k].item.id == p.id;
      r
    case None =>
      var r := lines + [CartLine(p, 1)];
      assert r[|lines|].item.id == p.id;
      r
  }

  /** The whole add: look the id up in the catalog, then add if confirmed. */
  function AddStep(catalog: seq<Product>, lines: seq<CartLine>, productId: int, confirmed: bool)
    : (r: seq<CartLine>)
    ensures !confirmed ==> r == lines
    ensures (forall i :: 0 <= i < |catalog| ==> catalog[i].id != productId) ==> r == lines
    ensures confirmed && (exists i :: 0 <= i < |catalog| && catalog[i].id == productId) ==>
              HasLine(r, productId)
  {
    var found := FindProduct(catalog, productId);
    if confirmed && found.Some? then Added(lines, found.value) else lines
  }

  /** `cart.filter(item => item.id !== productId)`. */
  function Removed(lines: seq<CartLine>, id: int): (r: seq<CartLine>)
    ensures |r| <= |lines|
    ensures forall i :: 0 <= i < |r| ==> r[i].item.id != id
  {
    var r := Filter(lines, (l: CartLine) => l.item.id != id);
    assert forall i :: 0 <= i < |r| ==> r[i] in r;
    r
  }

  /** Adding an id that is already in the cart bumps that line's quantity by one
      and leaves its length and every other line alone. */
  lemma AddedExisting(lines: seq<CartLine>, p: Product, k: nat)
    requires k < |lines| && lines[k].item.id == p.id
    requires forall j :: 0 <= j < k ==> lines[j].item.id != p.id
    ensures |Added(lines, p)| == |lines|
    ensures Added(lines, p)[k] == lines[k].(quantity := lines[k].quantity + 1)
    ensures forall j :: 0 <= j < |lines| && j != k ==> Added(lines, p)[j] == lines[j]
  {
    var r := LineIndex(lines, p.id);
    assert r.Some? && r.value == k;
  }

  /** Adding an id that is not in the cart appends one line with quantity one,
      carrying the product's fields. */
  lemma AddedNew(lines: seq<CartLine>, p: Product)
    requires !HasLine(lines, p.id)
    ensures Added(lines, p) == lines + [CartLine(p, 1)]
  {
    assert LineIndex(lines, p.id).None?;
  }

  /** A confirmed add of a catalog id adds the first catalog product with that id. */
  lemma AddStepAdds(catalog: seq<Product>, lines: seq<CartLine>, k: nat)
    requires k < |catalog|
    requires forall j :: 0 <= j < k ==> catalog[j].id != catalog[k].id
    ensures AddStep(catalog, lines, catalog[k].id, true) == Added(lines, catalog[k])
  {
    var r := FindIndex(catalog, (p: Product) => p.id == catalog[k].id);
    assert r.Some? && r.value == k;
  }

  /** Adding keeps ids distinct and quantities positive. */
  lemma AddedWellFormed(lines: seq<CartLine>, p: Product)
    requires WellFormed(lines)
    ensures WellFormed(Added(lines, p))
  {
    var r := Added(lines, p);
    match LineIndex(lines, p.id)
    case Some(k) =>
      assert forall j :: 0 <= j < |r| ==> r[j].item == lines[j].item;
    case None =>
      assert forall j :: 0 <= j < |lines| ==> r[j] == lines[j];
  }

  /** One more unit adds the unit price to the line's total. */
  lemma BumpTotal(l: CartLine)
    ensures LineTotal(l.(quantity := l.quantity + 1)) == LineTotal(l) + l.item.price
  {
    assert l.item.price * (l.quantity + 1) == l.item.price * l.quantity + l.item.price;
  }

  /** Each add raises the item count by one, and the total by the unit price
      of the line it bumps or creates. */
  lemma AddedTotals(lines: seq<CartLine>, p: Product)
    ensures ItemCount(Added(lines, p)) == ItemCount(lines) + 1
    ensures TotalPrice(Added(lines, p)) == TotalPrice(lines) +
              match LineIndex(lines, p.id) case Some(k) => lines[k].item.price case None => p.price
  {
    match LineIndex(lines, p.id)
    case Some(k) =>
      var bumped := lines[k].(quantity := lines[k].quantity + 1);
      assert Added(lines, p) == lines[k := bumped];
      TotalsUpdate(lines, k, bumped);
      BumpTotal(lines[k]);
    case None =>
      assert Added(lines, p) == lines + [CartLine(p, 1)];
      ItemCountAppend(lines, [CartLine(p, 1)]);
      TotalPriceAppend(lines, [CartLine(p, 1)]);
      assert [CartLine(p, 1)][..0] == [];
  }

  /** Adding the same new product twice gives one line with quantity two. */
  lemma AddTwice(lines: seq<CartLine>, p: Product)
    requires !HasLine(lines, p.id)
    ensures Added(Added(lines, p), p) == lines + [CartLine(p, 2)]
  {
    AddedNew(lines, p);
    var once := lines + [CartLine(p, 1)];
    AddedExisting(once, p, |lines|);
  }

  /** Removing keeps exactly the lines with another id, in their order, each as
      often as before; no line with the id is left. */
  lemma RemovedSpec(lines: seq<CartLine>, id: int)
    ensures IsSubsequence(Removed(lines, id), lines)
    ensures forall l :: l in Removed(lines, id) <==> l in lines && l.item.id != id
    ensures forall l :: multiset(Removed(lines, id))[l] ==
                        if l.item.id != id then multiset(lines)[l] else 0
    ensures !HasLine(Removed(lines, id), id)
  {
    var keep := (l: CartLine) => l.item.id != id;
    FilterSubsequence(lines, keep);
    forall l ensures l in Filter(lines, keep) <==> l in lines && l.item.id != id {
      FilterMembers(lines, keep, l);
    }
    forall l ensures multiset(Filter(lines, keep))[l] == if l.item.id != id then multiset(lines)[l] else 0 {
      FilterCount(lines, keep, l);
    }
    var r := Removed(lines, id);
    forall i | 0 <= i < |r| ensures r[i].item.id != id {
      assert r[i] in r;
    }
  }

  /** Removing an id that no line has is a no-op. */
  lemma RemovedAbsent(lines: seq<CartLine>, id: int)
    requires !HasLine(lines, id)
    ensures Removed(lines, id) == lines
  {
    FilterKeepsAll(lines, (l: CartLine) => l.item.id != id);
  }

  /** Removing keeps ids distinct and quantities positive. */
  lemma {:induction false} RemovedWellFormed(lines: seq<CartLine>, id: int)
    requires WellFormed(lines)
    ensures WellFormed(Removed(lines, id))
  {
    if lines != [] {
      var keep := (l: CartLine) => l.item.id != id;
      var rest := Filter(lines[1..], keep);
      assert WellFormed(lines[1..]);
      RemovedWellFormed(lines[1..], id);
      if keep(lines[0]) {
        var r := [lines[0]] + rest;
        forall j | 0 < j < |r| ensures r[j].item.id != lines[0].item.id {
          assert r[j] in rest;
          var i :| 0 <= i < |lines[1..]| && lines[1..][i] == r[j];
          assert lines[i + 1] == r[j];
        }
        forall j | 0 < j < |r| ensures r[j].quantity >= 1 {
          assert r[j] in rest;
        }
      }
    }
  }

  /** The user actions that reach the cart, with the dialog answer where the
      page asks the user to confirm. */
  datatype Action =
    | AddAction(productId: int, confirmed: bool)
    | RemoveAction(productId: int)
    | ClearAction(confirmed: bool)
    | CheckoutAction

  /** The cart contents after one action (the store class below also says what
      is persisted). */
  function Step(catalog: seq<Product>, lines: seq<CartLine>, a: Action): (r: seq<CartLine>)
    ensures |r| <= |lines| + 1
    ensures a.RemoveAction? ==> !HasLine(r, a.productId)
    ensures a.CheckoutAction? ==> r == []
  {
    match a
    case AddAction(id, c) => AddStep(catalog, lines, id, c)
    case RemoveAction(id) => Removed(lines, id)
    case ClearAction(c) => if lines != [] && c then [] else lines
    case CheckoutAction => []
  }

  /** The cart after a sequence of actions; each action adds at most one line. */
  function Run(catalog: seq<Product>, lines: seq<CartLine>, actions: seq<Action>): (r: seq<CartLine>)
    ensures |r| <= |lines| + |actions|
    decreases |actions|
  {
    if actions == [] then lines else Run(catalog, Step(catalog, lines, actions[0]), actions[1..])
  }

  /** From a well-formed cart, every sequence of actions keeps ids distinct and
      quantities at least one. */
  lemma {:induction false} RunWellFormed(catalog: seq<Product>, lines: seq<CartLine>, actions: seq<Action>)
    requires WellFormed(lines)
    ensures WellFormed(Run(catalog, lines, actions))
    decreases |actions|
  {
    if actions != [] {
      var next := Step(catalog, lines, actions[0]);
      match actions[0] {
        case AddAction(id, c) =>
          var found := FindProduct(catalog, id);
          if c && found.Some? {
            AddedWellFormed(lines, found.value);
          }
        case RemoveAction(id) =>
          RemovedWellFormed(lines, id);
        case ClearAction(c) =>
        case CheckoutAction =>
      }
      RunWellFormed(catalog, next, actions[1..]);
    }
  }

  /** The worked totals example: 50 x 2 and 30 x 1 make three items for 130. */
  lemma TotalsExample(a: Product, b: Product)
    requires a.price == 50 && b.price == 30
    ensures ItemCount([CartLine(a, 2), CartLine(b, 1)]) == 3
    ensures TotalPrice([CartLine(a, 2), CartLine(b, 1)]) == 130
  {
    var s := [CartLine(a, 2), CartLine(b, 1)];
    assert s[..1] == [CartLine(a, 2)];
    assert s[..1][..0] == [];
    assert ItemCount(s[..1]) == 2 && TotalPrice(s[..1]) == 100;
  }

  /** The three additions of the worked session below, one action at a time. */
  lemma SessionAdds(a: Product, b: Product)
    requires a.id == 1 && a.price == 70 && b.id == 2 && b.price == 40
    ensures Step([a, b], [], AddAction(1, true)) == [CartLine(a, 1)]
    ensures Step([a, b], [CartLine(a, 1)], AddAction(1, true)) == [CartLine(a, 2)]
    ensures Step([a, b], [CartLine(a, 2)], AddAction(2, true)) == [CartLine(a, 2), CartLine(b, 1)]
  {
    var catalog := [a, b];
    var one, two := [CartLine(a, 1)], [CartLine(a, 2)];
    assert Step(catalog, [], AddAction(1, true)) == one by {
      AddStepAdds(catalog, [], 0);
      AddedNew([], a);
    }
    assert Step(catalog, one, AddAction(1, true)) == two by {
      AddStepAdds(catalog, one, 0);
      AddedExisting(one, a, 0);
    }
    AddStepAdds(catalog, two, 1);
    AddedNew(two, b);
  }

  /** The removal that ends the worked session below. */
  lemma SessionRemove(a: Product, b: Product)
    requires a.id == 1 && b.id == 2
    ensures Step([a, b], [CartLine(a, 2), CartLine(b, 1)], RemoveAction(2)) == [CartLine(a, 2)]
  {
    var lines := [CartLine(a, 2), CartLine(b, 1)];
    var keep := (l: CartLine) => l.item.id != 2;
    assert lines[1..][1..] == [];
    assert Filter(lines[1..], keep) == [] + Filter(lines[1..][1..], keep);
    assert Filter(lines, keep) == [lines[0]] + Filter(lines[1..], keep);
  }

  /** The worked session: add A, add A, add B, remove B leaves A twice, two
      items for 140. */
  lemma SessionExample(a: Product, b: Product)
    requires a.id == 1 && a.price == 70 && b.id == 2 && b.price == 40
    ensures Run([a, b], [], [AddAction(1, true), AddAction(1, true), AddAction(2, true), RemoveAction(2)]) == [CartLine(a, 2)]
    ensures ItemCount([CartLine(a, 2)]) == 2 && TotalPrice([CartLine(a, 2)]) == 140
  {
    SessionAdds(a, b);
    SessionRemove(a, b);
    var catalog, actions := [a, b], [AddAction(1, true), AddAction(1, true), AddAction(2, true), RemoveAction(2)];
    var one, two := [CartLine(a, 1)], [CartLine(a, 2)];
    var three := [CartLine(a, 2), CartLine(b, 1)];
    assert actions[3..][1..] == [] && actions[3..][0] == RemoveAction(2);
    assert Run(catalog, three, actions[3..]) == two;
    assert actions[2..][1..] == actions[3..] && actions[2..][0] == AddAction(2, true);
    assert Run(catalog, two, actions[2..]) == two;
    assert actions[1..][1..] == actions[2..] && actions[1..][0] == AddAction(1, true);
    assert Run(catalog, one, actions[1..]) == two;
    assert two[..0] == [] && two[0] == CartLine(a, 2);
    assert LineTotal(two[0]) == 2 * a.price == 140;
    assert ItemCount(two) == 2 && TotalPrice(two) == LineTotal(two[0]);
  }

  /** The cart of the page: `lines` is the module-level array, `stored` the value
      under the cart's local-storage key (`None` while the key is absent). */
  class CartStore {
    var lines: seq<CartLine>
    var stored: Option<seq<CartLine>>

    /** The snapshot in storage is the cart as it is now. */
    ghost predicate Persisted()
      reads this
    {
      stored == Some(lines)
    }

    /** What start-up would read back is the cart as it is now: either the
        snapshot holds the cart, or the key is absent and the cart is empty. */
    ghost predicate Reloadable()
      reads this
    {
      stored == Some(lines) || (stored.None? && lines == [])
    }

    /** Start-up rehydration: the saved snapshot, or an empty cart when the key
        is absent. Storage itself is not touched. */
    constructor (saved: Option<seq<CartLine>>)
      ensures lines == (if saved.Some? then saved.value else [])
      ensures stored == saved
      ensures saved.Some? ==> Persisted()
      ensures Reloadable()
    {
      lines := if saved.Some? then saved.value else [];
      stored := saved;
    }

    /** Writes the whole cart under the storage key. */
    method Save()
      modifies this`stored
      ensures Persisted()
    {
      stored := Some(lines);
    }

    /** Adds the catalog product `productId` if the user confirmed the prompt. */
    method Add(catalog: seq<Product>, productId: int, confirmed: bool)
      modifies this
      ensures lines == AddStep(catalog, old(lines), productId, confirmed)
      ensures confirmed && FindProduct(catalog, productId).Some? ==> Persisted()
      ensures !confirmed || FindProduct(catalog, productId).None? ==>
                lines == old(lines) && stored == old(stored)
      ensures old(WellFormed(lines)) ==> WellFormed(lines)
      ensures old(Reloadable()) ==> Reloadable()
    {
      var product := FindProduct(catalog, productId);
      if product.None? {
        return;
      }
      if confirmed {
        ghost var before := lines;
        var existing := LineIndex(lines, productId);
        if existing.Some? {
          var k := existing.value;
          lines := lines[k := lines[k].(quantity := lines[k].quantity + 1)];
        } else {
          lines := lines + [CartLine(product.value, 1)];
        }
        Save();
        if WellFormed(before) {
          AddedWellFormed(before, product.value);
        }
      }
    }

    /** Drops every line whose id is `productId` and saves. */
    method Remove(productId: int)
      modifies this
      ensures lines == Removed(old(lines), productId)
      ensures Persisted()
      ensures old(WellFormed(lines)) ==> WellFormed(lines)
      ensures Reloadable()
    {
      ghost var before := lines;
      lines := Filter(lines, (l: CartLine) => l.item.id != productId);
      Save();
      if WellFormed(before) {
        RemovedWellFormed(before, productId);
      }
    }

    /** Empties a non-empty cart when the user confirms; an empty cart only gets
        the informational message and nothing is saved. */
    method Clear(confirmed: bool)
      modifies this
      ensures old(lines) == [] || !confirmed ==> lines == old(lines) && stored == old(stored)
      ensures old(lines) != [] && confirmed ==> lines == [] && Persisted()
      ensures old(Reloadable()) ==> Reloadable()
    {
      if lines == [] {
        return;
      }
      if confirmed {
        lines := [];
        Save();
      }
    }

    /** Reports the summary of a non-empty cart and empties it, whatever the
        answer to the summary dialog; an empty cart is left alone. */
    method Checkout() returns (summary: Option<Summary>)
      modifies this
      ensures old(lines) == [] ==> summary.None? && lines == old(lines) && stored == old(stored)
      ensures old(lines) != [] ==>
                summary == Some(Summary(ItemCount(old(lines)), TotalPrice(old(lines))))
                && lines == [] && Persisted()
      ensures old(Reloadable()) ==> Reloadable()
    {
      if lines == [] {
        return None;
      }
      var total := TotalPrice(lines);
      var itemsCount := ItemCount(lines);
      summary := Some(Summary(itemsCount, total));
      lines := [];
      Save();
    }

    /** The figures the cart panel shows: the count by `reduce`, the total by
        the `forEach` loop that also renders the lines. */
    method Totals() returns (itemsCount: int, total: int)
      ensures itemsCount == ItemCount(lines) && total == TotalPrice(lines)
    {
      itemsCount := ItemCount(lines);
      total := 0;
      var i := 0;
      while i < |lines|
        invariant 0 <= i <= |lines|
        invariant total == TotalPrice(lines[..i])
      {
        assert lines[..i + 1][..i] == lines[..i];
        total := total + lines[i].item.price * lines[i].quantity;
        i := i + 1;
      }
      assert lines[..i] == lines;
    }
  }

  /** A page reload: start-up reads back the snapshot the store wrote, or an
      empty cart when nothing was ever saved, so the new store holds the same
      lines in the same order. */
  method Reload(store: CartStore) returns (reloaded: CartStore)
    requires store.Reloadable()
    ensures reloaded.lines == store.lines && reloaded.Reloadable()
    ensures store.Persisted() ==> reloaded.Persisted()
  {
    reloaded := new CartStore(store.stored);
  }
}
