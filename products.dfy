/** The product listing's in-memory `productList`: loaded wholesale, shrunk by deletes. */
module Products {
  import opened Http

  /** One product as the server sends it; `id` is its `_id`. */
  datatype Product = Product(id: string, name: string, price: string, description: string, file: string)

  /** `items.filter(product => product._id !== id)`. */
  function RemoveById(items: seq<Product>, id: string): (r: seq<Product>)
    ensures forall p :: p in r <==> p in items && p.id != id
    ensures |r| <= |items|
    decreases |items|
  {
    if |items| == 0 then []
    else (if items[0].id != id then [items[0]] else []) + RemoveById(items[1..], id)
  }

  /** How many items carry `id`. */
  function CountId(items: seq<Product>, id: string): nat
    decreases |items|
  {
    if |items| == 0 then 0 else (if items[0].id == id then 1 else 0) + CountId(items[1..], id)
  }

  /** Filtering a concatenation filters each part and keeps them in order: the survivors keep their original order. */
  lemma {:induction false} RemoveDistributes(a: seq<Product>, b: seq<Product>, id: string)
    ensures RemoveById(a + b, id) == RemoveById(a, id) + RemoveById(b, id)
    decreases |a|
  {
    if |a| == 0 {
      assert a + b == b;
    } else {
      assert (a + b)[0] == a[0];
      assert (a + b)[1..] == a[1..] + b;
      RemoveDistributes(a[1..], b, id);
    }
  }

  /** Removing an id that no item carries changes nothing. */
  lemma {:induction false} RemoveAbsent(items: seq<Product>, id: string)
    requires forall p :: p in items ==> p.id != id
    ensures RemoveById(items, id) == items
    decreases |items|
  {
    if |items| > 0 {
      assert items[0] in items;
      assert forall p :: p in items[1..] ==> p in items;
      RemoveAbsent(items[1..], id);
      assert items == [items[0]] + items[1..];
    }
  }

  /** Deleting the same id twice is deleting it once. */
  lemma RemoveIdempotent(items: seq<Product>, id: string)
    ensures RemoveById(RemoveById(items, id), id) == RemoveById(items, id)
  {
    RemoveAbsent(RemoveById(items, id), id);
  }

  /** The list shrinks by exactly the number of items carrying the id. */
  lemma {:induction false} RemoveCount(items: seq<Product>, id: string)
    ensures |RemoveById(items, id)| == |items| - CountId(items, id)
    decreases |items|
  {
    if |items| > 0 {
      RemoveCount(items[1..], id);
    }
  }

  /** Two deletes give the same list in either order. */
  lemma {:induction false} RemoveCommutes(items: seq<Product>, a: string, b: string)
    ensures RemoveById(RemoveById(items, a), b) == RemoveById(RemoveById(items, b), a)
    decreases |items|
  {
    if |items| > 0 {
      var head := [items[0]];
      RemoveDistributes(head, items[1..], a);
      RemoveDistributes(head, items[1..], b);
      RemoveDistributes(RemoveById(head, a), RemoveById(items[1..], a), b);
      RemoveDistributes(RemoveById(head, b), RemoveById(items[1..], b), a);
      assert items == head + items[1..];
      RemoveCommutes(items[1..], a, b);
    }
  }

  /** The listing's state. */
  class ProductList {
    var productList: seq<Product>

    /** `useState([])`. */
    constructor ()
      ensures productList == []
    {
      productList := [];
    }

    /** `getAllProducts`: a body with `statusCode` 200 replaces the list with its `data`; anything else keeps it. */
    method Load(reply: Response<seq<Product>>)
      modifies this
      ensures reply.Is(200) ==> productList == reply.data
      ensures !reply.Is(200) ==> productList == old(productList)
    {
      if reply.Is(200) {
        productList := reply.data;
      }
    }

    /**
     * `handleDelete` as written: the filter runs over `snapshot`, the list
     * captured by the render whose button was clicked, not over the list as it
     * is when the answer arrives.
     */
    method HandleDeleteFromSnapshot(snapshot: seq<Product>, id: string, reply: Response<()>)
      modifies this
      ensures reply.Is(200) ==> productList == RemoveById(snapshot, id)
      ensures !reply.Is(200) ==> productList == old(productList)
    {
      if reply.Is(200) {
        productList := RemoveById(snapshot, id);
      }
    }

    /** `handleDelete` filtering the current list: a 200 removes exactly the items with that `_id`; anything else keeps the list. */
    method HandleDelete(id: string, reply: Response<()>)
      modifies this
      ensures reply.Is(200) ==> productList == RemoveById(old(productList), id)
      ensures !reply.Is(200) ==> productList == old(productList)
    {
      if reply.Is(200) {
        productList := RemoveById(productList, id);
      }
    }
  }

  /**
   * Two deletes clicked on the same render, answered one after the other, as
   * written: both filter the list that render captured, so the second answer
   * overwrites the first.
   */
  method OverlappingDeletesFromSnapshot(view: ProductList, first: string, second: string)
    modifies view
    ensures view.productList == RemoveById(old(view.productList), second)
  {
    var snapshot := view.productList;
    view.HandleDeleteFromSnapshot(snapshot, first, Received(200, ()));
    view.HandleDeleteFromSnapshot(snapshot, second, Received(200, ()));
  }

  /** The same two deletes when each filters the list current at its answer. */
  method OverlappingDeletes(view: ProductList, first: string, second: string)
    modifies view
    ensures view.productList == RemoveById(RemoveById(old(view.productList), first), second)
  {
    view.HandleDelete(first, Received(200, ()));
    view.HandleDelete(second, Received(200, ()));
  }

  /** As written, the item deleted first is back in the list once the second answer arrives; filtering the current list it stays gone. */
  lemma SnapshotResurrectsFirstDelete(one: Product, two: Product)
    requires one.id != two.id
    ensures one in RemoveById([one, two], two.id)
    ensures one !in RemoveById(RemoveById([one, two], one.id), two.id)
  {
    assert one in [one, two];
  }

  /** Filtering the current list, both deleted ids are gone and every other item stays, whatever the answer order. */
  lemma OverlappingDeletesRemoveBoth(items: seq<Product>, first: string, second: string)
    ensures forall p :: p in RemoveById(RemoveById(items, first), second) <==>
      p in items && p.id != first && p.id != second
    ensures RemoveById(RemoveById(items, first), second) == RemoveById(RemoveById(items, second), first)
  {
    RemoveCommutes(items, first, second);
  }
}
