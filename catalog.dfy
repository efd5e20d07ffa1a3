/**
 * The product record delivered by the upstream catalog API, and the two
 * look-ups by identifier that the store's selectors and the favorites list
 * rely on (`Array.prototype.some` and `Array.prototype.find` on `id`).
 */
module Catalog {
  import opened Wrappers

  /** Average score and number of votes, as the upstream API reports them. */
  datatype Rating = Rating(rate: real, count: nat)

  /** A catalog entry. Prices are whole cents; only their order matters here. */
  datatype Product = Product(
    id: int,
    title: string,
    price: int,
    category: string,
    image: string,
    description: string,
    rating: Option<Rating>)

  /** `items.some(item => item.id === id)`. */
  function HasId(items: seq<Product>, id: int): (b: bool)
    ensures b <==> exists i :: 0 <= i < |items| && items[i].id == id
  {
    if items == [] then false
    else if items[0].id == id then true
    else
      var rest := HasId(items[1..], id);
      assert forall i :: 0 < i < |items| ==> items[i] == items[1..][i - 1];
      rest
  }

  /** `items.find(item => item.id === id)`: the first entry with that id, if any. */
  function FindById(items: seq<Product>, id: int): (r: Option<Product>)
    ensures r.None? <==> !HasId(items, id)
    ensures r.Some? ==> r.value.id == id
    ensures r.Some? ==>
      exists i :: 0 <= i < |items| && items[i] == r.value && (forall j :: 0 <= j < i ==> items[j].id != id)
  {
    if items == [] then None
    else if items[0].id == id then Some(items[0])
    else
      var r := FindById(items[1..], id);
      assert r.Some? ==>
        exists i :: 0 < i < |items| && items[i] == r.value && (forall j :: 0 <= j < i ==> items[j].id != id) by {
        if r.Some? {
          var k :| 0 <= k < |items[1..]| && items[1..][k] == r.value &&
                   (forall j :: 0 <= j < k ==> items[1..][j].id != id);
          assert items[k + 1] == r.value;
          forall j | 0 <= j < k + 1 ensures items[j].id != id {
            if j > 0 { assert items[j] == items[1..][j - 1]; }
          }
        }
      }
      r
  }
}
