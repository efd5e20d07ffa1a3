/**
 * The favorites list: product snapshots in insertion order, at most one per
 * id. The reducers are reconstructed from the behaviour their tests fix:
 * adding appends unless the id is already present, removing drops the entry
 * with that id and keeps the rest in order, clearing empties the list.
 */
module FavoritesSlice {
  import opened Catalog
  import opened Seqs

  datatype FavoritesState = FavoritesState(items: seq<Product>)

  ghost predicate UniqueIds(items: seq<Product>)
  {
    forall i, j :: 0 <= i < j < |items| ==> items[i].id != items[j].id
  }

  /** `addToFavorites(product)`: append, unless an entry with that id exists. */
  function Added(items: seq<Product>, product: Product): (r: seq<Product>)
    ensures r == items || r == items + [product]
    ensures HasId(items, product.id) ==> r == items
    ensures HasId(r, product.id)
  {
    if HasId(items, product.id) then items
    else
      assert (items + [product])[|items|] == product;
      items + [product]
  }

  /** `removeFromFavorites(id)`: keep the entries whose id differs. */
  function Removed(items: seq<Product>, id: int): (r: seq<Product>)
    ensures |r| <= |items|
    ensures forall i :: 0 <= i < |r| ==> r[i].id != id
  {
    Filter(items, (x: Product) => x.id != id)
  }

  /** After an add the id is a favorite, and every other id is as before. */
  lemma AddedMembership(items: seq<Product>, product: Product, id: int)
    ensures HasId(Added(items, product), id) <==> HasId(items, id) || id == product.id
  {
    var r := Added(items, product);
    if !HasId(items, product.id) {
      assert r[|items|] == product;
      assert forall i :: 0 <= i < |items| ==> r[i] == items[i];
    }
  }

  lemma AddedKeepsUnique(items: seq<Product>, product: Product)
    requires UniqueIds(items)
    ensures UniqueIds(Added(items, product))
  {
  }

  /** Adding the same product twice has the effect of adding it once. */
  lemma AddedIdempotent(items: seq<Product>, product: Product)
    ensures Added(Added(items, product), product) == Added(items, product)
  {
    AddedMembership(items, product, product.id);
  }

  lemma {:induction false} RemovedKeepsUnique(items: seq<Product>, id: int)
    requires UniqueIds(items)
    ensures UniqueIds(Removed(items, id))
  {
    if items != [] {
      var rest := items[1..];
      RemovedKeepsUnique(rest, id);
      var r := Removed(rest, id);
      FilterCount(rest, (x: Product) => x.id != id);
      forall k | 0 <= k < |r| ensures r[k].id != items[0].id {
        assert r[k] in multiset(r);
        assert r[k] in multiset(rest);
        var m :| 0 <= m < |rest| && rest[m] == r[k];
        assert items[m + 1] == r[k];
      }
      if items[0].id != id {
        assert Removed(items, id) == [items[0]] + r;
      } else {
        assert Removed(items, id) == r;
      }
    }
  }

  /** After a remove the id is no favorite, and every other id is as before. */
  lemma RemovedMembership(items: seq<Product>, id: int, other: int)
    ensures HasId(Removed(items, id), other) <==> HasId(items, other) && other != id
  {
    var r := Removed(items, id);
    FilterCount(items, (x: Product) => x.id != id);
    if HasId(r, other) {
      var k :| 0 <= k < |r| && r[k].id == other;
      assert r[k] in multiset(r);
      assert r[k] in multiset(items);
    }
    if HasId(items, other) && other != id {
      var k :| 0 <= k < |items| && items[k].id == other;
      assert items[k] in multiset(items);
      assert items[k] in multiset(r);
    }
  }

  /** Removing an id that is not a favorite changes nothing. */
  lemma RemovedAbsent(items: seq<Product>, id: int)
    requires !HasId(items, id)
    ensures Removed(items, id) == items
  {
    FilterKeepsAll(items, (x: Product) => x.id != id);
  }

  /** Removing the same id twice has the effect of removing it once. */
  lemma RemovedIdempotent(items: seq<Product>, id: int)
    ensures Removed(Removed(items, id), id) == Removed(items, id)
  {
    RemovedMembership(items, id, id);
    RemovedAbsent(Removed(items, id), id);
  }

  /** The survivors of a remove keep their relative order. */
  lemma RemovedInOrder(items: seq<Product>, id: int)
    ensures IsSubsequence(Removed(items, id), items)
  {
    FilterIsSubsequence(items, (x: Product) => x.id != id);
  }

  /** The three favorites actions. */
  datatype Action = Add(product: Product) | Remove(id: int) | Clear

  /** The favorites reducer, one case per action. */
  function Apply(items: seq<Product>, action: Action): (r: seq<Product>)
    ensures action.Add? ==> HasId(r, action.product.id)
    ensures action.Remove? ==> !HasId(r, action.id)
    ensures action.Clear? ==> r == []
  {
    match action
    case Add(product) => Added(items, product)
    case Remove(id) => Removed(items, id)
    case Clear => []
  }

  function ApplyAll(items: seq<Product>, actions: seq<Action>): seq<Product>
  {
    if actions == [] then items
    else Apply(ApplyAll(items, actions[..|actions| - 1]), actions[|actions| - 1])
  }

  /**
   * Whether `id` should be a favorite after `actions`, read off the actions
   * alone: the latest action that mentions it decides, and a Clear forgets
   * everything before it.
   */
  function FavoriteAfter(initial: seq<Product>, actions: seq<Action>, id: int): bool
  {
    if actions == [] then HasId(initial, id)
    else
      var earlier := FavoriteAfter(initial, actions[..|actions| - 1], id);
      match actions[|actions| - 1]
      case Add(product) => product.id == id || earlier
      case Remove(removed) => removed != id && earlier
      case Clear => false
  }

  /** Membership after any run of actions is exactly what the actions say. */
  lemma {:induction false} MembershipAfterActions(items: seq<Product>, actions: seq<Action>, id: int)
    ensures HasId(ApplyAll(items, actions), id) == FavoriteAfter(items, actions, id)
  {
    if actions != [] {
      var before := ApplyAll(items, actions[..|actions| - 1]);
      MembershipAfterActions(items, actions[..|actions| - 1], id);
      match actions[|actions| - 1]
      case Add(product) => AddedMembership(before, product, id);
      case Remove(removed) => RemovedMembership(before, removed, id);
      case Clear =>
    }
  }

  /** No run of actions creates two entries with the same id. */
  lemma {:induction false} ActionsKeepUnique(items: seq<Product>, actions: seq<Action>)
    requires UniqueIds(items)
    ensures UniqueIds(ApplyAll(items, actions))
  {
    if actions != [] {
      var before := ApplyAll(items, actions[..|actions| - 1]);
      ActionsKeepUnique(items, actions[..|actions| - 1]);
      match actions[|actions| - 1]
      case Add(product) => AddedKeepsUnique(before, product);
      case Remove(removed) => RemovedKeepsUnique(before, removed);
      case Clear =>
    }
  }

  class Favorites {
    var items: seq<Product>

    function State(): FavoritesState
      reads this
    {
      FavoritesState(items)
    }

    ghost predicate Valid()
      reads this
    {
      UniqueIds(items)
    }

    constructor ()
      ensures items == [] && Valid()
    {
      items := [];
    }

    method AddToFavorites(product: Product)
      requires Valid()
      modifies this
      ensures items == Added(old(items), product) && Valid()
    {
      if !HasId(items, product.id) {
        items := items + [product];
      }
      AddedKeepsUnique(old(items), product);
    }

    method RemoveFromFavorites(id: int)
      requires Valid()
      modifies this
      ensures items == Removed(old(items), id) && Valid()
    {
      RemovedKeepsUnique(items, id);
      items := Removed(items, id);
    }

    method ClearFavorites()
      modifies this
      ensures items == [] && Valid()
    {
      items := [];
    }
  }
}
