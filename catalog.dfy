/**
 * The service and add-on catalogs as the components read them: `find` by name,
 * `filter` by a selection of names, and the `reduce` that sums prices.
 */
module Catalog {
  import opened Wrappers
  import opened JsArrays

  /** A catalog entry: a service or an add-on with its price in whole dollars. */
  datatype Item = Item(name: string, price: int)

  /** `items.map((item) => item.name)`. */
  function Names(items: seq<Item>): (r: seq<string>)
    ensures |r| == |items|
    ensures forall k :: 0 <= k < |items| ==> r[k] == items[k].name
  {
    if items == [] then [] else [items[0].name] + Names(items[1..])
  }

  /** `catalog.some((item) => item.name === name)`. */
  predicate HasName(catalog: seq<Item>, name: string) {
    exists k :: 0 <= k < |catalog| && catalog[k].name == name
  }

  /** `catalog.find((item) => item.name === name)`: the first entry with that name. */
  function Find(catalog: seq<Item>, name: string): (r: Option<Item>)
    ensures r.None? <==> !HasName(catalog, name)
    ensures r.Some? ==> r.value in catalog && r.value.name == name
  {
    if catalog == [] then None
    else if catalog[0].name == name then Some(catalog[0])
    else
      assert forall k :: 0 <= k < |catalog[1..]| ==> catalog[1..][k] == catalog[k + 1];
      Find(catalog[1..], name)
  }

  lemma InCatalogHasName(catalog: seq<Item>, it: Item)
    requires it in catalog
    ensures HasName(catalog, it.name)
  {
    var k :| 0 <= k < |catalog| && catalog[k] == it;
  }

  /** `find` returns the earliest entry with the name. */
  lemma {:induction false} FindIsFirst(catalog: seq<Item>, name: string, k: nat)
    requires k < |catalog| && catalog[k].name == name
    ensures Find(catalog, name).Some?
    ensures (forall j :: 0 <= j < k ==> catalog[j].name != name) ==> Find(catalog, name) == Some(catalog[k])
  {
    if k > 0 && catalog[0].name != name {
      FindIsFirst(catalog[1..], name, k - 1);
    }
  }

  /**
   * `catalog.filter((item) => selected.includes(item.name))`: every catalog entry whose
   * name is selected, as often as the catalog holds it, and nothing else.
   */
  function SelectedDetails(catalog: seq<Item>, selected: seq<string>): (r: seq<Item>)
    ensures |r| <= |catalog|
    ensures forall it :: multiset(r)[it] == if it.name in selected then multiset(catalog)[it] else 0
    ensures forall it :: it in r <==> it in catalog && it.name in selected
  {
    if catalog == [] then []
    else
      var rest := SelectedDetails(catalog[1..], selected);
      assert multiset(catalog) == multiset([catalog[0]]) + multiset(catalog[1..]) by {
        assert catalog == [catalog[0]] + catalog[1..];
      }
      if catalog[0].name in selected then [catalog[0]] + rest else rest
  }

  /** The filter keeps catalog order: filtering a concatenation concatenates the filtered parts. */
  lemma {:induction false} SelectedDetailsAppend(a: seq<Item>, b: seq<Item>, selected: seq<string>)
    ensures SelectedDetails(a + b, selected) == SelectedDetails(a, selected) + SelectedDetails(b, selected)
  {
    if a == [] {
      assert a + b == b;
    } else {
      assert (a + b)[0] == a[0];
      assert (a + b)[1..] == a[1..] + b;
      SelectedDetailsAppend(a[1..], b, selected);
    }
  }

  /** A single entry is kept exactly when its name is selected. */
  lemma SelectedDetailsOfOne(it: Item, selected: seq<string>)
    ensures SelectedDetails([it], selected) == if it.name in selected then [it] else []
  {
    assert [it][1..] == [];
  }

  /** `items.reduce((total, item) => total + item.price, 0)`. */
  function SumPrices(items: seq<Item>): int {
    if items == [] then 0 else items[0].price + SumPrices(items[1..])
  }

  /**
   * Which catalog entries are picked depends only on which catalog names the
   * selection contains: not on order, repetitions or names outside the catalog.
   */
  lemma {:induction false} SelectionIsASet(catalog: seq<Item>, s1: seq<string>, s2: seq<string>)
    requires forall k :: 0 <= k < |catalog| ==> (catalog[k].name in s1 <==> catalog[k].name in s2)
    ensures SelectedDetails(catalog, s1) == SelectedDetails(catalog, s2)
  {
    if catalog != [] {
      assert forall k :: 0 <= k < |catalog[1..]| ==> catalog[1..][k] == catalog[k + 1];
      SelectionIsASet(catalog[1..], s1, s2);
    }
  }

  /** A name that no catalog entry has adds nothing to the selection. */
  lemma UnknownNameIgnored(catalog: seq<Item>, selected: seq<string>, unknown: string)
    requires !HasName(catalog, unknown)
    ensures SelectedDetails(catalog, selected + [unknown]) == SelectedDetails(catalog, selected)
  {
    forall k | 0 <= k < |catalog| ensures catalog[k].name in selected + [unknown] <==> catalog[k].name in selected {
      assert catalog[k].name != unknown;
    }
    SelectionIsASet(catalog, selected + [unknown], selected);
  }

  /** Naming an entry twice counts it once. */
  lemma RepeatedNameCountedOnce(catalog: seq<Item>, selected: seq<string>)
    ensures SelectedDetails(catalog, selected) == SelectedDetails(catalog, Dedup(selected))
  {
    SelectionIsASet(catalog, selected, Dedup(selected));
  }

  /** The entries with name `n`, in catalog order. */
  function Named(catalog: seq<Item>, n: string): seq<Item> {
    SelectedDetails(catalog, [n])
  }

  /** Adding a name not yet selected raises the sum by the price of the catalog entries with that name. */
  lemma {:induction false} SelectingAddsPrice(catalog: seq<Item>, selected: seq<string>, n: string)
    requires n !in selected
    ensures SumPrices(SelectedDetails(catalog, selected + [n])) ==
      SumPrices(SelectedDetails(catalog, selected)) + SumPrices(Named(catalog, n))
  {
    if catalog != [] {
      SelectingAddsPrice(catalog[1..], selected, n);
      assert catalog[0].name in selected + [n] <==> catalog[0].name in selected || catalog[0].name == n;
    }
  }

  /** In a catalog without repeated names, the entries named `n` are just the one `find` returns. */
  lemma {:induction false} NamedInDistinctCatalog(catalog: seq<Item>, n: string)
    requires NoDuplicates(Names(catalog))
    ensures Named(catalog, n) == match Find(catalog, n) case Some(it) => [it] case None => []
  {
    if catalog != [] {
      var names := Names(catalog);
      assert Names(catalog[1..]) == names[1..];
      DistinctTail(names);
      NamedInDistinctCatalog(catalog[1..], n);
      if catalog[0].name == n {
        forall k | 0 <= k < |catalog[1..]| ensures catalog[1..][k].name != n {
          assert names[1..][k] == catalog[1..][k].name;
        }
      }
    }
  }

  /** The names picked from a catalog without repeated names are themselves distinct. */
  lemma {:induction false} SelectedNamesDistinct(catalog: seq<Item>, selected: seq<string>)
    requires NoDuplicates(Names(catalog))
    ensures NoDuplicates(Names(SelectedDetails(catalog, selected)))
  {
    if catalog != [] {
      var names, tail := Names(catalog), catalog[1..];
      assert Names(tail) == names[1..];
      DistinctTail(names);
      SelectedNamesDistinct(tail, selected);
      var rest := SelectedDetails(tail, selected);
      if catalog[0].name in selected {
        assert Names([catalog[0]] + rest) == [catalog[0].name] + Names(rest);
        forall j | 0 <= j < |rest| ensures Names(rest)[j] != catalog[0].name {
          assert rest[j] in tail;
          var k :| 0 <= k < |tail| && tail[k] == rest[j];
          assert names[1..][k] == rest[j].name;
        }
        PrependFreshKeepsDistinct(catalog[0].name, Names(rest));
      }
    }
  }

  /** When every catalog name is selected, nothing is filtered out. */
  lemma {:induction false} SelectAllNames(catalog: seq<Item>, selected: seq<string>)
    requires forall k :: 0 <= k < |catalog| ==> catalog[k].name in selected
    ensures SelectedDetails(catalog, selected) == catalog
  {
    if catalog != [] {
      SelectAllNames(catalog[1..], selected);
    }
  }
}
