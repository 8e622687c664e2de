/**
 * The pricing calculator: a chosen service (falling back to the first catalog
 * entry), a toggled list of add-on names, the running total, and the link that
 * carries the choice to the order page.
 */
module PricingCalculator {
  import opened Wrappers
  import opened JsStrings
  import opened JsArrays
  import opened Catalog
  import opened UrlQuery

  /** `toggleAddon`'s updater: drop every occurrence of a selected name, or append an unselected one. */
  function ToggleAddon(current: seq<string>, name: string): seq<string> {
    if name in current then RemoveAll(current, name) else current + [name]
  }

  /** Toggling an unselected name appends it; toggling a selected one removes all its occurrences. */
  lemma ToggleAddonEffect(current: seq<string>, name: string)
    ensures name !in current ==> ToggleAddon(current, name) == current + [name]
    ensures name in current ==> name !in ToggleAddon(current, name)
    ensures name in current ==> forall x :: x != name ==> (x in ToggleAddon(current, name) <==> x in current)
  {
  }

  /** Toggling an unselected name twice gives the original list back. */
  lemma ToggleTwiceRestores(current: seq<string>, name: string)
    requires name !in current
    ensures ToggleAddon(ToggleAddon(current, name), name) == current
  {
    RemoveAllAfterAppend(current, name);
  }

  /** Every toggle keeps the selection free of repeated names. */
  lemma ToggleKeepsDistinct(current: seq<string>, name: string)
    requires NoDuplicates(current)
    ensures NoDuplicates(ToggleAddon(current, name))
  {
    if name in current {
      RemoveAllKeepsDistinct(current, name);
    } else {
      AppendFreshKeepsDistinct(current, name);
    }
  }

  /** `services.find((service) => service.name === name) ?? services[0]`. */
  function SelectedService(services: seq<Item>, name: string): (r: Option<Item>)
    ensures r.None? <==> services == []
    ensures HasName(services, name) ==> r == Find(services, name)
    ensures !HasName(services, name) && services != [] ==> r == Some(services[0])
    ensures r.Some? ==> r.value in services
  {
    match Find(services, name)
    case Some(s) => Some(s)
    case None => if services == [] then None else Some(services[0])
  }

  /** `subtotal + addonsTotal`, where `subtotal` is `selectedService?.price ?? 0`. */
  function CalculatorTotal(services: seq<Item>, addons: seq<Item>, serviceName: string, selected: seq<string>): int {
    var subtotal := match SelectedService(services, serviceName) case Some(s) => s.price case None => 0;
    subtotal + SumPrices(SelectedDetails(addons, selected))
  }

  /**
   * The total is the chosen service's price (the first service's when the name is
   * unknown, 0 without services) plus the prices of the catalog add-ons selected.
   */
  lemma CalculatorTotalSpec(services: seq<Item>, addons: seq<Item>, serviceName: string, selected: seq<string>)
    ensures HasName(services, serviceName) ==>
      CalculatorTotal(services, addons, serviceName, selected) == Find(services, serviceName).value.price + SumPrices(SelectedDetails(addons, selected))
    ensures !HasName(services, serviceName) && services != [] ==>
      CalculatorTotal(services, addons, serviceName, selected) == services[0].price + SumPrices(SelectedDetails(addons, selected))
    ensures services == [] ==> CalculatorTotal(services, addons, serviceName, selected) == SumPrices(SelectedDetails(addons, selected))
  {
  }

  /** Toggling a new add-on on raises the total by its price, in a catalog without repeated names. */
  lemma ToggleOnAddsPrice(services: seq<Item>, addons: seq<Item>, serviceName: string, selected: seq<string>, name: string)
    requires NoDuplicates(Names(addons)) && name !in selected
    ensures CalculatorTotal(services, addons, serviceName, ToggleAddon(selected, name)) ==
      CalculatorTotal(services, addons, serviceName, selected) + (match Find(addons, name) case Some(a) => a.price case None => 0)
  {
    SelectingAddsPrice(addons, selected, name);
    NamedInDistinctCatalog(addons, name);
  }

  /** The parameters `buildOrderLink` sets: `service` when there is a name, then `addons` when there are any. */
  function OrderParams(serviceName: Option<string>, addonNames: seq<string>): Params {
    var withService := if serviceName.Some? && serviceName.value != "" then SetParam([], "service", serviceName.value) else [];
    if |addonNames| > 0 then SetParam(withService, "addons", Join(addonNames, ',')) else withService
  }

  /** `service` comes before `addons`, and add-on names are joined by commas. */
  lemma OrderParamsLayout(serviceName: Option<string>, addonNames: seq<string>)
    ensures OrderParams(serviceName, addonNames) ==
      (if serviceName.Some? && serviceName.value != "" then [("service", serviceName.value)] else []) +
      (if |addonNames| > 0 then [("addons", Join(addonNames, ','))] else [])
  {
  }

  /** The link built from the parameters: `/order` alone when there are none. */
  function OrderLink(serviceName: Option<string>, addonNames: seq<string>, encode: string -> string): string {
    var query := Serialize(OrderParams(serviceName, addonNames), encode);
    if query == "" then "/order" else "/order?" + query
  }

  /** `buildOrderLink(serviceName, selectedAddonNames)`, with the serializer `encode`. */
  method BuildOrderLink(serviceName: Option<string>, selectedAddonNames: seq<string>, encode: string -> string)
    returns (link: string)
    ensures link == OrderLink(serviceName, selectedAddonNames, encode)
    ensures link == "/order" <==> (serviceName.None? || serviceName.value == "") && selectedAddonNames == []
    ensures link != "/order" ==> link == "/order?" + Serialize(OrderParams(serviceName, selectedAddonNames), encode)
  {
    var params: Params := [];
    if serviceName.Some? && serviceName.value != "" {
      params := SetParam(params, "service", serviceName.value);
    }
    if |selectedAddonNames| > 0 {
      params := SetParam(params, "addons", Join(selectedAddonNames, ','));
    }
    OrderParamsLayout(serviceName, selectedAddonNames);
    OrderLinkIsBare(serviceName, selectedAddonNames, encode);
    var query := Serialize(params, encode);
    link := if query == "" then "/order" else "/order?" + query;
  }

  /** The link is `/order` alone exactly when there is neither a service name nor an add-on. */
  lemma OrderLinkIsBare(serviceName: Option<string>, addonNames: seq<string>, encode: string -> string)
    ensures OrderLink(serviceName, addonNames, encode) == "/order" <==> (serviceName.None? || serviceName.value == "") && addonNames == []
  {
    var params := OrderParams(serviceName, addonNames);
    OrderParamsLayout(serviceName, addonNames);
    if params != [] {
      assert '=' in EncodePair(params[0], encode);
      LongJoinIsNonEmpty(EncodePairs(params, encode));
    }
  }

  /** A join whose first part is non-empty is non-empty. */
  lemma LongJoinIsNonEmpty(parts: seq<string>)
    requires |parts| > 0 && parts[0] != ""
    ensures Join(parts, '&') != ""
  {
  }

  /** The order link of the calculator's current choice: the selected service and the selected catalog add-ons. */
  function CalculatorOrderLink(services: seq<Item>, addons: seq<Item>, serviceName: string, selected: seq<string>, encode: string -> string): (r: string)
    ensures r == "/order" <==>
      (services == [] || SelectedService(services, serviceName).value.name == "") && forall it :: it in addons ==> it.name !in selected
    ensures r != "/order" ==> |r| > 7 && r[..7] == "/order?"
  {
    var service := SelectedService(services, serviceName);
    var picked := SelectedDetails(addons, selected);
    assert picked == [] <==> forall it :: it in addons ==> it.name !in selected by {
      if picked != [] {
        assert picked[0] in picked;
      }
    }
    OrderLinkIsBare(if service.Some? then Some(service.value.name) else None, Names(picked), encode);
    OrderLink(if service.Some? then Some(service.value.name) else None, Names(SelectedDetails(addons, selected)), encode)
  }

  /** Add-on names in the link follow the catalog, so the order in which boxes were clicked does not matter. */
  lemma OrderLinkIgnoresClickOrder(services: seq<Item>, addons: seq<Item>, serviceName: string, s1: seq<string>, s2: seq<string>, encode: string -> string)
    requires forall x :: x in s1 <==> x in s2
    ensures CalculatorOrderLink(services, addons, serviceName, s1, encode) == CalculatorOrderLink(services, addons, serviceName, s2, encode)
  {
    SelectionIsASet(addons, s1, s2);
  }
}
