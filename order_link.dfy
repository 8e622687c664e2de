/**
 * The pricing calculator's "order" link opens the order form, whose mount effect
 * reads the same query back: the form starts with the calculator's service and
 * add-ons, and shows the same total.
 */
module OrderLink {
  import opened Wrappers
  import opened JsStrings
  import opened JsArrays
  import opened Catalog
  import opened UrlQuery
  import opened ReactHookForm
  import opened PricingCalculator
  import opened OrderForm

  /**
   * `window.location.search` of the page an href opens: from the first `?` on, or `""`.
   * A `#fragment` is not split off; the calculator's links never carry one, and for an
   * href that did, this text would wrongly keep it.
   */
  function LocationSearch(href: string): string {
    match IndexOf(href, '?')
    case Some(i) => href[i..]
    case None => ""
  }

  /** What the catalogs must satisfy for the link to carry a choice intact. */
  predicate LinkableCatalogs(services: seq<Item>, addons: seq<Item>, decodeComponent: string -> string) {
    && services != []
    && (forall it :: it in services ==> it.name != "")
    && NoDuplicates(Names(addons))
    && (forall it :: it in addons ==> SurvivesUrl(it.name, decodeComponent))
  }

  /** The search part of the calculator's link parses back to the parameters it was built from. */
  lemma LinkQueryRoundTrip(service: string, names: seq<string>, encode: string -> string, decode: string -> string)
    requires IsFormEncoding(encode, decode) && service != ""
    ensures ParseQuery(LocationSearch(OrderLink(Some(service), names, encode)), decode) == OrderParams(Some(service), names)
  {
    var params := OrderParams(Some(service), names);
    OrderParamsLayout(Some(service), names);
    var pairs := EncodePairs(params, encode);
    assert pairs[0] == encode("service") + "=" + encode(service);
    LongJoinIsNonEmpty(pairs);
    var q := Serialize(params, encode);
    var link := "/order?" + q;
    assert link == "/order" + ("?" + q);
    assert link[6..] == "?" + q;
    assert '?' !in "/order";
    IndexOfAfterPrefix("/order", "?" + q, '?');
    assert LocationSearch(link) == "?" + q;
    ParseSerialize(params, encode, decode);
  }

  /** The two parameters the calculator's link carries, looked up by key. */
  lemma GetOrderParams(service: string, names: seq<string>)
    requires service != ""
    ensures Get(OrderParams(Some(service), names), "service") == Some(service)
    ensures Get(OrderParams(Some(service), names), "addons") == if names == [] then None else Some(Join(names, ','))
  {
    OrderParamsLayout(Some(service), names);
  }

  /** The add-on names of the link come back out of the order form's add-on pre-fill unchanged. */
  lemma AddonsFromJoinedNames(addons: seq<Item>, names: seq<string>, decodeComponent: string -> string)
    requires |names| > 0 && NoDuplicates(names)
    requires forall k :: 0 <= k < |names| ==> HasName(addons, names[k]) && SurvivesUrl(names[k], decodeComponent)
    ensures AddonsFromQuery(addons, Some(Join(names, ',')), decodeComponent) == Some(names)
  {
    AddonsFromUrlOfJoinedNames(addons, names, decodeComponent);
    assert Join(names, ',') != "" by {
      assert SurvivesUrl(names[0], decodeComponent);
      if |names| > 1 {
        assert Join(names, ',') == names[0] + [','] + Join(names[1..], ',');
      }
    }
    DedupOfDistinct(names);
  }

  /** Pre-filling from the calculator's parameters sets the service, and the add-ons when there are any. */
  lemma PrefilledFromOrderParams(values: Values, services: seq<Item>, addons: seq<Item>, service: string, names: seq<string>,
                                 decodeComponent: string -> string)
    requires service != "" && HasName(services, service)
    requires NoDuplicates(names)
    requires forall k :: 0 <= k < |names| ==> HasName(addons, names[k]) && SurvivesUrl(names[k], decodeComponent)
    ensures var filled := Prefilled(values, services, addons, OrderParams(Some(service), names), decodeComponent);
      && Lookup(filled, "service") == Text(service)
      && Lookup(filled, "addons") == (if names == [] then Lookup(values, "addons") else List(names))
  {
    var query := OrderParams(Some(service), names);
    GetOrderParams(service, names);
    PrefilledLookups(values, services, addons, query, decodeComponent);
    if names != [] {
      AddonsFromJoinedNames(addons, names, decodeComponent);
    }
  }

  /** What `Prefilled` leaves under the two keys it may set. */
  lemma PrefilledLookups(values: Values, services: seq<Item>, addons: seq<Item>, query: Params, decodeComponent: string -> string)
    ensures var filled := Prefilled(values, services, addons, query, decodeComponent);
      var service := ServiceFromQuery(services, Get(query, "service"));
      var names := AddonsFromQuery(addons, Get(query, "addons"), decodeComponent);
      && Lookup(filled, "service") == (if service.Some? then Text(service.value) else Lookup(values, "service"))
      && Lookup(filled, "addons") == (if names.Some? then List(names.value) else Lookup(values, "addons"))
  {
  }

  /**
   * Following the calculator's link pre-fills the order form with the calculator's
   * service and, when any are selected, its add-ons in catalog order.
   */
  lemma CalculatorLinkPrefillsOrderForm(
    services: seq<Item>, addons: seq<Item>, serviceName: string, selected: seq<string>, values: Values,
    encode: string -> string, decode: string -> string, decodeComponent: string -> string)
    requires IsFormEncoding(encode, decode)
    requires LinkableCatalogs(services, addons, decodeComponent)
    ensures var link := CalculatorOrderLink(services, addons, serviceName, selected, encode);
      var filled := Prefilled(values, services, addons, ParseQuery(LocationSearch(link), decode), decodeComponent);
      var names := Names(SelectedDetails(addons, selected));
      && Lookup(filled, "service") == Text(SelectedService(services, serviceName).value.name)
      && Lookup(filled, "addons") == (if names == [] then Lookup(values, "addons") else List(names))
  {
    var svc := SelectedService(services, serviceName).value;
    var details := SelectedDetails(addons, selected);
    var names := Names(details);
    LinkQueryRoundTrip(svc.name, names, encode, decode);
    InCatalogHasName(services, svc);
    forall j | 0 <= j < |names| ensures HasName(addons, names[j]) && SurvivesUrl(names[j], decodeComponent) {
      assert details[j] in details;
      InCatalogHasName(addons, details[j]);
    }
    SelectedNamesDistinct(addons, selected);
    PrefilledFromOrderParams(values, services, addons, svc.name, names, decodeComponent);
  }

  /** The order form's total for the pre-filled form equals the calculator's total. */
  lemma PrefilledTotalMatchesCalculator(
    services: seq<Item>, addons: seq<Item>, serviceName: string, selected: seq<string>, values: Values,
    encode: string -> string, decode: string -> string, decodeComponent: string -> string)
    requires IsFormEncoding(encode, decode)
    requires LinkableCatalogs(services, addons, decodeComponent)
    requires Lookup(values, "addons") == List([])
    ensures var link := CalculatorOrderLink(services, addons, serviceName, selected, encode);
      var filled := Prefilled(values, services, addons, ParseQuery(LocationSearch(link), decode), decodeComponent);
      OrderTotal(services, addons, Lookup(filled, "service"), SelectedAddonNames(Lookup(filled, "addons"))) ==
        CalculatorTotal(services, addons, serviceName, selected)
  {
    CalculatorLinkPrefillsOrderForm(services, addons, serviceName, selected, values, encode, decode, decodeComponent);
    var svc := SelectedService(services, serviceName).value;
    var details := SelectedDetails(addons, selected);
    var names := Names(details);
    InCatalogHasName(services, svc);
    SelectedNamesMatchSelection(addons, selected);
    SelectionIsASet(addons, names, selected);
  }

  /** A catalog add-on's name is among the selected details' names exactly when it was selected. */
  lemma SelectedNamesMatchSelection(addons: seq<Item>, selected: seq<string>)
    ensures var names := Names(SelectedDetails(addons, selected));
      forall j :: 0 <= j < |addons| ==> (addons[j].name in names <==> addons[j].name in selected)
  {
    var details := SelectedDetails(addons, selected);
    var names := Names(details);
    forall j | 0 <= j < |addons| ensures addons[j].name in names <==> addons[j].name in selected {
      if addons[j].name in selected {
        assert addons[j] in details;
        var i :| 0 <= i < |details| && details[i] == addons[j];
        assert names[i] == addons[j].name;
      }
      if addons[j].name in names {
        var i :| 0 <= i < |names| && names[i] == addons[j].name;
        assert details[i] in details;
      }
    }
  }
}
