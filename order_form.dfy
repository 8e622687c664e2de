/**
 * The 4-step order wizard: its field rules, the e-mail pattern, the voice-sample
 * validator, the step gate, the price total, and the pre-fill from the page's
 * `service` and `addons` query parameters.
 */
module OrderForm {
  import opened Wrappers
  import opened JsStrings
  import opened JsArrays
  import opened Catalog
  import opened UrlQuery
  import opened ReactHookForm

  /** The fields each step validates before moving on. */
  const StepFields: seq<seq<string>> := [
    ["service"],
    ["occasion", "names", "mood", "genre"],
    ["addons", "voiceSample"],
    ["customerName", "email"]
  ]

  const VoiceClone: string := "Voice Clone"

  /** The form's default values: the first service's name (or `""`), no add-ons, empty text fields. */
  function DefaultValues(services: seq<Item>): Values {
    map[
      "service" := Text(if services != [] then services[0].name else ""),
      "addons" := List([]),
      "occasion" := Text(""),
      "names" := Text(""),
      "specialPhrases" := Text(""),
      "mood" := Text(""),
      "genre" := Text(""),
      "customerName" := Text(""),
      "email" := Text(""),
      "phone" := Text(""),
      "specialInstructions" := Text("")
    ]
  }

  function RequiredWith(message: string): Rule {
    Rule(Some(RequiredMessage(message)), None, None, None)
  }

  const ServiceRule: Rule := RequiredWith("Please select a service.")
  const OccasionRule: Rule :=
    Rule(Some(RequiredMessage("Please tell us about the occasion.")),
         Some(MaxLengthObject(500, Some("Please keep this to 500 characters or less."))), None, None)
  const NamesRule: Rule := RequiredWith("Please include names for the song.")
  const MoodRule: Rule := RequiredWith("Please choose a mood.")
  const GenreRule: Rule := RequiredWith("Please choose a genre.")
  const CustomerNameRule: Rule := RequiredWith("Please enter your name.")
  const EmailRule: Rule :=
    Rule(Some(RequiredMessage("Please enter your email.")), None,
         Some(Pattern(EmailMatches, Some("Please enter a valid email address."))), None)

  // ----- The e-mail pattern /^[^\s@]+@[^\s@]+\.[^\s@]+$/ -----

  /** A character of the class `[^\s@]`. */
  predicate EmailPlain(c: char) {
    !IsWhitespace(c) && c != '@'
  }

  predicate AllEmailPlain(t: string) {
    forall i :: 0 <= i < |t| ==> EmailPlain(t[i])
  }

  /** A hand-written matcher for the e-mail pattern: one `@`, then a `.` strictly inside the domain part. */
  predicate EmailMatches(s: string) {
    match IndexOf(s, '@')
    case None => false
    case Some(i) =>
      var rest := s[i + 1..];
      && i > 0 && AllEmailPlain(s[..i]) && AllEmailPlain(rest)
      && exists k :: 0 < k < |rest| - 1 && rest[k] == '.'
  }

  /** The pattern's meaning: `local@domain.tld` with three non-empty runs of `[^\s@]`. */
  ghost predicate EmailParts(s: string, local: string, domain: string, tld: string) {
    && |local| > 0 && |domain| > 0 && |tld| > 0
    && AllEmailPlain(local) && AllEmailPlain(domain) && AllEmailPlain(tld)
    && s == local + "@" + domain + "." + tld
  }

  /** The matcher accepts exactly the strings the regular expression describes. */
  lemma EmailMatchesIffParts(s: string)
    ensures EmailMatches(s) <==> exists local, domain, tld :: EmailParts(s, local, domain, tld)
  {
    if EmailMatches(s) {
      EmailMatchHasParts(s);
    }
    if exists local, domain, tld :: EmailParts(s, local, domain, tld) {
      var local, domain, tld :| EmailParts(s, local, domain, tld);
      EmailPartsMatch(s, local, domain, tld);
    }
  }

  /** An accepted address splits at its `@` and at a `.` of the domain part. */
  lemma EmailMatchHasParts(s: string)
    requires EmailMatches(s)
    ensures exists local, domain, tld :: EmailParts(s, local, domain, tld)
  {
    var i := IndexOf(s, '@').value;
    var rest := s[i + 1..];
    var k :| 0 < k < |rest| - 1 && rest[k] == '.';
    var local, domain, tld := s[..i], rest[..k], rest[k + 1..];
    PlainSlice(rest, 0, k);
    PlainSlice(rest, k + 1, |rest|);
    SplitAround(s, i, i + 1 + k);
    assert EmailParts(s, local, domain, tld);
  }

  /** Cutting `s` at two positions `i < j` and gluing the pieces back gives `s`. */
  lemma SplitAround(s: string, i: nat, j: nat)
    requires i < j < |s|
    ensures s == s[..i] + [s[i]] + s[i + 1..][..j - i - 1] + [s[j]] + s[i + 1..][j - i..]
  {
    var rest := s[i + 1..];
    assert s == s[..i] + [s[i]] + rest;
    assert rest == rest[..j - i - 1] + [rest[j - i - 1]] + rest[j - i..];
  }

  lemma PlainSlice(t: string, a: nat, b: nat)
    requires AllEmailPlain(t) && a <= b <= |t|
    ensures AllEmailPlain(t[a..b])
  {
    forall j | 0 <= j < b - a ensures EmailPlain(t[a..b][j]) {
      assert t[a..b][j] == t[a + j];
    }
  }

  /** Every `local@domain.tld` of plain runs is accepted. */
  lemma EmailPartsMatch(s: string, local: string, domain: string, tld: string)
    requires EmailParts(s, local, domain, tld)
    ensures EmailMatches(s)
  {
    var i := |local|;
    assert s[..i] == local;
    assert s[i] == '@';
    assert '@' !in local by {
      forall j | 0 <= j < |local| ensures local[j] != '@' {
        assert EmailPlain(local[j]);
      }
    }
    assert IndexOf(s, '@') == Some(i);
    var rest := s[i + 1..];
    assert rest == domain + "." + tld;
    assert AllEmailPlain(rest) by {
      forall j | 0 <= j < |rest| ensures EmailPlain(rest[j]) {
        if j < |domain| {
          assert rest[j] == domain[j];
        } else if j > |domain| {
          assert rest[j] == tld[j - |domain| - 1];
        }
      }
    }
    assert rest[|domain|] == '.';
  }

  /** `""` gets the required message, since required is checked before the pattern. */
  lemma EmailEmptyIsRequired(values: Values)
    ensures GetError(Some(EmailRule), Text(""), values) == Some("Please enter your email.")
  {
  }

  /** A non-empty address that does not match gets the pattern's message; a matching one gets none. */
  lemma EmailPatternMessage(s: string, values: Values)
    requires s != ""
    ensures !EmailMatches(s) ==> GetError(Some(EmailRule), Text(s), values) == Some("Please enter a valid email address.")
    ensures EmailMatches(s) ==> GetError(Some(EmailRule), Text(s), values) == None
  {
  }

  /** `"not-an-email"` has no `@`, so it gets the pattern's message. */
  lemma NotAnEmail(values: Values)
    ensures GetError(Some(EmailRule), Text("not-an-email"), values) == Some("Please enter a valid email address.")
  {
    assert '@' !in "not-an-email";
    EmailPatternMessage("not-an-email", values);
  }

  /** An occasion of exactly 500 code units passes; one more is over the limit. */
  lemma OccasionLengthLimit(s: string, values: Values)
    requires s != ""
    ensures JsLength(s) <= 500 ==> GetError(Some(OccasionRule), Text(s), values) == None
    ensures JsLength(s) > 500 ==> GetError(Some(OccasionRule), Text(s), values) == Some("Please keep this to 500 characters or less.")
  {
  }

  // ----- The voice-sample validator -----

  const VoiceSampleMissing: string := "Voice sample is required for Voice Clone orders."
  const VoiceSampleWrongType: string := "Please upload an MP3 or WAV file."
  const VoiceSampleTooLarge: string := "File size must be 50MB or less."
  const VoiceTypes: seq<string> := ["audio/mpeg", "audio/mp3", "audio/wav", "audio/x-wav"]
  const MaxVoiceSampleBytes: int := 50 * 1024 * 1024

  /** `/\.(mp3|wav)$/i.test(name)`. */
  predicate HasAudioExtension(name: string) {
    EndsWithIgnoreCase(name, ".mp3") || EndsWithIgnoreCase(name, ".wav")
  }

  /**
   * The body of the voiceSample `validate` callback, for the service name it
   * compares against and the field's value. `files[0]` of a string or a name list
   * has neither `type` nor `name`, so it is refused as the wrong type.
   */
  function VoiceSampleCheck(serviceName: Value, files: Value): ValidateResult {
    if serviceName != Text(VoiceClone) then ReturnedTrue
    else
      match files
      case Undefined => ReturnedString(VoiceSampleMissing)
      case Null => ReturnedString(VoiceSampleMissing)
      case Text(s) => ReturnedString(if s == "" then VoiceSampleMissing else VoiceSampleWrongType)
      case List(items) => ReturnedString(if items == [] then VoiceSampleMissing else VoiceSampleWrongType)
      case FileList(fs) =>
        if fs == [] then ReturnedString(VoiceSampleMissing)
        else if fs[0].mimeType !in VoiceTypes && !HasAudioExtension(fs[0].name) then ReturnedString(VoiceSampleWrongType)
        else if fs[0].size > MaxVoiceSampleBytes then ReturnedString(VoiceSampleTooLarge)
        else ReturnedTrue
  }

  /** The validator's outcomes on a FileList, in the order it tries them. */
  lemma VoiceSampleOrder(serviceName: Value, fs: seq<FileInfo>)
    ensures serviceName != Text(VoiceClone) ==> VoiceSampleCheck(serviceName, FileList(fs)) == ReturnedTrue
    ensures serviceName == Text(VoiceClone) && fs == [] ==> VoiceSampleCheck(serviceName, FileList(fs)) == ReturnedString(VoiceSampleMissing)
    ensures serviceName == Text(VoiceClone) && fs != [] ==>
      (VoiceSampleCheck(serviceName, FileList(fs)) == ReturnedString(VoiceSampleWrongType) <==>
       fs[0].mimeType !in VoiceTypes && !HasAudioExtension(fs[0].name))
    ensures serviceName == Text(VoiceClone) && fs != [] && (fs[0].mimeType in VoiceTypes || HasAudioExtension(fs[0].name)) ==>
      VoiceSampleCheck(serviceName, FileList(fs)) == (if fs[0].size > MaxVoiceSampleBytes then ReturnedString(VoiceSampleTooLarge) else ReturnedTrue)
  {
  }

  /** An upper-case `.WAV` name is accepted even with an unknown MIME type. */
  lemma UpperCaseWavAccepted()
    ensures VoiceSampleCheck(Text(VoiceClone), FileList([FileInfo("TAKE1.WAV", "application/octet-stream", 1024)])) == ReturnedTrue
  {
    assert HasAudioExtension("TAKE1.WAV") by {
      assert EndsWithIgnoreCase("TAKE1.WAV", ".wav");
    }
  }

  /**
   * The rule as the component registers it: the callback closes over the
   * `selectedServiceName` of the render in which it was first registered.
   */
  function VoiceSampleRuleAsWritten(capturedService: Value): Rule {
    Rule(None, None, None, Some((files: Value, values: Values) => VoiceSampleCheck(capturedService, files)))
  }

  /** The intended rule: the callback compares against the service the form holds when it runs. */
  function VoiceSampleRule(): Rule {
    Rule(None, None, None, Some((files: Value, values: Values) => VoiceSampleCheck(Lookup(values, "service"), files)))
  }

  /**
   * As written, the only rule step 3 ever stores was registered while Voice Clone
   * was selected, and it is never replaced. Whatever service the form holds later,
   * step 3 demands a voice sample, even when the file input is no longer shown.
   */
  lemma StaleVoiceSampleRuleBlocksStepThree(services: seq<Item>, addons: seq<Item>, errors: map<string, string>, values: Values)
    requires Lookup(values, "voiceSample") == Undefined
    ensures var rules := RegisteredAll(map[], RenderedFields(3, Text(VoiceClone), services, addons));
      && FieldError(rules, values, "voiceSample") == Some(VoiceSampleMissing)
      && "voiceSample" in ApplyValidation(errors, rules, values, StepFields[2])
  {
    var rule := VoiceSampleRuleAsWritten(Text(VoiceClone));
    StepThreeRules(addons, rule);
    var rules := map["voiceSample" := rule];
    assert FieldError(rules, values, "voiceSample") == Some(VoiceSampleMissing);
    ApplyValidationSpec(errors, rules, values, StepFields[2]);
  }

  /**
   * With the intended rule registered in the same render, step 3 reports no voice
   * sample error once the form's service is no longer Voice Clone.
   */
  lemma IntendedRuleUnblocksStepThree(addons: seq<Item>, errors: map<string, string>, values: Values)
    requires Lookup(values, "service") != Text(VoiceClone)
    ensures var rules := RegisteredAll(map[], StepThreeFields(Text(VoiceClone), addons, VoiceSampleRule()));
      "voiceSample" !in ApplyValidation(errors, rules, values, StepFields[2])
  {
    StepThreeRules(addons, VoiceSampleRule());
    var rules := map["voiceSample" := VoiceSampleRule()];
    VoiceSampleRuleFollowsService(Lookup(values, "voiceSample"), values);
    ApplyValidationSpec(errors, rules, values, StepFields[2]);
  }

  /** Step 3 under Voice Clone stores exactly the voice-sample rule: the add-on checkboxes carry none. */
  lemma StepThreeRules(addons: seq<Item>, rule: Rule)
    ensures RegisteredAll(map[], StepThreeFields(Text(VoiceClone), addons, rule)) == map["voiceSample" := rule]
  {
    var checkboxes := seq(|addons|, _ => ("addons", None));
    RegisteredAllAppend(map[], checkboxes, [("voiceSample", Some(rule))]);
    RegisteredAllWithoutRules(map[], checkboxes);
    assert [("voiceSample", Some(rule))][1..] == [];
  }

  /** The intended rule reports nothing unless the form's current service is Voice Clone. */
  lemma VoiceSampleRuleFollowsService(files: Value, values: Values)
    ensures Lookup(values, "service") != Text(VoiceClone) ==> GetError(Some(VoiceSampleRule()), files, values) == None
    ensures Lookup(values, "service") == Text(VoiceClone) ==>
      GetError(Some(VoiceSampleRule()), files, values) ==
        match VoiceSampleCheck(Text(VoiceClone), files) case ReturnedString(m) => Some(m) case _ => None
  {
  }

  // ----- Which rules each step registers when it renders -----

  /**
   * The `register` calls of step `step`'s markup, in order: one per service radio,
   * one per add-on checkbox, and the voice sample input, which shows only for Voice
   * Clone and registers the rule closing over that render's selected service.
   */
  function RenderedFields(step: int, service: Value, services: seq<Item>, addons: seq<Item>): seq<(string, Option<Rule>)> {
    if step == 1 then seq(|services|, _ => ("service", Some(ServiceRule)))
    else if step == 2 then
      [("occasion", Some(OccasionRule)), ("names", Some(NamesRule)), ("specialPhrases", None),
       ("mood", Some(MoodRule)), ("genre", Some(GenreRule))]
    else if step == 3 then StepThreeFields(service, addons, VoiceSampleRuleAsWritten(service))
    else if step == 4 then
      [("customerName", Some(CustomerNameRule)), ("email", Some(EmailRule)), ("phone", None), ("specialInstructions", None)]
    else []
  }

  /** Step 3's calls, for the rule its voice sample input registers. */
  function StepThreeFields(service: Value, addons: seq<Item>, voiceRule: Rule): seq<(string, Option<Rule>)> {
    seq(|addons|, _ => ("addons", None)) + (if service == Text(VoiceClone) then [("voiceSample", Some(voiceRule))] else [])
  }

  /** Step 1 stores the service rule when there is at least one radio to render, and nothing otherwise. */
  lemma StepOneRules(service: Value, services: seq<Item>, addons: seq<Item>)
    ensures RegisteredAll(map[], RenderedFields(1, service, services, addons)) ==
      if services == [] then map[] else map["service" := ServiceRule]
  {
    var calls := RenderedFields(1, service, services, addons);
    if services != [] {
      assert calls == [calls[0]] + calls[1..];
      RegisteredAllKeepsFirst(map["service" := ServiceRule], calls[1..]);
    }
  }

  /** With an empty service catalog step 1 registers no rule, so its validation passes. */
  lemma EmptyCatalogStepOnePasses(service: Value, addons: seq<Item>, errors: map<string, string>, values: Values)
    ensures var rules := RegisteredAll(map[], RenderedFields(1, service, [], addons));
      ApplyValidation(errors, rules, values, StepFields[0]) == errors - {"service"}
  {
    StepOneRules(service, [], addons);
    ApplyValidationSpec(errors, map[], values, StepFields[0]);
  }

  /** The rule cache after a sequence of `register` calls. */
  function RegisteredAll(rules: map<string, Rule>, calls: seq<(string, Option<Rule>)>): map<string, Rule>
    decreases |calls|
  {
    if calls == [] then rules else RegisteredAll(Registered(rules, calls[0].0, calls[0].1), calls[1..])
  }

  /**
   * The names that a sequence of `register` calls adds to the rule cache, in the order
   * they are added, which is the order `Object.keys` later lists them in.
   */
  function NewlyRegistered(rules: map<string, Rule>, calls: seq<(string, Option<Rule>)>): (r: seq<string>)
    ensures NoDuplicates(r)
    ensures forall n :: n in r <==> n in RegisteredAll(rules, calls) && n !in rules
    decreases |calls|
  {
    if calls == [] then []
    else
      var next := Registered(rules, calls[0].0, calls[0].1);
      var rest := NewlyRegistered(next, calls[1..]);
      RegisteredKeys(rules, next, calls[0].0, calls[0].1);
      RegisteredAllKeepsKeys(next, calls[1..]);
      if calls[0].1.Some? && calls[0].0 !in rules then
        assert calls[0].0 !in rest;
        PrependFreshKeepsDistinct(calls[0].0, rest);
        [calls[0].0] + rest
      else rest
  }

  /** The first call contributes its name when it stores a rule, then the rest follow. */
  lemma RuleOrderStep(rules: map<string, Rule>, order: seq<string>, calls: seq<(string, Option<Rule>)>,
                      nextRules: map<string, Rule>, nextOrder: seq<string>)
    requires calls != []
    requires nextRules == Registered(rules, calls[0].0, calls[0].1)
    requires nextOrder == if calls[0].1.Some? && calls[0].0 !in rules then order + [calls[0].0] else order
    ensures nextOrder + NewlyRegistered(nextRules, calls[1..]) == order + NewlyRegistered(rules, calls)
  {
    var rest := NewlyRegistered(nextRules, calls[1..]);
    if calls[0].1.Some? && calls[0].0 !in rules {
      assert NewlyRegistered(rules, calls) == [calls[0].0] + rest;
      assert (order + [calls[0].0]) + rest == order + ([calls[0].0] + rest);
    } else {
      assert NewlyRegistered(rules, calls) == rest;
    }
  }

  /** One `register` call adds the name exactly when it brings a rule the cache lacks. */
  lemma RegisteredKeys(rules: map<string, Rule>, next: map<string, Rule>, name: string, rule: Option<Rule>)
    requires next == Registered(rules, name, rule)
    ensures forall n :: n in next <==> n in rules || (n == name && rule.Some?)
  {
  }

  /** Later calls never drop a stored name. */
  lemma {:induction false} RegisteredAllKeepsKeys(rules: map<string, Rule>, calls: seq<(string, Option<Rule>)>)
    ensures forall n :: n in rules ==> n in RegisteredAll(rules, calls)
    decreases |calls|
  {
    if calls != [] {
      RegisteredAllKeepsKeys(Registered(rules, calls[0].0, calls[0].1), calls[1..]);
    }
  }

  /** Registering two runs of calls is registering the first and then the second. */
  lemma {:induction false} RegisteredAllAppend(rules: map<string, Rule>, a: seq<(string, Option<Rule>)>, b: seq<(string, Option<Rule>)>)
    ensures RegisteredAll(rules, a + b) == RegisteredAll(RegisteredAll(rules, a), b)
    decreases |a|
  {
    if a == [] {
      assert a + b == b;
    } else {
      assert (a + b)[0] == a[0] && (a + b)[1..] == a[1..] + b;
      RegisteredAllAppend(Registered(rules, a[0].0, a[0].1), a[1..], b);
    }
  }

  /** Calls without a rule leave the cache as it was. */
  lemma {:induction false} RegisteredAllWithoutRules(rules: map<string, Rule>, calls: seq<(string, Option<Rule>)>)
    requires forall k :: 0 <= k < |calls| ==> calls[k].1.None?
    ensures RegisteredAll(rules, calls) == rules
    decreases |calls|
  {
    if calls != [] {
      assert forall k :: 0 <= k < |calls[1..]| ==> calls[1..][k] == calls[k + 1];
      RegisteredAllWithoutRules(rules, calls[1..]);
    }
  }

  /** Re-rendering never replaces a stored rule, and every field rendered with a rule ends up with one. */
  lemma {:induction false} RegisteredAllKeepsFirst(rules: map<string, Rule>, calls: seq<(string, Option<Rule>)>)
    ensures var r := RegisteredAll(rules, calls);
      && (forall n :: n in rules ==> n in r && r[n] == rules[n])
      && (forall k :: 0 <= k < |calls| && calls[k].1.Some? ==> calls[k].0 in r)
      && (forall n :: n in r ==> n in rules || exists k :: 0 <= k < |calls| && calls[k].0 == n && calls[k].1.Some?)
    decreases |calls|
  {
    if calls != [] {
      var next := Registered(rules, calls[0].0, calls[0].1);
      RegisteredAllKeepsFirst(next, calls[1..]);
      var r := RegisteredAll(rules, calls);
      forall n | n in r ensures n in rules || exists k :: 0 <= k < |calls| && calls[k].0 == n && calls[k].1.Some? {
        if n !in next {
          var k :| 0 <= k < |calls[1..]| && calls[1..][k].0 == n && calls[1..][k].1.Some?;
          assert calls[k + 1] == calls[1..][k];
        }
      }
      forall k | 0 <= k < |calls| && calls[k].1.Some? ensures calls[k].0 in r {
        if k > 0 {
          assert calls[1..][k - 1] == calls[k];
        }
      }
    }
  }

  // ----- Price total -----

  /** The add-on names the form holds; anything but a list reads as no selection. */
  function SelectedAddonNames(v: Value): seq<string> {
    if v.List? then v.items else []
  }

  /** `basePrice + addonsPrice`: the watched service's price (0 if unknown) plus the selected catalog add-ons. */
  function OrderTotal(services: seq<Item>, addons: seq<Item>, serviceName: Value, selected: seq<string>): int {
    var basePrice := if serviceName.Text? && Find(services, serviceName.text).Some? then Find(services, serviceName.text).value.price else 0;
    basePrice + SumPrices(SelectedDetails(addons, selected))
  }

  /**
   * The total is the named service's price, or 0 when no service has that name, plus the
   * catalog add-ons in the selection; unknown and repeated names add nothing.
   */
  lemma OrderTotalSpec(services: seq<Item>, addons: seq<Item>, name: string, selected: seq<string>, unknown: string)
    requires !HasName(addons, unknown)
    ensures OrderTotal(services, addons, Text(name), selected) ==
      (match Find(services, name) case Some(s) => s.price case None => 0) + SumPrices(SelectedDetails(addons, selected))
    ensures OrderTotal(services, addons, Text(name), selected + [unknown]) == OrderTotal(services, addons, Text(name), selected)
    ensures OrderTotal(services, addons, Text(name), Dedup(selected)) == OrderTotal(services, addons, Text(name), selected)
  {
    UnknownNameIgnored(addons, selected, unknown);
    RepeatedNameCountedOnce(addons, selected);
  }

  // ----- Pre-fill from the page's query string -----

  /** The `service` parameter is applied only when it is non-empty and names a catalog service. */
  function ServiceFromQuery(services: seq<Item>, param: Option<string>): (r: Option<string>)
    ensures r.Some? <==> param.Some? && param.value != "" && HasName(services, param.value)
    ensures r.Some? ==> r == param
  {
    if param.Some? && param.value != "" && HasName(services, param.value) then param else None
  }

  /** `.map((item) => decodeURIComponent(item.trim()))`. */
  function DecodeTrimmed(items: seq<string>, decodeComponent: string -> string): (r: seq<string>)
    ensures |r| == |items|
    ensures forall k :: 0 <= k < |items| ==> r[k] == decodeComponent(Trim(items[k]))
  {
    if items == [] then [] else [decodeComponent(Trim(items[0]))] + DecodeTrimmed(items[1..], decodeComponent)
  }

  /** `.filter((item) => addons.some((addon) => addon.name === item))`. */
  function KeepCatalogNames(addons: seq<Item>, items: seq<string>): (r: seq<string>)
    ensures |r| <= |items|
    ensures forall x :: multiset(r)[x] == if HasName(addons, x) then multiset(items)[x] else 0
    ensures forall x :: x in r <==> x in items && HasName(addons, x)
  {
    if items == [] then []
    else
      var rest := KeepCatalogNames(addons, items[1..]);
      assert multiset(items) == multiset([items[0]]) + multiset(items[1..]) by {
        assert items == [items[0]] + items[1..];
      }
      if HasName(addons, items[0]) then [items[0]] + rest else rest
  }

  /** The filter keeps the URL's order: filtering a concatenation concatenates the filtered parts. */
  lemma {:induction false} KeepCatalogNamesAppend(addons: seq<Item>, a: seq<string>, b: seq<string>)
    ensures KeepCatalogNames(addons, a + b) == KeepCatalogNames(addons, a) + KeepCatalogNames(addons, b)
  {
    if a == [] {
      assert a + b == b;
    } else {
      assert (a + b)[0] == a[0];
      assert (a + b)[1..] == a[1..] + b;
      KeepCatalogNamesAppend(addons, a[1..], b);
    }
  }

  /** A single item is kept exactly when it names a catalog add-on. */
  lemma KeepCatalogNamesOfOne(addons: seq<Item>, item: string)
    ensures KeepCatalogNames(addons, [item]) == if HasName(addons, item) then [item] else []
  {
    assert [item][1..] == [];
  }

  /** `fromUrl`: split on `,`, trim and decode each item, keep the catalog add-on names. */
  function AddonsFromUrl(addons: seq<Item>, param: string, decodeComponent: string -> string): (r: seq<string>)
    ensures |r| <= |Split(param, ',')|
    ensures forall x :: x in r ==> HasName(addons, x)
    ensures forall x :: x in r <==> HasName(addons, x) && exists part :: part in Split(param, ',') && x == decodeComponent(Trim(part))
  {
    var decoded := DecodeTrimmed(Split(param, ','), decodeComponent);
    assert forall x :: x in decoded <==> exists part :: part in Split(param, ',') && x == decodeComponent(Trim(part)) by {
      forall x ensures x in decoded <==> exists part :: part in Split(param, ',') && x == decodeComponent(Trim(part)) {
        if x in decoded {
          var k :| 0 <= k < |decoded| && decoded[k] == x;
          assert Split(param, ',')[k] in Split(param, ',');
        }
        if exists part :: part in Split(param, ',') && x == decodeComponent(Trim(part)) {
          var part :| part in Split(param, ',') && x == decodeComponent(Trim(part));
          var k :| 0 <= k < |Split(param, ',')| && Split(param, ',')[k] == part;
          assert decoded[k] == x;
        }
      }
    }
    KeepCatalogNames(addons, DecodeTrimmed(Split(param, ','), decodeComponent))
  }

  /** A catalog name that the URL pipeline hands back unchanged: no comma, no outer whitespace, nothing to decode. */
  predicate SurvivesUrl(name: string, decodeComponent: string -> string) {
    name != "" && ',' !in name && IsTrimmed(name) && decodeComponent(name) == name
  }

  /** Comma-joined catalog names that survive the pipeline come back out of it in the same order. */
  lemma AddonsFromUrlOfJoinedNames(addons: seq<Item>, names: seq<string>, decodeComponent: string -> string)
    requires |names| > 0
    requires forall k :: 0 <= k < |names| ==> HasName(addons, names[k]) && SurvivesUrl(names[k], decodeComponent)
    ensures AddonsFromUrl(addons, Join(names, ','), decodeComponent) == names
  {
    forall k | 0 <= k < |names| ensures ',' !in names[k] {
      assert SurvivesUrl(names[k], decodeComponent);
    }
    SplitJoin(names, ',');
    DecodeTrimmedClean(names, decodeComponent);
    KeepAllCatalogNames(addons, names);
  }

  lemma DecodeTrimmedClean(names: seq<string>, decodeComponent: string -> string)
    requires forall k :: 0 <= k < |names| ==> SurvivesUrl(names[k], decodeComponent)
    ensures DecodeTrimmed(names, decodeComponent) == names
  {
    var decoded := DecodeTrimmed(names, decodeComponent);
    forall k | 0 <= k < |names| ensures decoded[k] == names[k] {
      assert SurvivesUrl(names[k], decodeComponent);
      TrimOfTrimmed(names[k]);
    }
  }

  lemma {:induction false} KeepAllCatalogNames(addons: seq<Item>, items: seq<string>)
    requires forall k :: 0 <= k < |items| ==> HasName(addons, items[k])
    ensures KeepCatalogNames(addons, items) == items
  {
    if items != [] {
      assert HasName(addons, items[0]);
      KeepAllCatalogNames(addons, items[1..]);
    }
  }

  /** The `addons` value the page sets: `[...new Set(fromUrl)]`, only for a non-empty parameter and a non-empty result. */
  function AddonsFromQuery(addons: seq<Item>, param: Option<string>, decodeComponent: string -> string): (r: Option<seq<string>>)
    ensures r.Some? ==> param.Some? && param.value != "" && r.value == Dedup(AddonsFromUrl(addons, param.value, decodeComponent))
    ensures r.Some? ==> |r.value| > 0 && NoDuplicates(r.value)
    ensures r.Some? ==> forall x :: x in r.value <==> x in AddonsFromUrl(addons, param.value, decodeComponent)
    ensures r.Some? ==> forall x :: x in r.value ==> HasName(addons, x)
    ensures r.None? <==> param.None? || param.value == "" || AddonsFromUrl(addons, param.value, decodeComponent) == []
  {
    if param.Some? && param.value != "" then
      var fromUrl := AddonsFromUrl(addons, param.value, decodeComponent);
      if |fromUrl| > 0 then
        assert fromUrl[0] in Dedup(fromUrl);
        Some(Dedup(fromUrl))
      else None
    else None
  }

  /** The values after the mount effect: `setValue` for each parameter that applies (without validating). */
  function Prefilled(values: Values, services: seq<Item>, addons: seq<Item>, query: Params, decodeComponent: string -> string): Values {
    var withService :=
      match ServiceFromQuery(services, Get(query, "service"))
      case Some(s) => values["service" := Text(s)]
      case None => values;
    match AddonsFromQuery(addons, Get(query, "addons"), decodeComponent)
    case Some(names) => withService["addons" := List(names)]
    case None => withService
  }

  /** The wizard: its step index over a form controller, with the catalogs it prices against. */
  class OrderWizard {
    var currentStep: int
    const form: FormController
    const services: seq<Item>
    const addons: seq<Item>

    ghost predicate Valid()
      reads this, form
    {
      1 <= currentStep <= 4 && form.Valid()
    }

    constructor (services: seq<Item>, addons: seq<Item>)
      ensures Valid() && fresh(form)
      ensures currentStep == 1 && this.services == services && this.addons == addons
      ensures form.values == DefaultValues(services) && form.errors == map[] && form.rules == map[]
    {
      currentStep := 1;
      this.services := services;
      this.addons := addons;
      form := new FormController(DefaultValues(services));
    }

    /** `nextStep`: validate the current step's fields and move on only if they all pass, at most to step 4. */
    method NextStep() returns (advanced: bool)
      requires Valid()
      modifies this, form
      ensures Valid()
      ensures form.errors == ApplyValidation(old(form.errors), form.rules, form.values, StepFields[old(currentStep) - 1])
      ensures advanced <==> forall n :: n in StepFields[old(currentStep) - 1] ==> !IsReported(FieldError(form.rules, form.values, n))
      ensures currentStep == if advanced then (if old(currentStep) + 1 < 4 then old(currentStep) + 1 else 4) else old(currentStep)
      ensures form.values == old(form.values) && form.rules == old(form.rules) && form.ruleOrder == old(form.ruleOrder)
    {
      advanced := form.Trigger(Many(StepFields[currentStep - 1]));
      if advanced {
        currentStep := if currentStep + 1 < 4 then currentStep + 1 else 4;
      }
    }

    /** `prevStep`: one step back, never below step 1; nothing is validated. */
    method PrevStep()
      requires Valid()
      modifies this
      ensures Valid()
      ensures currentStep == if old(currentStep) - 1 > 1 then old(currentStep) - 1 else 1
    {
      currentStep := if currentStep - 1 > 1 then currentStep - 1 else 1;
    }

    /** A render of the current step: its inputs call `register` in markup order. */
    method RenderStep()
      requires Valid()
      modifies form
      ensures Valid()
      ensures form.rules == RegisteredAll(old(form.rules), RenderedFields(currentStep, Lookup(old(form.values), "service"), services, addons))
      ensures form.ruleOrder == old(form.ruleOrder) + NewlyRegistered(old(form.rules), RenderedFields(currentStep, Lookup(old(form.values), "service"), services, addons))
      ensures form.values == old(form.values) && form.errors == old(form.errors)
    {
      var calls := RenderedFields(currentStep, form.Watch("service"), services, addons);
      var i := 0;
      while i < |calls|
        invariant 0 <= i <= |calls|
        invariant form.Valid()
        invariant RegisteredAll(form.rules, calls[i..]) == RegisteredAll(old(form.rules), calls)
        invariant form.ruleOrder + NewlyRegistered(form.rules, calls[i..]) == old(form.ruleOrder) + NewlyRegistered(old(form.rules), calls)
        invariant form.values == old(form.values) && form.errors == old(form.errors)
      {
        ghost var before := form.rules;
        ghost var orderBefore := form.ruleOrder;
        form.Register(calls[i].0, calls[i].1);
        assert calls[i..][1..] == calls[i + 1..];
        assert calls[i..][0] == calls[i];
        RuleOrderStep(before, orderBefore, calls[i..], form.rules, form.ruleOrder);
        i := i + 1;
      }
    }

    /** The mount effect: read `service` and `addons` from the parsed query and `setValue` them. */
    method PrefillFromQuery(query: Params, decodeComponent: string -> string)
      requires Valid()
      modifies form
      ensures Valid()
      ensures form.values == Prefilled(old(form.values), services, addons, query, decodeComponent)
      ensures form.errors == old(form.errors) && form.rules == old(form.rules) && form.ruleOrder == old(form.ruleOrder)
    {
      var service := ServiceFromQuery(services, Get(query, "service"));
      if service.Some? {
        form.SetValue("service", Text(service.value));
      }
      var fromUrl := AddonsFromQuery(addons, Get(query, "addons"), decodeComponent);
      if fromUrl.Some? {
        form.SetValue("addons", List(fromUrl.value));
      }
    }

    /** `total` as the review step shows it. */
    function Total(): int
      reads this, form
    {
      OrderTotal(services, addons, form.Watch("service"), SelectedAddonNames(form.Watch("addons")))
    }

    /** `handleSubmit(submitForm)`: the browser submission happens only when every registered field passes. */
    method Submit() returns (submitted: bool)
      requires Valid()
      modifies form
      ensures Valid()
      ensures form.values == old(form.values) && form.rules == old(form.rules) && form.ruleOrder == old(form.ruleOrder)
      ensures form.errors == ApplyValidation(old(form.errors), old(form.rules), old(form.values), old(form.ruleOrder))
      ensures submitted <==> forall n :: n in old(form.rules) ==> !IsReported(FieldError(old(form.rules), old(form.values), n))
    {
      var result := form.HandleSubmit();
      submitted := result.Some?;
    }
  }
}
