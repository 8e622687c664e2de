/**
 * The hand-rolled form-state library: a rule evaluator, a first-wins rule
 * registry, a change handler for checkbox, file and scalar inputs, and a
 * controller that keeps the value and error maps and gates submission.
 */
module ReactHookForm {
  import opened Wrappers
  import opened JsStrings
  import opened JsArrays

  /** What a browser `File` offers the validators: name, MIME type and size in bytes. */
  datatype FileInfo = FileInfo(name: string, mimeType: string, size: int)

  /** A field value: text, the checked names of a checkbox group, a FileList, or nothing. */
  datatype Value =
    | Undefined
    | Null
    | Text(text: string)
    | List(items: seq<string>)
    | FileList(files: seq<FileInfo>)

  type Values = map<string, Value>

  /** `values[name]`: a key that is not there reads as `undefined`. */
  function Lookup(values: Values, name: string): Value {
    if name in values then values[name] else Undefined
  }

  /** `required: true | false | "message"`. */
  datatype RequiredSpec = RequiredFlag(on: bool) | RequiredMessage(message: string)

  /** `maxLength: n` or `maxLength: { value: n, message }`. */
  datatype MaxLengthSpec =
    | MaxLengthNumber(limit: int)
    | MaxLengthObject(limit: int, message: Option<string>)

  /** `pattern: { value: regex, message }`; the regular expression is its `test` predicate. */
  datatype Pattern = Pattern(test: string -> bool, message: Option<string>)

  /** What a `validate` callback returned: `true`, a string, or anything else (`false`, `undefined`, ...). */
  datatype ValidateResult = ReturnedTrue | ReturnedString(text: string) | ReturnedOther

  type Validator = (Value, Values) -> ValidateResult

  /** A field's rule: each member may be absent. */
  datatype Rule = Rule(
    required: Option<RequiredSpec>,
    maxLength: Option<MaxLengthSpec>,
    pattern: Option<Pattern>,
    validate: Option<Validator>)

  const RequiredDefault: string := "This field is required."
  const InvalidDefault: string := "Invalid value."

  function MaxLengthDefault(limit: int): string {
    "Maximum length is " + IntToString(limit) + "."
  }

  /** `required` is truthy: `true` or a non-empty message. */
  predicate RequiredActive(r: Rule) {
    match r.required
    case None => false
    case Some(RequiredFlag(on)) => on
    case Some(RequiredMessage(m)) => |m| > 0
  }

  /** `undefined`, `null`, `""`, `[]` or an empty FileList. */
  predicate IsMissing(v: Value) {
    v.Undefined? || v.Null? || v == Text([]) || v == List([]) || v == FileList([])
  }

  /**
   * `getError(rule, value, values)`: the first failing check in the order
   * required, maxLength, pattern, validate, or `None` when all pass.
   */
  function GetError(rule: Option<Rule>, value: Value, values: Values): Option<string> {
    if rule.None? then None
    else
      var r := rule.value;
      if RequiredActive(r) && IsMissing(value) then
        Some(match r.required.value
             case RequiredMessage(m) => m
             case RequiredFlag(_) => RequiredDefault)
      else if r.maxLength.Some? && (r.maxLength.value.MaxLengthObject? || r.maxLength.value.limit != 0)
              && value.Text? && JsLength(value.text) > r.maxLength.value.limit then
        Some(match r.maxLength.value
             case MaxLengthObject(limit, message) => message.GetOr(MaxLengthDefault(limit))
             case MaxLengthNumber(limit) => MaxLengthDefault(limit))
      else if r.pattern.Some? && value.Text? && value.text != "" && !r.pattern.value.test(value.text) then
        Some(r.pattern.value.message.GetOr(InvalidDefault))
      else if r.validate.Some? && r.validate.value(value, values) != ReturnedTrue then
        Some(match r.validate.value(value, values)
             case ReturnedString(text) => text
             case _ => InvalidDefault)
      else None
  }

  // ----- Each check on its own, as a reference for the short-circuit order -----

  function RequiredCheck(r: Rule, v: Value): Option<string> {
    if !(RequiredActive(r) && IsMissing(v)) then None
    else if r.required.value.RequiredMessage? then Some(r.required.value.message)
    else Some(RequiredDefault)
  }

  function MaxLengthCheck(r: Rule, v: Value): Option<string> {
    match (r.maxLength, v)
    case (Some(MaxLengthNumber(n)), Text(s)) =>
      if n != 0 && JsLength(s) > n then Some(MaxLengthDefault(n)) else None
    case (Some(MaxLengthObject(n, m)), Text(s)) =>
      if JsLength(s) > n then Some(if m.Some? then m.value else MaxLengthDefault(n)) else None
    case _ => None
  }

  function PatternCheck(r: Rule, v: Value): Option<string> {
    match (r.pattern, v)
    case (Some(p), Text(s)) =>
      if |s| > 0 && !p.test(s) then Some(if p.message.Some? then p.message.value else InvalidDefault) else None
    case _ => None
  }

  function ValidateCheck(r: Rule, v: Value, values: Values): Option<string> {
    match r.validate
    case None => None
    case Some(f) =>
      match f(v, values)
      case ReturnedTrue => None
      case ReturnedString(t) => Some(t)
      case ReturnedOther => Some(InvalidDefault)
  }

  /** The first check that reports something. */
  function FirstFailure(checks: seq<Option<string>>): (r: Option<string>)
    ensures r.None? <==> forall k :: 0 <= k < |checks| ==> checks[k].None?
    ensures r.Some? ==> exists k :: 0 <= k < |checks| && checks[k] == r && forall j :: 0 <= j < k ==> checks[j].None?
  {
    if checks == [] then None
    else if checks[0].Some? then checks[0]
    else
      var r := FirstFailure(checks[1..]);
      assert r.Some? ==> exists k :: 0 <= k < |checks| && checks[k] == r && forall j :: 0 <= j < k ==> checks[j].None? by {
        if r.Some? {
          var k :| 0 <= k < |checks[1..]| && checks[1..][k] == r && forall j :: 0 <= j < k ==> checks[1..][j].None?;
          assert checks[k + 1] == r;
          assert forall j :: 0 <= j < k + 1 ==> checks[j].None?;
        }
      }
      r
  }

  /** `getError` runs required, maxLength, pattern and validate in that order and stops at the first failure. */
  lemma GetErrorIsFirstFailingCheck(r: Rule, v: Value, values: Values)
    ensures GetError(Some(r), v, values) ==
      FirstFailure([RequiredCheck(r, v), MaxLengthCheck(r, v), PatternCheck(r, v), ValidateCheck(r, v, values)])
  {
    FirstFailureOfFour(RequiredCheck(r, v), MaxLengthCheck(r, v), PatternCheck(r, v), ValidateCheck(r, v, values));
  }

  /** Four checks in a row: the first that reports a message wins. */
  lemma FirstFailureOfFour(a: Option<string>, b: Option<string>, c: Option<string>, d: Option<string>)
    ensures FirstFailure([a, b, c, d]) == if a.Some? then a else if b.Some? then b else if c.Some? then c else d
  {
    var checks := [a, b, c, d];
    assert checks[1..] == [b, c, d];
    assert checks[1..][1..] == [c, d];
    assert checks[1..][1..][1..] == [d];
    assert checks[1..][1..][1..][1..] == [];
    assert FirstFailure(checks[1..][1..][1..]) == d;
    assert FirstFailure(checks[1..][1..]) == if c.Some? then c else d;
    assert FirstFailure(checks[1..]) == if b.Some? then b else if c.Some? then c else d;
  }

  /** Without a rule there is never an error. */
  lemma NoRuleNoError(v: Value, values: Values)
    ensures GetError(None, v, values) == None
  {
  }

  /** A truthy `required` on a missing value reports its message and no later check runs. */
  lemma RequiredShortCircuits(r: Rule, v: Value, values: Values)
    requires RequiredActive(r) && IsMissing(v)
    ensures GetError(Some(r), v, values) ==
      Some(if r.required.value.RequiredMessage? then r.required.value.message else RequiredDefault)
  {
  }

  /** A value that is present never fails `required`; only the later checks can report. */
  lemma PresentValuePassesRequired(r: Rule, v: Value, values: Values)
    requires !IsMissing(v)
    ensures GetError(Some(r), v, values) == FirstFailure([MaxLengthCheck(r, v), PatternCheck(r, v), ValidateCheck(r, v, values)])
  {
    GetErrorIsFirstFailingCheck(r, v, values);
  }

  /** maxLength fires exactly when a string is strictly longer than the limit (and a numeric 0 switches it off). */
  lemma MaxLengthBoundary(r: Rule, s: string)
    requires r.maxLength.Some?
    ensures MaxLengthCheck(r, Text(s)).Some? <==>
      (r.maxLength.value.MaxLengthObject? || r.maxLength.value.limit != 0) && JsLength(s) > r.maxLength.value.limit
    ensures JsLength(s) == r.maxLength.value.limit ==> MaxLengthCheck(r, Text(s)) == None
  {
  }

  /** The empty string never fails `pattern`, and a non-empty one fails it exactly when the test rejects it. */
  lemma PatternSkipsEmpty(r: Rule, s: string)
    requires r.pattern.Some?
    ensures s == "" ==> PatternCheck(r, Text(s)) == None
    ensures s != "" ==> (PatternCheck(r, Text(s)).Some? <==> !r.pattern.value.test(s))
  {
  }

  /** JavaScript truthiness of a message: `""` counts as no error. */
  predicate IsReported(m: Option<string>) {
    m.Some? && m.value != ""
  }

  /** `validate(name)` or `validate([names])`: a single name is a one-element list. */
  datatype FieldNames = One(name: string) | Many(names: seq<string>)

  function NameList(f: FieldNames): (names: seq<string>)
    ensures f.One? ==> names == [f.name]
    ensures f.Many? ==> names == f.names
  {
    match f
    case One(n) => [n]
    case Many(ns) => ns
  }

  /** The error `getError` finds for field `name` under the registered rules and current values. */
  function FieldError(rules: map<string, Rule>, values: Values, name: string): Option<string> {
    GetError(if name in rules then Some(rules[name]) else None, Lookup(values, name), values)
  }

  /** The error map after one validation pass over `names`, in order, starting from `errors`. */
  function ApplyValidation(errors: map<string, string>, rules: map<string, Rule>, values: Values, names: seq<string>): map<string, string>
    decreases |names|
  {
    if names == [] then errors
    else
      var m := FieldError(rules, values, names[0]);
      var next := if IsReported(m) then errors[names[0] := m.value] else errors - {names[0]};
      ApplyValidation(next, rules, values, names[1..])
  }

  /**
   * A validation pass sets a named field's entry exactly when its rule reports a message,
   * removes it otherwise, and leaves the entries of fields it does not name as they were.
   */
  lemma {:induction false} ApplyValidationSpec(errors: map<string, string>, rules: map<string, Rule>, values: Values, names: seq<string>)
    ensures var r := ApplyValidation(errors, rules, values, names);
      && (forall n :: n in names ==> (n in r <==> IsReported(FieldError(rules, values, n))))
      && (forall n :: n in names && n in r ==> r[n] == FieldError(rules, values, n).value)
      && (forall n :: n !in names ==> (n in r <==> n in errors))
      && (forall n :: n !in names && n in r ==> r[n] == errors[n])
    decreases |names|
  {
    if names != [] {
      var m := FieldError(rules, values, names[0]);
      var next := if IsReported(m) then errors[names[0] := m.value] else errors - {names[0]};
      ApplyValidationSpec(next, rules, values, names[1..]);
      assert forall n :: n in names <==> n == names[0] || n in names[1..];
    }
  }

  /** Validating the same fields again with unchanged values and rules changes nothing. */
  lemma ApplyValidationIdempotent(errors: map<string, string>, rules: map<string, Rule>, values: Values, names: seq<string>)
    ensures var once := ApplyValidation(errors, rules, values, names);
      ApplyValidation(once, rules, values, names) == once
  {
    var once := ApplyValidation(errors, rules, values, names);
    var twice := ApplyValidation(once, rules, values, names);
    ApplyValidationSpec(errors, rules, values, names);
    ApplyValidationSpec(once, rules, values, names);
    assert twice.Keys == once.Keys;
  }

  /**
   * The loop of `validate`: copy the error map, set or delete the entry of each
   * named field, then report whether none of the named fields has an entry.
   */
  method NextErrors(errors: map<string, string>, rules: map<string, Rule>, values: Values, names: seq<string>)
    returns (nextErrors: map<string, string>, allValid: bool)
    ensures nextErrors == ApplyValidation(errors, rules, values, names)
    ensures allValid <==> forall n :: n in names ==> n !in nextErrors
  {
    nextErrors := errors;
    var i := 0;
    while i < |names|
      invariant 0 <= i <= |names|
      invariant ApplyValidation(nextErrors, rules, values, names[i..]) == ApplyValidation(errors, rules, values, names)
    {
      var name := names[i];
      var message := FieldError(rules, values, name);
      if IsReported(message) {
        nextErrors := nextErrors[name := message.value];
      } else {
        nextErrors := nextErrors - {name};
      }
      assert names[i..][1..] == names[i + 1..];
      i := i + 1;
    }
    allValid := true;
    var j := 0;
    while j < |names|
      invariant 0 <= j <= |names|
      invariant allValid <==> forall k :: 0 <= k < j ==> names[k] !in nextErrors
    {
      if names[j] in nextErrors {
        allValid := false;
      }
      j := j + 1;
    }
  }

  /** `register(name, rule)` stores the rule only when one is given and none is stored yet. */
  function Registered(rules: map<string, Rule>, name: string, rule: Option<Rule>): (r: map<string, Rule>)
    ensures name in rules ==> r == rules
    ensures rule.None? ==> r == rules
    ensures name !in rules && rule.Some? ==> r == rules[name := rule.value]
  {
    if rule.Some? && name !in rules then rules[name := rule.value] else rules
  }

  /** The parts of `event.target` the change handler reads. */
  datatype InputTarget = InputTarget(inputType: string, value: string, checked: bool, files: seq<FileInfo>)

  /** The value `onChange` writes for field value `current` and event target `target`. */
  function NextValue(current: Value, target: InputTarget): Value {
    if target.inputType == "checkbox" then
      var currentValues := if current.List? then current.items else [];
      if target.checked then List(Dedup(currentValues + [target.value]))
      else List(RemoveAll(currentValues, target.value))
    else if target.inputType == "file" then FileList(target.files)
    else Text(target.value)
  }

  /** Checking a box puts its value in the list once and keeps every other entry, without duplicates. */
  lemma CheckboxChecked(current: Value, v: string, files: seq<FileInfo>)
    ensures var next := NextValue(current, InputTarget("checkbox", v, true, files));
      && next.List? && v in next.items && NoDuplicates(next.items)
      && (forall x :: x != v ==> (x in next.items <==> current.List? && x in current.items))
  {
    var currentValues := if current.List? then current.items else [];
    var items := Dedup(currentValues + [v]);
    assert NextValue(current, InputTarget("checkbox", v, true, files)) == List(items);
    forall x | x != v ensures x in items <==> x in currentValues {
      assert x in currentValues + [v] <==> x in currentValues;
    }
  }

  /** Checking a new box on a duplicate-free list appends the value at the end. */
  lemma CheckboxCheckedAppends(xs: seq<string>, v: string, files: seq<FileInfo>)
    requires NoDuplicates(xs) && v !in xs
    ensures NextValue(List(xs), InputTarget("checkbox", v, true, files)) == List(xs + [v])
  {
    AppendFreshKeepsDistinct(xs, v);
    DedupOfDistinct(xs + [v]);
  }

  /** Unchecking removes every occurrence of the value and nothing else. */
  lemma CheckboxUnchecked(current: Value, v: string, files: seq<FileInfo>)
    ensures var next := NextValue(current, InputTarget("checkbox", v, false, files));
      && next.List? && v !in next.items
      && (forall x :: x != v ==> (x in next.items <==> current.List? && x in current.items))
  {
  }

  /** Checking and then unchecking the same new box restores the original list. */
  lemma CheckboxToggleRestores(xs: seq<string>, v: string, files: seq<FileInfo>)
    requires NoDuplicates(xs) && v !in xs
    ensures var checked := NextValue(List(xs), InputTarget("checkbox", v, true, files));
      NextValue(checked, InputTarget("checkbox", v, false, files)) == List(xs)
  {
    CheckboxCheckedAppends(xs, v, files);
    RemoveAllAfterAppend(xs, v);
  }

  /** A file input stores its FileList; any other non-checkbox input stores its text. */
  lemma NonCheckboxInputs(current: Value, target: InputTarget)
    requires target.inputType != "checkbox"
    ensures NextValue(current, target) == if target.inputType == "file" then FileList(target.files) else Text(target.value)
  {
  }

  /**
   * `useForm`: the value map, the error map and the rule cache. `ruleOrder` is the
   * insertion order of the rule cache, which `Object.keys` returns.
   */
  class FormController {
    var values: Values
    var errors: map<string, string>
    var rules: map<string, Rule>
    var ruleOrder: seq<string>

    ghost predicate Valid()
      reads this
    {
      NoDuplicates(ruleOrder) && (forall n :: n in ruleOrder <==> n in rules)
    }

    constructor (defaultValues: Values)
      ensures Valid()
      ensures values == defaultValues && errors == map[] && rules == map[] && ruleOrder == []
    {
      values := defaultValues;
      errors := map[];
      rules := map[];
      ruleOrder := [];
    }

    /** The rule half of `register(name, rule)`; its handlers are `OnBlur` and `OnChange`. */
    method Register(name: string, rule: Option<Rule>)
      requires Valid()
      modifies this
      ensures Valid()
      ensures rules == Registered(old(rules), name, rule)
      ensures ruleOrder == if rule.Some? && name !in old(rules) then old(ruleOrder) + [name] else old(ruleOrder)
      ensures values == old(values) && errors == old(errors)
    {
      if rule.Some? && name !in rules {
        AppendFreshKeepsDistinct(ruleOrder, name);
        rules := rules[name := rule.value];
        ruleOrder := ruleOrder + [name];
      }
    }

    /** `validate(fieldNames)`: one pass over the named fields; true iff none of them has an error. */
    method Validate(fieldNames: FieldNames) returns (allValid: bool)
      modifies this`errors
      ensures errors == ApplyValidation(old(errors), rules, values, NameList(fieldNames))
      ensures allValid <==> forall n :: n in NameList(fieldNames) ==> !IsReported(FieldError(rules, values, n))
    {
      var names := NameList(fieldNames);
      var nextErrors;
      nextErrors, allValid := NextErrors(errors, rules, values, names);
      ApplyValidationSpec(errors, rules, values, names);
      errors := nextErrors;
    }

    /** `trigger(fieldNames)`: the same pass as `validate`; its promise only wraps the result. */
    method Trigger(fieldNames: FieldNames) returns (allValid: bool)
      modifies this`errors
      ensures errors == ApplyValidation(old(errors), rules, values, NameList(fieldNames))
      ensures allValid <==> forall n :: n in NameList(fieldNames) ==> !IsReported(FieldError(rules, values, n))
    {
      allValid := Validate(fieldNames);
    }

    /** `onBlur` of a registered field: validate that one field. */
    method OnBlur(name: string)
      modifies this`errors
      ensures errors == ApplyValidation(old(errors), rules, values, [name])
    {
      var _ := Validate(One(name));
    }

    /** `onChange`: write the next value of field `name`; nothing is validated. */
    method OnChange(name: string, target: InputTarget)
      modifies this`values
      ensures values == old(values)[name := NextValue(Lookup(old(values), name), target)]
    {
      values := values[name := NextValue(Lookup(values, name), target)];
    }

    /** `setValue(name, value)`: overwrite one field without validating. */
    method SetValue(name: string, value: Value)
      modifies this`values
      ensures values == old(values)[name := value]
    {
      values := values[name := value];
    }

    /**
     * `handleSubmit(onValid)(event)`: validate every field with a registered rule and
     * hand the values to `onValid` (returned here) only when all of them pass.
     */
    method HandleSubmit() returns (submitted: Option<Values>)
      requires Valid()
      modifies this`errors
      ensures errors == ApplyValidation(old(errors), rules, values, ruleOrder)
      ensures submitted.Some? <==> forall n :: n in rules ==> !IsReported(FieldError(rules, values, n))
      ensures submitted.Some? ==> submitted.value == values
    {
      var valid := Validate(Many(ruleOrder));
      submitted := if valid then Some(values) else None;
    }

    /** `useWatch({ control, name })`: the current value of one field. */
    function Watch(name: string): (v: Value)
      reads this
      ensures name in values ==> v == values[name]
      ensures name !in values ==> v == Undefined
    {
      Lookup(values, name)
    }
  }

  /**
   * With defaults `{ service: "Standard", addons: [] }`, `service` required and `addons`
   * registered without a rule, triggering both fields reports no error.
   */
  lemma TriggerServiceAndAddonsPasses()
    ensures var values := map["service" := Text("Standard"), "addons" := List([])];
      var rules := map["service" := Rule(Some(RequiredFlag(true)), None, None, None)];
      ApplyValidation(map[], rules, values, ["service", "addons"]) == map[]
  {
    var values := map["service" := Text("Standard"), "addons" := List([])];
    var rules := map["service" := Rule(Some(RequiredFlag(true)), None, None, None)];
    assert FieldError(rules, values, "service") == None;
    assert FieldError(rules, values, "addons") == None;
    assert ["service", "addons"][1..] == ["addons"];
  }
}
