# bitterroot-sound order and player logic, in Dafny

This project models the logic of the bitterroot-sound site's song-ordering pages.

- **The form-state library** (`src/lib/react-hook-form.js`):
  - the rule evaluator `getError`;
  - the first-registration-wins rule cache;
  - the `onChange` handler for checkbox, file and text inputs;
  - the controller that keeps the value and error maps (`validate`, `trigger`, `setValue`, `handleSubmit`, `useWatch`).
- **The four-step order wizard** (`OrderForm.jsx`):
  - the field rules of each step and the e-mail pattern;
  - the voice-sample validator;
  - the step gate (`nextStep`/`prevStep`);
  - the price total;
  - the pre-fill from the page's `service` and `addons` query parameters.
- **The pricing calculator** (`PricingCalculator.jsx`): add-on toggling, the fallback service, the total and the order link.
- **The sample-track player** (`AudioPlayer.jsx`): the clock text, reading catalog durations, and wrap-around playlist navigation.

## Modules

- `Wrappers`: `Option`, which stands for `undefined`/`null` results.
- `JsStrings`: the JavaScript string behaviour the code relies on:
  - `trim` and the `\s` character class;
  - `split` on one character and `join`;
  - `padStart`;
  - integer `toString`, and `Number()` on integer text;
  - `length` in UTF-16 code units.
- `JsArrays`: `new Set(...)` spread back to an array, and `filter(y => y !== x)`.
- `Catalog`: the service and add-on catalogs, with `find`, `filter` by selected names, and the price `reduce`.
- `UrlQuery`: `URLSearchParams` `set`, `toString`, parsing and `get`. Percent-encoding is a pair of abstract functions.
- `ReactHookForm`: rules, `GetError`, a validation pass (`ApplyValidation`, computed by the loop method `NextErrors`), the change handler, and the `FormController` class.
- `OrderForm`: the rules, the matchers for the two regular expressions, the voice-sample validator, totals, the query pre-fill and the `OrderWizard` class.
- `PricingCalculator`: toggling, `selectedService`, the total and `buildOrderLink`.
- `OrderLink`: following the calculator's link pre-fills the order form with the same service and add-ons, and the same total.
- `AudioPlayer`: `formatTime`, `durationToSeconds`, the index arithmetic, and the `Player` class.

Every source file path below is relative to the repository root.

## Model

| member | source | states |
|---|---|---|
| ReactHookForm.GetError | bitterroot-sound/src/lib/react-hook-form.js:3-28 | The rule evaluator itself, with the source's early returns. Its properties are the lemmas below, chiefly GetErrorIsFirstFailingCheck, which compares it with four separately defined checks. |
| ReactHookForm.GetErrorIsFirstFailingCheck | bitterroot-sound/src/lib/react-hook-form.js:3-28 | getError returns the first message of four checks in the order required, maxLength, pattern, validate. Each check is defined on its own; when all pass the result is no error. |
| ReactHookForm.FirstFailure | bitterroot-sound/src/lib/react-hook-form.js:3-28 | The result is the message of a check at some position where every earlier check passed, so it is the first failing check's message. There is no message exactly when every check passes. |
| ReactHookForm.NoRuleNoError | bitterroot-sound/src/lib/react-hook-form.js:4 | A field without a rule never has an error. |
| ReactHookForm.RequiredShortCircuits | bitterroot-sound/src/lib/react-hook-form.js:5-13 | A truthy `required` on undefined, null, "", an empty list or an empty FileList gives the rule's string, else "This field is required.". No later check runs. |
| ReactHookForm.PresentValuePassesRequired | bitterroot-sound/src/lib/react-hook-form.js:5-27 | A present value never fails `required`. The result is the first failure of maxLength, pattern and validate. |
| ReactHookForm.MaxLengthBoundary | bitterroot-sound/src/lib/react-hook-form.js:15-18 | maxLength reports exactly when the string's UTF-16 length is strictly above the limit and maxLength is truthy; a number 0 is switched off. A length equal to the limit passes. |
| ReactHookForm.PatternSkipsEmpty | bitterroot-sound/src/lib/react-hook-form.js:19-22 | The pattern never fails "". A non-empty string fails it exactly when the test rejects it. |
| ReactHookForm.NameList | bitterroot-sound/src/lib/react-hook-form.js:36 | A single field name is validated as a one-element list; a list is used as given. |
| ReactHookForm.ApplyValidation | bitterroot-sound/src/lib/react-hook-form.js:35-50 | One validation pass over the named fields in order, as a function of the old errors, rules and values. ApplyValidationSpec and ApplyValidationIdempotent state its meaning, and NextErrors is proved to compute it. |
| ReactHookForm.ApplyValidationSpec | bitterroot-sound/src/lib/react-hook-form.js:35-50 | After a pass, a named field has an error entry exactly when getError gives it a non-empty message, and the entry is that message. Entries of fields not named are unchanged. |
| ReactHookForm.ApplyValidationIdempotent | bitterroot-sound/src/lib/react-hook-form.js:35-50 | Validating the same fields again with unchanged values and rules leaves the errors as they are. |
| ReactHookForm.NextErrors | bitterroot-sound/src/lib/react-hook-form.js:37-49 | The loop that sets and deletes entries computes the validation pass. Its boolean is true exactly when no named field has an entry afterwards. |
| ReactHookForm.Registered | bitterroot-sound/src/lib/react-hook-form.js:52-55 | A rule is stored only when one is given and the name has none yet. A stored rule is never replaced. |
| ReactHookForm.NextValue | bitterroot-sound/src/lib/react-hook-form.js:60-74 | The value the change handler writes for a checkbox, file or other input. The Checkbox lemmas and NonCheckboxInputs state what it gives. |
| ReactHookForm.CheckboxChecked | bitterroot-sound/src/lib/react-hook-form.js:64-67 | Checking a box yields a duplicate-free list that holds the value and exactly the other entries of the current list. A current value that is not a list counts as []. |
| ReactHookForm.CheckboxCheckedAppends | bitterroot-sound/src/lib/react-hook-form.js:66-67 | Checking a new box on a duplicate-free list appends the value at the end. |
| ReactHookForm.CheckboxUnchecked | bitterroot-sound/src/lib/react-hook-form.js:68 | Unchecking removes every occurrence of the value and keeps every other entry. |
| ReactHookForm.CheckboxToggleRestores | bitterroot-sound/src/lib/react-hook-form.js:64-68 | Checking and then unchecking a new box restores the original list. |
| ReactHookForm.NonCheckboxInputs | bitterroot-sound/src/lib/react-hook-form.js:62-71 | A file input stores its FileList. Any other non-checkbox input stores its text value. |
| ReactHookForm.FormController.constructor | bitterroot-sound/src/lib/react-hook-form.js:30-33 | The values start as the defaults; the errors and the rule cache start empty. |
| ReactHookForm.FormController.Register | bitterroot-sound/src/lib/react-hook-form.js:52-55 | The rule cache becomes `Registered(old cache, name, rule)`. A newly stored name goes to the end of the registration order, and values and errors are unchanged. |
| ReactHookForm.FormController.Validate | bitterroot-sound/src/lib/react-hook-form.js:35-50 | The errors become the validation pass over the names. The result is true exactly when no named field reports a message. |
| ReactHookForm.FormController.Trigger | bitterroot-sound/src/lib/react-hook-form.js:82 | The same effect and result as `validate`. |
| ReactHookForm.FormController.OnBlur | bitterroot-sound/src/lib/react-hook-form.js:59 | Blur validates that one field. |
| ReactHookForm.FormController.OnChange | bitterroot-sound/src/lib/react-hook-form.js:60-74 | Only field `name` changes, to the next value of the change handler; nothing is validated. |
| ReactHookForm.FormController.SetValue | bitterroot-sound/src/lib/react-hook-form.js:78-80 | Only field `name` changes, to the given value; nothing is validated. |
| ReactHookForm.FormController.HandleSubmit | bitterroot-sound/src/lib/react-hook-form.js:84-88 | Exactly the registered fields are validated. The values are handed on exactly when every registered field passes. |
| ReactHookForm.FormController.Watch | bitterroot-sound/src/lib/react-hook-form.js:100-102 | The current value of the field, or undefined when it has none. |
| ReactHookForm.TriggerServiceAndAddonsPasses | bitterroot-sound/src/lib/react-hook-form.js:35-50 | A required, filled-in service and an add-on list without a rule both pass: the error map stays empty. |
| JsArrays.Dedup | bitterroot-sound/src/lib/react-hook-form.js:67 | `Array.from(new Set(xs))` has no duplicates and the same elements as `xs`. |
| JsArrays.DedupKeepsFirstOccurrenceOrder | bitterroot-sound/src/components/OrderForm.jsx:85 | The elements of `[...new Set(xs)]` appear in the order of their first occurrence in `xs`. |
| JsArrays.DedupOfDistinct | bitterroot-sound/src/components/OrderForm.jsx:85 | A list without duplicates passes through a Set unchanged. |
| JsArrays.RemoveAll | bitterroot-sound/src/lib/react-hook-form.js:68 | `filter(y => y !== x)` holds no `x` and every other element of the list. A list without `x` is returned unchanged. |
| JsArrays.RemoveAllKeepsDistinct | bitterroot-sound/src/components/PricingCalculator.jsx:63 | Filtering out a name keeps a duplicate-free list duplicate-free. |
| JsArrays.RemoveAllAfterAppend | bitterroot-sound/src/components/PricingCalculator.jsx:62-64 | Filtering out a name that was just appended to a list without it gives the list back. |
| JsArrays.AppendFreshKeepsDistinct | bitterroot-sound/src/components/PricingCalculator.jsx:64 | Appending an absent name keeps a list duplicate-free. |
| JsStrings.JsLengthOfBmp | bitterroot-sound/src/lib/react-hook-form.js:17 | A string without astral characters has a JavaScript length equal to its number of characters. |
| JsStrings.JsLengthOfAstral | bitterroot-sound/src/lib/react-hook-form.js:17 | One astral character makes the JavaScript length exceed the number of characters. |
| JsStrings.Trim | bitterroot-sound/src/components/OrderForm.jsx:81 | `trim` as `trimStart` then `trimEnd`, over the whitespace and line-terminator characters. TrimResult states its meaning. |
| JsStrings.TrimResult | bitterroot-sound/src/components/OrderForm.jsx:81 | `trim` removes only whitespace, and only at the two ends. The result is a slice of the input whose cut-off head and tail are all whitespace, and it neither starts nor ends with whitespace; together these fix it. An already trimmed string is left alone. |
| JsStrings.Split | bitterroot-sound/src/components/OrderForm.jsx:80 | `split` on one character gives at least one part. No part holds the separator, and joining the parts with it gives the input back. |
| JsStrings.SplitJoin | bitterroot-sound/src/components/OrderForm.jsx:80 | Splitting the join of separator-free parts gives the parts back. |
| JsStrings.NatToString | bitterroot-sound/src/components/AudioPlayer.jsx:9 | The decimal text of a number is non-empty digits without whitespace, `:` or `,`. It has no leading zero, and it is "0" exactly for 0. |
| JsStrings.DigitsValueOfNatToString | bitterroot-sound/src/components/AudioPlayer.jsx:9 | Reading back the decimal text of `n` gives `n`. |
| JsStrings.PadStartZero | bitterroot-sound/src/components/AudioPlayer.jsx:9 | `padStart(width, '0')` is the text preceded by zeros, up to at least `width` characters. |
| JsStrings.PadStartZeroValue | bitterroot-sound/src/components/AudioPlayer.jsx:9 | Zero padding keeps the text digits and keeps its value. |
| JsStrings.ToNumber | bitterroot-sound/src/components/AudioPlayer.jsx:13 | `Number(text)` as a JavaScript number that may be NaN or an infinity. The lemmas after it give its readings. |
| JsStrings.ToNumberOfDigits | bitterroot-sound/src/components/AudioPlayer.jsx:13 | `Number` of non-empty decimal digits is their value. |
| JsStrings.ToNumberOfBlank | bitterroot-sound/src/components/AudioPlayer.jsx:13 | `Number` of blank text is 0. |
| JsStrings.ToNumberOfInfinity | bitterroot-sound/src/components/AudioPlayer.jsx:13 | `Number` reads "Infinity" and "+Infinity" as +Infinity and "-Infinity" as -Infinity, ignoring surrounding whitespace. |
| Catalog.Find | bitterroot-sound/src/components/OrderForm.jsx:92 | `find` by name gives nothing exactly when no entry has the name; otherwise a catalog entry with that name. |
| Catalog.FindIsFirst | bitterroot-sound/src/components/OrderForm.jsx:92 | `find` gives the earliest entry with the name. |
| Catalog.SelectedDetails | bitterroot-sound/src/components/OrderForm.jsx:93 | Each catalog entry whose name is selected occurs in the result as often as in the catalog; no other entry occurs. |
| Catalog.SelectedDetailsAppend | bitterroot-sound/src/components/OrderForm.jsx:93 | The filter keeps catalog order: filtering a concatenation gives the two filtered parts, concatenated. |
| Catalog.SelectedDetailsOfOne | bitterroot-sound/src/components/OrderForm.jsx:93 | A single entry is kept exactly when its name is selected. With SelectedDetailsAppend this fixes the result entry by entry. |
| Catalog.SelectionIsASet | bitterroot-sound/src/components/OrderForm.jsx:93 | The filtered entries depend only on which catalog names are in the selection, not on its order or repetitions. |
| Catalog.UnknownNameIgnored | bitterroot-sound/src/components/OrderForm.jsx:93 | A selected name that no catalog entry has changes nothing. |
| Catalog.RepeatedNameCountedOnce | bitterroot-sound/src/components/OrderForm.jsx:93 | Removing repeated names from the selection changes nothing. |
| Catalog.SelectingAddsPrice | bitterroot-sound/src/components/OrderForm.jsx:96 | Adding a new name to the selection raises the sum of prices by the prices of the entries with that name. |
| Catalog.NamedInDistinctCatalog | bitterroot-sound/src/components/PricingCalculator.jsx:39 | In a catalog without repeated names, the entries with a name are just the one `find` returns. |
| Catalog.SelectedNamesDistinct | bitterroot-sound/src/components/PricingCalculator.jsx:70 | The names of the add-ons picked from such a catalog are distinct. |
| UrlQuery.SetParam | bitterroot-sound/src/components/PricingCalculator.jsx:16 | `set` of a key not yet present appends the pair. |
| UrlQuery.ParseSerialize | bitterroot-sound/src/components/OrderForm.jsx:70 | Parsing `"?" + params.toString()` gives the same pairs back. |
| PricingCalculator.ToggleAddon | bitterroot-sound/src/components/PricingCalculator.jsx:60-66 | The state update of `toggleAddon`. The three Toggle lemmas state its effect. |
| PricingCalculator.ToggleAddonEffect | bitterroot-sound/src/components/PricingCalculator.jsx:60-66 | Toggling an absent name appends it at the end. Toggling a present one removes all its occurrences and keeps every other name. |
| PricingCalculator.ToggleTwiceRestores | bitterroot-sound/src/components/PricingCalculator.jsx:60-66 | Toggling an absent name twice gives the original list. |
| PricingCalculator.ToggleKeepsDistinct | bitterroot-sound/src/components/PricingCalculator.jsx:60-66 | Every toggle keeps the selection free of repeated names. |
| PricingCalculator.SelectedService | bitterroot-sound/src/components/PricingCalculator.jsx:33-36 | The chosen service is the catalog entry with the name, else the first entry. It is undefined only for an empty catalog. |
| PricingCalculator.CalculatorTotal | bitterroot-sound/src/components/PricingCalculator.jsx:33-45 | The calculator total. CalculatorTotalSpec and ToggleOnAddsPrice state its value. |
| PricingCalculator.CalculatorTotalSpec | bitterroot-sound/src/components/PricingCalculator.jsx:38-45 | The total is the chosen service's price (0 without services) plus the prices of the selected catalog add-ons. |
| PricingCalculator.ToggleOnAddsPrice | bitterroot-sound/src/components/PricingCalculator.jsx:38-66 | In a catalog without repeated names, toggling a new add-on on raises the total by its price; an unknown name adds 0. |
| PricingCalculator.OrderParams | bitterroot-sound/src/components/PricingCalculator.jsx:13-21 | The parameters `buildOrderLink` sets. OrderParamsLayout states their layout. |
| PricingCalculator.OrderParamsLayout | bitterroot-sound/src/components/PricingCalculator.jsx:13-21 | The link's parameters are `service` (when there is a name), then `addons` (when there are add-ons), with the names joined by commas. |
| PricingCalculator.OrderLink | bitterroot-sound/src/components/PricingCalculator.jsx:12-25 | The link text as a function. BuildOrderLink computes it, and LinkQueryRoundTrip reads it back. |
| PricingCalculator.BuildOrderLink | bitterroot-sound/src/components/PricingCalculator.jsx:12-25 | The link is "/order" exactly when there is no service name and no add-on. Otherwise it is "/order?" and the serialized parameters. |
| PricingCalculator.OrderLinkIsBare | bitterroot-sound/src/components/PricingCalculator.jsx:12-25 | The link is "/order" with no query exactly when there is no service name and no add-on. |
| PricingCalculator.CalculatorOrderLink | bitterroot-sound/src/components/PricingCalculator.jsx:68-71 | `orderHref` for the calculator's choice. It is bare "/order" exactly when no service with a name is chosen and no catalog add-on is selected; otherwise it starts with "/order?". |
| PricingCalculator.OrderLinkIgnoresClickOrder | bitterroot-sound/src/components/PricingCalculator.jsx:68-71 | Two selections with the same names give the same link, whatever order the boxes were clicked in. |
| OrderForm.EmailMatchesIffParts | bitterroot-sound/src/components/OrderForm.jsx:342 | The e-mail matcher accepts exactly `local@domain.tld` with three non-empty runs of characters that are neither whitespace nor `@`. |
| OrderForm.EmailEmptyIsRequired | bitterroot-sound/src/components/OrderForm.jsx:339-345 | An empty e-mail gets "Please enter your email.". |
| OrderForm.EmailPatternMessage | bitterroot-sound/src/components/OrderForm.jsx:339-345 | A non-empty address that does not match gets "Please enter a valid email address."; one that matches gets no error. |
| OrderForm.NotAnEmail | bitterroot-sound/src/components/OrderForm.jsx:339-345 | "not-an-email" gets the pattern's message. |
| OrderForm.OccasionLengthLimit | bitterroot-sound/src/components/OrderForm.jsx:179-182 | A non-empty occasion of at most 500 UTF-16 units passes. A longer one gets "Please keep this to 500 characters or less.". |
| OrderForm.VoiceSampleCheck | bitterroot-sound/src/components/OrderForm.jsx:276-296 | The body of the voice-sample `validate` callback, for the service it compares against. VoiceSampleOrder gives its branches. |
| OrderForm.VoiceSampleOrder | bitterroot-sound/src/components/OrderForm.jsx:276-296 | For its service value and a FileList, the validator gives, in order: true when the service is not Voice Clone; the missing message for no files; the type message exactly when the MIME type is not allowed and the name has no .mp3/.wav ending; then the size message above 50·1024·1024 bytes; else true. |
| OrderForm.UpperCaseWavAccepted | bitterroot-sound/src/components/OrderForm.jsx:287 | The extension test ignores case: "TAKE1.WAV" with an unknown MIME type is accepted. |
| OrderForm.StaleVoiceSampleRuleBlocksStepThree | bitterroot-sound/src/components/OrderForm.jsx:275-297 | As written, rendering step 3 under Voice Clone stores a rule that compares against Voice Clone for good. With no sample chosen, whatever service the form holds later, that rule reports the missing sample and step 3's validation keeps the error. |
| OrderForm.VoiceSampleRuleFollowsService | bitterroot-sound/src/components/OrderForm.jsx:276-296 | The corrected rule reports nothing unless the form's current service is Voice Clone; then it reports the validator's message. |
| OrderForm.IntendedRuleUnblocksStepThree | bitterroot-sound/src/components/OrderForm.jsx:267-297 | Had the same render registered the corrected rule, step 3 would report no voice-sample error once the service is not Voice Clone. |
| OrderForm.RenderedFields | bitterroot-sound/src/components/OrderForm.jsx:141-346 | The `register` calls of each step's markup, in order: one service rule per catalog radio, the step-2 rules, one rule-less call per add-on checkbox and, under Voice Clone, the voice-sample rule closing over that render's service. StepOneRules and StepThreeRules state what they store. |
| OrderForm.StepOneRules | bitterroot-sound/src/components/OrderForm.jsx:145-166 | Step 1 stores the service rule when the catalog has a service, and no rule for an empty catalog. |
| OrderForm.EmptyCatalogStepOnePasses | bitterroot-sound/src/components/OrderForm.jsx:101-106 | With an empty service catalog step 1 has no rule, so its validation passes and leaves no service error. |
| OrderForm.StepThreeRules | bitterroot-sound/src/components/OrderForm.jsx:249-297 | Step 3 under Voice Clone stores exactly the voice-sample rule; the add-on checkboxes store none. |
| OrderForm.RegisteredAllKeepsFirst | bitterroot-sound/src/lib/react-hook-form.js:52-55 | Over any run of `register` calls, stored rules are never replaced. Every field registered with a rule ends up with one, and nothing else gets one. |
| OrderForm.RegisteredAllAppend | bitterroot-sound/src/lib/react-hook-form.js:52-55 | Registering two runs of calls is registering the first run and then the second. |
| OrderForm.RegisteredAllWithoutRules | bitterroot-sound/src/lib/react-hook-form.js:52-55 | Calls without a rule leave the rule cache unchanged. |
| OrderForm.OrderTotal | bitterroot-sound/src/components/OrderForm.jsx:92-97 | `basePrice + addonsPrice` as a function of the watched service and add-ons. OrderTotalSpec states its value. |
| OrderForm.OrderTotalSpec | bitterroot-sound/src/components/OrderForm.jsx:92-97 | The total is the named service's price (0 when unknown) plus the selected catalog add-ons. Unknown and repeated add-on names add nothing. |
| OrderForm.ServiceFromQuery | bitterroot-sound/src/components/OrderForm.jsx:74-76 | The `service` parameter is applied exactly when it is non-empty and names a catalog service, and then as given. |
| OrderForm.DecodeTrimmed | bitterroot-sound/src/components/OrderForm.jsx:81 | Each item is decoded after trimming, position by position. |
| OrderForm.KeepCatalogNames | bitterroot-sound/src/components/OrderForm.jsx:82 | Exactly the items that name a catalog add-on are kept, each as often as it occurs. KeepCatalogNamesAppend and KeepCatalogNamesOfOne fix their order. |
| OrderForm.KeepCatalogNamesAppend | bitterroot-sound/src/components/OrderForm.jsx:82 | The filter keeps the URL's order: filtering two runs of items one after the other gives the two filtered runs one after the other. |
| OrderForm.KeepCatalogNamesOfOne | bitterroot-sound/src/components/OrderForm.jsx:82 | One item is kept exactly when it names a catalog add-on. |
| OrderForm.AddonsFromUrl | bitterroot-sound/src/components/OrderForm.jsx:79-82 | `fromUrl` holds exactly the catalog add-on names that some comma-separated part of the parameter gives once trimmed and decoded, and has no more entries than there are parts. |
| OrderForm.AddonsFromUrlOfJoinedNames | bitterroot-sound/src/components/OrderForm.jsx:79-82 | Catalog names joined by commas come back out of split, trim, decode and filter in the same order, when they have no comma, no outer whitespace and nothing to decode. |
| OrderForm.AddonsFromQuery | bitterroot-sound/src/components/OrderForm.jsx:78-87 | `addons` is set only for a non-empty parameter with a non-empty filtered result. It is then `[...new Set(fromUrl)]`, which JsArrays.DedupKeepsFirstOccurrenceOrder puts in first-occurrence order: a duplicate-free list of exactly the filtered names, all catalog add-ons. |
| OrderForm.Prefilled | bitterroot-sound/src/components/OrderForm.jsx:65-90 | The values after the mount effect's `setValue` calls. PrefilledFromOrderParams and CalculatorLinkPrefillsOrderForm state what it gives for the calculator's links. |
| OrderForm.OrderWizard.constructor | bitterroot-sound/src/components/OrderForm.jsx:35-60 | The wizard starts at step 1. The form holds the default values (the first service's name, no add-ons, empty text) with no errors and no rules. |
| OrderForm.OrderWizard.NextStep | bitterroot-sound/src/components/OrderForm.jsx:101-106 | The current step's fields are validated. The step advances, capped at 4, exactly when all of them pass; otherwise it stays. |
| OrderForm.OrderWizard.PrevStep | bitterroot-sound/src/components/OrderForm.jsx:108 | The step goes back one, never below 1. |
| OrderForm.OrderWizard.RenderStep | bitterroot-sound/src/components/OrderForm.jsx:141-346 | Rendering a step makes the calls RenderedFields lists for the current step, service and catalogs, in markup order. That includes the voice-sample rule as written, closing over the current service. The rule order is the old order followed by the names these calls store, as NewlyRegistered lists them. Values and errors are unchanged. |
| OrderForm.NewlyRegistered | bitterroot-sound/src/lib/react-hook-form.js:52-55 | The names a run of `register` calls adds to the rule cache: exactly the ones it stores that were not there before, each once. |
| OrderForm.OrderWizard.PrefillFromQuery | bitterroot-sound/src/components/OrderForm.jsx:70-87 | The mount effect sets `service` and `addons` from the query as the pre-fill describes, without validating. Errors, rules and the rule order are unchanged. |
| OrderForm.OrderWizard.Total | bitterroot-sound/src/components/OrderForm.jsx:92-97 | The review step's total: OrderTotal of the watched service and add-ons. |
| OrderForm.OrderWizard.Submit | bitterroot-sound/src/components/OrderForm.jsx:136 | Values, rules and rule order are kept. The errors become one pass over the registered fields in rule order, and the form is submitted exactly when every field that had a rule before the call passes for the values it had before the call. |
| OrderLink.LinkQueryRoundTrip | bitterroot-sound/src/components/PricingCalculator.jsx:12-25 | The search part of the calculator's link parses back to the parameters it was built from. |
| OrderLink.PrefilledFromOrderParams | bitterroot-sound/src/components/OrderForm.jsx:70-87 | Pre-filling from the calculator's parameters sets the service, and sets the add-ons when there are any. |
| OrderLink.CalculatorLinkPrefillsOrderForm | bitterroot-sound/src/components/OrderForm.jsx:70-87 | For catalogs that meet LinkableCatalogs, following the calculator's link starts the order form with the calculator's service and, when any are selected, its add-ons in catalog order. LinkableCatalogs asks for a non-empty service catalog whose names are all non-empty, and for add-on names that are distinct, non-empty, free of commas and outer whitespace, and unchanged by decoding. An add-on named "Lyrics, extended", say, would be split on its comma and dropped. |
| OrderLink.PrefilledTotalMatchesCalculator | bitterroot-sound/src/components/OrderForm.jsx:92-97 | For catalogs that meet LinkableCatalogs and a form whose `addons` value starts as the empty list, the order form's total after that pre-fill equals the calculator's total. |
| AudioPlayer.WholeMinutes | bitterroot-sound/src/components/AudioPlayer.jsx:7 | `Math.floor(seconds / 60)` is the whole number of minutes within the time. |
| AudioPlayer.WholeSeconds | bitterroot-sound/src/components/AudioPlayer.jsx:8 | `Math.floor(seconds % 60)` is below 60. Minutes and seconds together are the whole seconds of the time. |
| AudioPlayer.FormatTime | bitterroot-sound/src/components/AudioPlayer.jsx:5-10 | "0:00" for a time that is not finite or is negative. Otherwise the text ends in a colon and two digits below 60. |
| AudioPlayer.SecondsFieldIsTwoDigits | bitterroot-sound/src/components/AudioPlayer.jsx:9 | A seconds count below 60 is shown as exactly two digits worth that count. |
| AudioPlayer.FormatTimeOfWholeSeconds | bitterroot-sound/src/components/AudioPlayer.jsx:7-9 | For whole seconds `n`, the text is `n / 60`, a colon and `n % 60` padded to two digits. |
| AudioPlayer.DurationToSeconds | bitterroot-sound/src/components/AudioPlayer.jsx:12-15 | A text without a colon reads as NaN. The duration is infinite only when its minutes field or its seconds field reads as an infinity. |
| AudioPlayer.DurationFieldsAreSplitParts | bitterroot-sound/src/components/AudioPlayer.jsx:13 | The fields read are the first two parts of `split(':')`. There is a second part exactly when the text has a colon. |
| AudioPlayer.MinutesAndSeconds | bitterroot-sound/src/components/AudioPlayer.jsx:14 | `mins * 60 + secs` in JavaScript arithmetic. It is finite exactly when both fields are, and then it is their value. It is NaN exactly when a field is NaN or infinities of opposite signs meet, and infinite only when a field is. |
| AudioPlayer.DurationOfMinutesAndSeconds | bitterroot-sound/src/components/AudioPlayer.jsx:12-15 | `"m:ss"` with digits on both sides reads as m·60 + ss seconds. |
| AudioPlayer.DurationWithoutColon | bitterroot-sound/src/components/AudioPlayer.jsx:13-14 | A text without a colon reads as NaN. |
| AudioPlayer.InfiniteMinutesField | bitterroot-sound/src/components/AudioPlayer.jsx:12-15 | An infinite minutes field makes the duration that infinity, unless the seconds field is NaN or the opposite infinity, which give NaN. |
| AudioPlayer.DurationOfInfinity | bitterroot-sound/src/components/AudioPlayer.jsx:12-15 | "Infinity:" followed by digits, such as "Infinity:00", reads as +Infinity. |
| AudioPlayer.FormatTimeReadsBack | bitterroot-sound/src/components/AudioPlayer.jsx:5-15 | Reading the clock text back gives the whole seconds it shows: the floor of a valid time, else 0. |
| AudioPlayer.ClockReadsBack | bitterroot-sound/src/components/AudioPlayer.jsx:9-14 | The clock text of `n` whole seconds reads back as `n`. |
| AudioPlayer.JsRemainder | bitterroot-sound/src/components/AudioPlayer.jsx:127 | JavaScript's `%` differs from the dividend by a multiple of the divisor. It takes the dividend's sign and stays below the divisor in magnitude; together these fix its value. |
| AudioPlayer.NextIndex | bitterroot-sound/src/components/AudioPlayer.jsx:127 | The next index stays in range and wraps from the last track to 0. |
| AudioPlayer.PrevIndex | bitterroot-sound/src/components/AudioPlayer.jsx:132 | The previous index stays in range and wraps from 0 to the last track. |
| AudioPlayer.PrevUndoesNext | bitterroot-sound/src/components/AudioPlayer.jsx:126-134 | Previous undoes next, and next undoes previous. |
| AudioPlayer.NextTimesIsOffset | bitterroot-sound/src/components/AudioPlayer.jsx:126-129 | Pressing next `k` times moves `k` places round the playlist. |
| AudioPlayer.Player.constructor | bitterroot-sound/src/components/AudioPlayer.jsx:18-19 | The first track is active and nothing plays. |
| AudioPlayer.Player.ActiveTrack | bitterroot-sound/src/components/AudioPlayer.jsx:25 | `tracks[activeTrackIndex]` is a track of the catalog: the index stays in range. |
| AudioPlayer.Player.FallbackDuration | bitterroot-sound/src/components/AudioPlayer.jsx:25-29 | `fallbackDuration`: DurationToSeconds of the active track's catalog duration. |
| AudioPlayer.Player.HandleTrackSelect | bitterroot-sound/src/components/AudioPlayer.jsx:116-124 | On the active track only play and pause toggle. Another track becomes active and plays. |
| AudioPlayer.Player.HandleNext | bitterroot-sound/src/components/AudioPlayer.jsx:126-129 | The next track, wrapping round, becomes active and plays. |
| AudioPlayer.Player.HandlePrevious | bitterroot-sound/src/components/AudioPlayer.jsx:131-134 | The previous track, wrapping round, becomes active and plays. |
| AudioPlayer.Player.TogglePlay | bitterroot-sound/src/components/AudioPlayer.jsx:179 | Play and pause toggle; the active track is unchanged. |

## Left out

- Sound playback is abstracted away. This covers Howler, the `requestAnimationFrame` progress loop, `handleSeek`, `progressPercent`, `totalDuration`, volume and `currentTime`. They hang on the browser's audio, geometry and clock.
- The framer-motion animation of the calculator total, `Intl.NumberFormat` currency text, and the progress percentage are left out. They are presentation only.
- Percent-encoding is not modelled. `URLSearchParams` serialization and `decodeURIComponent` are the parameters `encode`, `decode` and `decodeComponent`, and a `URIError` from malformed input is not modelled either.
- The two regular expressions are hand-written matchers: `EmailMatches` for the e-mail pattern and `HasAudioExtension` for `/\.(mp3|wav)$/i`. The regex engine itself is not modelled.
- React renders, effects and state updates are modelled as sequential, synchronous steps. The one closure whose capture matters, the voice-sample callback, takes the service of the render that registers it as a parameter (`VoiceSampleRuleAsWritten`), and the wizard registers it that way. The `async` of `trigger` and `nextStep` only wraps the result.
- `formRef.current.submit()` and `event.preventDefault()` are browser actions; `Submit` returns whether the submission happens.
- Lookups of JavaScript's inherited `Object.prototype` keys (a field named `constructor`, say) are not modelled; a missing key reads as `undefined`.
- `Object.keys` order is modelled as insertion order (`ruleOrder`), which is what JavaScript gives for non-numeric keys. Integer-like field names, which it lists first, do not occur.
- OrderForm.SelectedAddonNames: a non-list `addons` value reads as no selection. It is not modelled that `String.prototype.includes` would do a substring test.
- The calculator and player totals and times use unbounded integers and exact reals. Floating-point rounding is not modelled, nor the exponent form `toString` uses for very large minute counts.
- JsStrings.ToNumber: reads blank text, the `Infinity` literals and decimal integers with an optional sign. Fractions, exponents and hexadecimal read as NaN here, where `Number` would read them. Digit strings that overflow to Infinity or round when read as doubles are not modelled either.
- AudioPlayer.DurationToSeconds: a duration can come out infinite only from an `Infinity` field. In JavaScript, fields like `1e400` or a 400-digit number give Infinity too; the model reads the first as NaN and the second as its exact value.
- The service, add-on and track catalogs are JSON files that are not part of this model. They are parameters: services and add-ons with a name and a whole-dollar price, tracks with their `duration` text.
- AudioPlayer.Player.constructor: requires a non-empty track catalog, since the page reads `tracks[0].duration` while rendering and fails on an empty one.
- `ContactForm.jsx`, `scripts/generate-placeholder-audio.mjs` and `tailwind.config.mjs` are not part of this model. They are static markup, file I/O and styling.
- The `name` and `onBlur`/`onChange` handler object that `register` returns is split into `Register`, `OnBlur` and `OnChange`. The handlers act on the controller's current state.

## Findings

| source | as written | input that shows it | evidently intended | confidence | as-written member | corrected member |
|---|---|---|---|---|---|---|
| bitterroot-sound/src/components/OrderForm.jsx:275-297 | The voiceSample `validate` callback compares against the `selectedServiceName` of the render where it was created. `register` (react-hook-form.js:52-55) keeps only the first rule, from a render where Voice Clone was selected, so the "not Voice Clone" branch never runs. | Select Voice Clone and reach step 3, so the file input renders; go back and select Standard. Step 3's Next now reports "Voice sample is required for Voice Clone orders." for a field that is no longer shown, and the step cannot be passed without a sample. | The sample is required only while the form's current service is Voice Clone. | not executed | OrderForm.StaleVoiceSampleRuleBlocksStepThree | OrderForm.IntendedRuleUnblocksStepThree |
