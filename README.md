# use-form: a model of the form hook's controller and its rule sets

use-form is a React hook that keeps three maps keyed by field name:
`values`, `errors` (a message per field) and `valids` (true, false or
null per field). It hands back event handlers that update these maps and a
`validate`/`validateAll` pair that runs rules on them. This project models
the hook's controller and its built-in rules in Dafny:

- **`src/index.ts`, the current controller** (`Form.FormController`, with
  its specification functions in `FormSpec`). `values` is a module-level
  variable that `setValues` replaces at once, so a read after a write sees
  the new map. `errors` and `valids` are React state. Every handler reads
  the snapshot of the last render (`committed`). Each setter call replaces
  the pending state (`next`), so the last call of a setter wins. `Render`
  commits the pending state and builds the rule set `validation` again.
- **`index.ts`, the older hook with its rules inline** (`Legacy.LegacyForm`,
  specified by `LegacySpec`). Here all three maps are React state. A rule
  that runs reports through `validated(key)` or `denied(key, message)` for
  its own key.
- **The built-in rule set, in its two compiled forms** (`Validation`, with
  the phone and password patterns written out as string predicates in
  `Patterns`):
  - `standardValidation(values)`, whose confirmPassword rule compares with
    the `values` object it closed over;
  - `standardValidation(formName)`, whose confirmPassword rule reads the
    shared `forms` registry each time it runs.
- **The JavaScript values the hook handles** (`Js`): undefined, null,
  booleans, strings, file-URL arrays and plain objects. They carry
  truthiness, `typeof … === 'object'`, emptiness, `===` and string
  conversion. A record keeps its key order beside its map, because the
  order of `Object.entries(values)` decides which `validate` call writes
  `valids` last.

A rule's test can throw. The e-mail test calls `toLowerCase` on its
argument, which a boolean, an array or a plain object does not have. In
the older hook, calling a rule name that is missing also throws. The model
keeps that path: the test gives `TypeError`, `validate` gives `Threw`, and
each handler reports `raised`/`crashed` and stops where the JavaScript
exception would stop it.

Where the code differs from what its messages suggest, the model follows
the code:

- The password pattern does admit whitespace, within limits. A line
  terminator is refused anywhere, because `.` does not match it. Any other
  whitespace character may appear only after an uppercase letter, a
  lowercase letter and a digit have all occurred, and never in the last
  position. The lookaheads only look before the first whitespace
  character. So "Abc 123A" fails, but "Abcdef1 x" passes.
- `handleBlur` in src/index.ts validates the stored `values[name]`, not
  the text of the event target, and writes nothing when the field is not
  validated on blur.

## Model

| member | source | states |
|---|---|---|
| `Js.Falsy` | src/index.ts:89 | `!value`: undefined, null, false and the empty string are falsy; strings with text, true, arrays and objects are not |
| `Js.RequiredEmpty` | src/index.ts:46 | the emptiness test of `validate` on a required field: the value is falsy, or it is an array or plain object without entries |
| `Js.StrictEquals` | src/index.ts:142 | `===`: primitives compare by value, arrays and objects by reference |
| `Js.Get` | src/index.ts:76 | `values[name]`: the entry, or undefined for a missing key |
| `Js.ToStr` | dist/validation.js:5 | `String(v)`, which `RegExp.prototype.test` applies: "undefined", "null", "true"/"false", the text itself, the array joined with commas, "[object Object]" |
| `Js.Lower` | dist/validation.js:9 | `toLowerCase()` on the ASCII letters |
| `Js.Record.With` | src/index.ts:120 | `{ ...values, [name]: v }` maps `name` to `v`, keeps every other entry, and keeps the key order when the key already exists |
| `Js.EmptyRecord` | src/index.ts:206 | `{}` has no entries |
| `Js.LowerIdempotent` | dist/validation.js:9 | lower-casing twice is lower-casing once |
| `Js.LowerKeepsAt` | dist/validation.js:9 | lower-casing neither adds nor removes an '@' |
| `Patterns.PhoneMatches` | dist/validation.js:5 | the phone pattern: "00" or "+", one of the listed country codes, then 1 to 14 digits to the end |
| `Patterns.CountryCode` | dist/validation.js:5 | the country-code group of the phone pattern: the 1-, 2- and 3-digit codes it lists |
| `Patterns.CountryCodeShape` | dist/validation.js:5 | every country code the phone pattern lists is 1 to 3 digits and does not start with 0 |
| `Patterns.PhoneShape` | dist/validation.js:5 | a string the phone pattern matches starts with "00" or "+", and the rest is 2 to 17 digits |
| `Patterns.PhoneAcceptsInternational` | dist/validation.js:5 | "+14155550123" matches |
| `Patterns.PhoneNeedsPrefix` | dist/validation.js:5 | a non-empty string starting with neither '0' nor '+' never matches |
| `Patterns.PhoneRejectsNational` | dist/validation.js:5 | "4155550123" does not match, because the prefix is required |
| `Patterns.IsWhitespace` | dist/validation.js:13 | `\s`: the JavaScript whitespace and line-terminator characters |
| `Patterns.LooksAhead` | dist/validation.js:13 | `(?=\S*?[X])` at the start: a class-X character with only non-whitespace before it |
| `Patterns.PasswordMatches` | dist/validation.js:13 | the password pattern: the three lookaheads, at least 7 characters other than line terminators, then a last non-whitespace character |
| `Patterns.FirstSpace` | dist/validation.js:13 | the index where the lookaheads' `\S*?` stops: no whitespace before it, whitespace at it unless it is the end |
| `Patterns.LooksAheadBeforeSpace` | dist/validation.js:13 | a lookahead `(?=\S*?[X])` holds exactly when a character of class X occurs before the first whitespace |
| `Patterns.PasswordShape` | dist/validation.js:13 | a matching password has at least 8 characters and a non-whitespace last one; an uppercase letter, a lowercase letter and a digit all occur before its first whitespace |
| `Patterns.PasswordSpaces` | dist/validation.js:13 | a matching password holds no line terminator; any other whitespace in it is neither first nor last and comes after an uppercase letter, a lowercase letter and a digit |
| `Patterns.PasswordAcceptsExample` | dist/validation.js:13 | "Abcdefg1" matches |
| `Patterns.PasswordRejectsLowercase` | dist/validation.js:13 | "abcdefg1" does not match |
| `Patterns.PasswordRejectsDigitsAfterSpace` | dist/validation.js:13 | "Abc 123A" does not match: its only digits come after the space |
| `Validation.EmailTest` | dist/validation.js:9 | `re.test(value?.toLowerCase())`: undefined and null are tested as the text "undefined", a string is lower-cased, any other value throws |
| `Validation.RegisteredPassword` | dist/src/validation.js:18 | `forms[formName]?.values?.password`, undefined wherever a step is missing |
| `Validation.Run` | dist/validation.js:3-20 | what calling a rule's `test` gives: pass, fail, or a thrown TypeError |
| `Validation.StandardValidation` | dist/validation.js:3-20 | `standardValidation(values)`: the four rules, with confirmPassword over the captured `values` |
| `Validation.RegistryValidation` | dist/src/validation.js:4-21 | `standardValidation(formName)`: the four rules, with confirmPassword reading the registry entry for `formName` |
| `Validation.StandardRuleSetShape` | dist/validation.js:3-20 | `standardValidation(values)` has exactly the keys phone, email, password and confirmPassword, each with a non-empty message |
| `Validation.RegistryRuleSetShape` | dist/src/validation.js:4-21 | `standardValidation(formName)` has exactly the same four keys, each with a non-empty message |
| `Validation.SharedRules` | dist/src/validation.js:6-15 | the phone, email and password rules, tests and messages, are the same in both rule sets |
| `Validation.ConfirmFollowsCapturedValues` | dist/validation.js:17 | confirmPassword never throws, and passes exactly on a value `===` the captured `values.password` |
| `Validation.ConfirmFollowsRegistry` | dist/src/validation.js:18 | confirmPassword passes exactly on a value `===` `forms[formName]?.values?.password`; with no entry for the form, exactly on undefined |
| `Validation.ConfirmReadsLatestPassword` | dist/src/validation.js:18 | after a password is stored in the registry, the rule built earlier accepts that password and rejects every other string |
| `Validation.EmailIgnoresCase` | dist/validation.js:9 | the e-mail test gives a string and its lower-cased form the same outcome |
| `Validation.EmailNeedsAt` | dist/validation.js:9 | the e-mail test passes only on a string containing '@'; undefined and null fail; booleans, file arrays and objects throw |
| `Validation.StringsNeverThrow` | dist/validation.js:3-20 | no built-in test throws on a string, and neither does a custom test, given custom tests that do not throw |
| `Validation.PhoneOnValues` | dist/validation.js:5 | a value whose text passes the phone test starts with "00" or "+" followed by 2 to 17 digits; undefined, null, booleans and plain objects fail |
| `Validation.PasswordOnExamples` | dist/validation.js:13 | the password rule passes "Abcdefg1" and fails "abcdefg1" and "Abc 123A" |
| `Validation.PasswordOnValues` | dist/validation.js:13 | the password rule fails on undefined, null and booleans |
| `FormSpec.Merge` | src/index.ts:38-41 | the merged rule map holds the keys of both maps; a custom rule replaces the built-in rule of the same name |
| `FormSpec.Decide` | src/index.ts:44-68 | the branch `validate` takes: required and empty, the rule passes, fails or throws, or no rule applies |
| `FormSpec.WritesValids` | src/index.ts:50-65 | the branches of `validate` that call `handleValids`: required-and-empty, pass and fail |
| `FormSpec.ValidateStep` | src/index.ts:43-69 | a silent call and a throw leave the pending state alone; the result is false exactly when the field is required and empty or its rule fails; it throws exactly when its rule's test throws |
| `FormSpec.ErrorFor` | src/index.ts:79 | the message `validateAll` records is never empty: the rule's message when it has one, otherwise 'Invalid value.' |
| `FormSpec.SilentIsDryRun` | src/index.ts:48-65 | a silent call writes nothing and returns what the non-silent call returns |
| `FormSpec.RequiredEmptyStep` | src/index.ts:44-51 | a required field holding a falsy value or an object without entries gets false, the mandatory message and `valids` false; other keys keep their snapshot entries |
| `FormSpec.RulePassStep` | src/index.ts:52-57 | a passing rule gives true, removes the field's error and sets `valids` true; the rest is the snapshot |
| `FormSpec.RuleFailStep` | src/index.ts:58-67 | a failing rule gives false and sets `valids` false; it writes the error only when the rule has a message, and otherwise leaves the pending `errors` alone |
| `FormSpec.TextNeverThrows` | src/index.ts:53 | `validate` never throws on a string value, given custom tests that do not throw |
| `FormSpec.UncheckedStep` | src/index.ts:68 | a field with no rule, or a bypassed one, that is not required-and-empty gives true and writes nothing |
| `FormSpec.Visit` | src/index.ts:74-86 | one step of the `forEach` loops: `validate`, then the `errs` entry for a failing unlisted name; a throw ends the loops |
| `FormSpec.Collect` | src/index.ts:74-86 | the loop steps over the names, in order |
| `FormSpec.Missing` | src/index.ts:88-90 | the mandatory message for every required name whose value is falsy |
| `FormSpec.MissingSnoc` | src/index.ts:88-90 | one more required name adds the mandatory message for it exactly when its value is falsy, over what `errs` held |
| `FormSpec.ValidateAllOutcome` | src/index.ts:71-97 | when `validateAll` returns true, the resulting `errors` is empty |
| `FormSpec.LastWriter` | src/index.ts:74-86 | the field whose `validate` call wrote `valids` last: it writes `valids`, it sits at some position of the visited names, and no name after that position writes `valids`; when there is none, no visited name writes `valids` |
| `FormSpec.ThrewAbsorbs` | src/index.ts:74-86 | once a test has thrown, the rest of the loops changes nothing |
| `FormSpec.CollectConcat` | src/index.ts:74-86 | the two loops run back to back are one loop over the custom names followed by the entries of `values` |
| `FormSpec.ThrowEndsCollect` | src/index.ts:74-86 | a throw at the i-th name ends the loops there |
| `FormSpec.CollectThrows` | src/index.ts:74-86 | the loops throw exactly when the test of some visited name throws |
| `FormSpec.CollectErrKeys` | src/index.ts:74-86 | without a throw, `errs` holds exactly the failing visited names outside the bypassed list |
| `FormSpec.CollectMessages` | src/index.ts:79 | every entry of `errs` is the rule's message or 'Invalid value.' |
| `FormSpec.CollectValids` | src/index.ts:74-86 | without a throw, the pending `valids` is the snapshot changed only at the last name whose `validate` wrote it, or, when no visited name writes it, the pending `valids` from before the loops |
| `FormSpec.ValidateAllThrows` | src/index.ts:74-86 | `validateAll` throws exactly when the test of a custom rule name or of a field of `values` throws |
| `FormSpec.ValidateAllAccepts` | src/index.ts:92-96 | `validateAll` returns true exactly when nothing throws, the `errors` snapshot is empty, every visited name outside the list passes, and every required name holds a truthy value |
| `FormSpec.ValidateAllErrors` | src/index.ts:74-92 | the resulting `errors` is the snapshot overlaid with the new errors: a falsy required name gets the mandatory message even when listed; a failing unlisted name gets its rule's message or 'Invalid value.'; other keys keep their snapshot entries |
| `FormSpec.ValidateAllValids` | src/index.ts:74-92 | after `validateAll`, `valids` is the snapshot changed only at the last field whose `validate` wrote it, or, when no visited name writes it, the pending `valids` from before the call; the earlier writes are lost |
| `FormSpec.EmptyObjectRequired` | src/index.ts:44-51 | a required field holding an empty object fails `validate` but is truthy, so `validateAll` gives it its rule's message or 'Invalid value.', not the mandatory one, and nothing when it is listed |
| `Form.FormController.constructor` | src/index.ts:35-41 | the first render: empty `errors` and `valids`, the shared `values`, and the merged rule set over them |
| `Form.FormController.Render` | src/index.ts:38-41 | a re-render commits the pending state and builds the rule set again over the current `values` |
| `Form.FormController.Validate` | src/index.ts:43-69 | the verdict and the new pending state are those of `ValidateStep` on the snapshot |
| `Form.FormController.ValidateEach` | src/index.ts:74-86 | one `forEach` of `validateAll`: its `errs`, pending state and throw flag are the loop function `Collect` over the names |
| `Form.FormController.AddMissing` | src/index.ts:88-90 | `errs` gains the mandatory message for every required name with a falsy value, and nothing else |
| `Form.FormController.ValidateAll` | src/index.ts:71-97 | the verdict and the new pending state are `ValidateAllOutcome` over the custom rule names and the current `values` |
| `Form.FormController.HandleSubmit` | src/index.ts:99-104 | `onSubmit(values)` is called, with the current `values`, exactly when `validateAll(validateOnSubmit)` returns true |
| `Form.FormController.CleanFieldError` | src/index.ts:106-109 | the pending `errors` is the snapshot without the field; `valids` is untouched |
| `Form.FormController.ValidateFieldOnChange` | src/index.ts:111-115 | a field listed in `validateOnChange` is validated; any other field only has its error cleared |
| `Form.FormController.HandleChange` | src/index.ts:117-129 | `values[name]` becomes the text and the other entries stay. An unlisted field loses its error and gets a null `valids` entry. When the new `values.confirmPassword` is truthy, the `valids` entry of confirmPassword is nulled as well; its error stays. A listed field is validated |
| `Form.FormController.HandleChangeCheckbox` | src/index.ts:131-139 | `values[name]` becomes the checked flag, then the field is validated or its error cleared |
| `Form.FormController.HandleChangeRadio` | src/index.ts:141-146 | `values` is replaced only when the new value is not `===` the current one; then the field is validated or its error cleared |
| `Form.FormController.HandleBlur` | src/index.ts:148-154 | the field's stored value is validated when `validateOnBlur` lists the field or is empty; otherwise nothing changes |
| `Form.FormController.HandleKeyDown` | src/index.ts:181-186 | a supplied `onKeyDown` takes every key; otherwise Enter submits exactly as `handleSubmit` does and other keys change nothing |
| `Form.FormController.HydrateDefaults` | src/index.ts:195-204 | when `values` is empty and `defaultValues` is not, `values` becomes `defaultValues`; then every default entry is validated in order, or `errors` is cleared. Otherwise nothing changes |
| `Form.FormController.Unmount` | src/index.ts:206 | unmounting empties `values` |
| `LegacySpec.Validated` | index.ts:105-109 | `validated(f)` removes only `f` from the snapshot's `errors` and sets `valids[f]` true; the pending values stay |
| `LegacySpec.Denied` | index.ts:111-117 | `denied(f, m)` sets `errors[f]` to `m` and `valids[f]` false, and changes no other key |
| `LegacySpec.InlineRules` | index.ts:118-158 | the inline rule object has exactly the four built-in keys, and its confirmPassword compares with the render's `values` |
| `LegacySpec.RuleCall` | index.ts:118-158 | `standardValidation[name](v)`: approve, deny with the rule's message, or throw when there is no rule of that name or its test throws |
| `LegacySpec.ApplyCall` | index.ts:105-117 | an approving rule calls `validated(name)`, a denying one `denied(name, message)` |
| `LegacySpec.RunRules` | index.ts:29 | `requiresValidation.forEach` over the snapshot's values, stopping at the first throw |
| `LegacySpec.BlurOutcome` | index.ts:65-79 | the three branches of `handleBlur`, in order |
| `LegacySpec.SubmitOutcome` | index.ts:23-35 | when `onSubmit` is called, the resulting `errors` is empty |
| `LegacySpec.ChangeOutcome` | index.ts:37-48 | `values[name]` becomes the text; `name` loses its error and gets a null `valids` entry, and so does confirmPassword when the snapshot's `values.confirmPassword` is truthy; no other entry changes |
| `LegacySpec.RuleWritesOwnKey` | index.ts:118-158 | a rule call that does not throw changes `errors` and `valids` at its own key only, and approves exactly when it marks that key valid |
| `LegacySpec.ConfirmInline` | index.ts:152-157 | the inline confirmPassword rule never throws, and approves exactly the value `===` the snapshot's `values.password` |
| `LegacySpec.PhoneRuleCall` | index.ts:119-131 | the inline phone rule approves exactly the values whose text matches the phone pattern, and denies the rest with the phone message |
| `LegacySpec.CrashAbsorbs` | index.ts:29 | once a rule has thrown, later rules are not run |
| `LegacySpec.RunRulesCrash` | index.ts:29 | the rule loop throws exactly when the call for some listed name throws |
| `LegacySpec.SubmitSends` | index.ts:25-34 | `onSubmit` is called exactly when no listed rule throws, the `errors` snapshot is empty and every required value is truthy; a denying rule does not stop it |
| `LegacySpec.SubmitErrors` | index.ts:25-31 | after a submit that did not throw, `errors` is the snapshot overlaid with the mandatory messages for the falsy required names |
| `LegacySpec.DefaultRuleListThrows` | index.ts:16 | with the default `requiresValidation = ['']`, a submit always throws, because there is no rule named '' |
| `LegacySpec.DefaultRequiredsBlock` | index.ts:15 | with the default `requireds = ['']`, a submit does not go through while `values['']` is falsy |
| `LegacySpec.DeniedStillSent` | index.ts:29-34 | a denying rule with an empty `errors` snapshot and nothing required still lets the submit go through, with no error shown; only `valids` records the failure |
| `LegacySpec.BlurEmptyRequired` | index.ts:68-69 | blurring a required field left empty shows the mandatory message and leaves `valids` alone |
| `LegacySpec.BlurRunsRule` | index.ts:70-74 | blurring a listed field with an inline rule runs that rule, which does not throw on text and writes that field alone |
| `LegacySpec.BlurClears` | index.ts:75-78 | blurring any other field removes its error and sets `valids` true |
| `LegacySpec.SecondChangeDropsFirst` | index.ts:40 | a second text change in the same render rebuilds `values` from the snapshot, so the first field's new text is lost |
| `Legacy.LegacyForm.constructor` | index.ts:19-21 | the first render: `values` is `defaultValues`, the other maps are empty, and the rules are built over them |
| `Legacy.LegacyForm.Render` | index.ts:118-158 | a re-render commits the pending state and rebuilds the inline rules over its values, keeping the invariant that the rules are those of the committed values |
| `Legacy.LegacyForm.Validated` | index.ts:105-109 | the pending state becomes `LegacySpec.Validated` of the snapshot |
| `Legacy.LegacyForm.Denied` | index.ts:111-117 | the pending state becomes `LegacySpec.Denied` of the snapshot |
| `Legacy.LegacyForm.CallRule` | index.ts:29 | `standardValidation[name](v)` throws exactly when the rule is missing or its test throws; otherwise it applies `validated` or `denied` |
| `Legacy.LegacyForm.MissingErrors` | index.ts:25-28 | `errs` holds the mandatory message for exactly the required names with falsy snapshot values |
| `Legacy.LegacyForm.RunListed` | index.ts:29 | the listed rules run in order on the snapshot's values, as `RunRules` states, and stop at a throw |
| `Legacy.LegacyForm.HandleSubmit` | index.ts:23-35 | the verdict and the pending state are `SubmitOutcome`; `onSubmit` gets the snapshot's values exactly when the verdict is Accepted |
| `Legacy.LegacyForm.HandleChange` | index.ts:37-48 | the pending state becomes `ChangeOutcome` of the snapshot |
| `Legacy.LegacyForm.HandleChangeCheckbox` | index.ts:50-57 | a functional update: the pending `values` gains the checked flag and nothing else changes |
| `Legacy.LegacyForm.HandleChangeRadio` | index.ts:59-63 | nothing changes when the value is `===` the snapshot's; otherwise the pending `values` gains it |
| `Legacy.LegacyForm.HandleBlur` | index.ts:65-79 | the pending state becomes `BlurOutcome`, and the handler never throws, because the target's value is text |
| `Legacy.LegacyForm.HandleKeyDown` | index.ts:160-162 | Enter submits exactly as `handleSubmit` does; any other key changes nothing |

## Left out

- `handleFileUpload` (src/index.ts:156-179, index.ts:81-103): it relies on the browser's asynchronous `FileReader`, and its `onload` runs before any read has started.
- The key-listener effect (src/index.ts:188-193, index.ts:164-169), `event.persist` and `event.preventDefault`: these are browser plumbing, and `disableKeyListener` is not modelled. The window listener holds the `handleKeyDown` closure of the render in which the effect last ran. In index.ts that is the first render, with its `values` and `errors`, because the effect depends only on `disableKeyListener`. In src/index.ts the closure is refreshed only when `values` changes. So a real Enter key can read an older snapshot than the `committed` one that both `HandleKeyDown` methods read.
- The setters and maps the hook returns (`setValues`, `handleErrors`, `handleValids`, `validation`) when callers use them directly.
- `onSubmit` and `onKeyDown` are callbacks whose effects cannot be seen. A submit reports the argument `onSubmit` would receive. A key press reports that it was delegated.
- Numbers, functions and other JavaScript values that are not undefined, null, booleans, strings, file-URL arrays or plain objects.
- `defaultValues || {}` for a falsy `defaultValues`: the model takes `defaultValues` as a record.
- Field names that are keys of `Object.prototype` (such as "toString"): the model treats a missing key as undefined.
- `Object.entries` lists integer-like keys first. The model keeps plain insertion order.
- `Js.Lower`: lower-casing covers ASCII letters only. JavaScript's `toLowerCase` also maps other letters, such as the Kelvin sign U+212A to "k", which the model leaves unchanged.
- `Patterns.PasswordMatches`: text is a sequence of Unicode code points, while the patterns, which have no `u` flag, count UTF-16 code units. A character outside the Basic Multilingual Plane counts once in the model and twice in JavaScript. This matters for the password's 8-character minimum: "Ab1😀😀😀x" passes in JavaScript (10 code units) and fails in the model (7 code points).
- The e-mail pattern's grammar: the pattern is a parameter, and the only fact assumed of it is that it matches only strings containing '@'.
- Custom tests that throw: a custom test is a total function.
- Custom rules without an `error` field are modelled with the empty message; the code treats a missing and an empty message alike, as falsy.
- A falsy entry in `customValidation` (such as `{ phone: null }`) cannot be written: the merged rule map holds only rules. In the code such an entry hides the built-in rule, so `validate` treats the field as having no rule (src/index.ts:52) and `validateAll` gives it 'Invalid value.' when it fails the required check (src/index.ts:79).
- Several hook instances sharing the module-level `values` are not modelled. The constructor takes whatever `values` holds.
- The registry, `formName` and re-render flags of the type declarations: no implementation of them exists among the hook's files. The registry appears only as the parameter of the registry rule set.
- index.js and dist/index.js are compiled JavaScript, and neither is modelled. index.js is close to the build of index.ts, but on Enter it calls `onSubmit()` directly, with no argument and none of the submit checks (index.js:132-133). dist/index.js is the build of an older, different hook: all three maps are `useState` (dist/index.js:21-23), `customValidation` is called as a function (:24), `validate` is declared as `(value, fieldName)` (:25) but called with the name first (:44, :79), the failure message is read from an `errorMessage` field that the rule sets do not have (:32), `validate` has no required-field check, and `onKeyDown()` is called without the event (:107). The model follows the two TypeScript sources the hook is written in.
- `Validation.PasswordOnValues`: does not cover plain objects, whose text is "[object Object]", or file-URL arrays.
- `Validation.EmailNeedsAt`: the '@' fact is assumed of the matcher through `NeedsAt`, not derived from the grammar.
