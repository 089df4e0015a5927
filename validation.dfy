/** The built-in rule set, in its two compiled forms: `standardValidation(values)`
    (dist/validation.js), whose confirm-password rule compares with the
    `values` object it was built from, and `standardValidation(formName)`
    (dist/src/validation.js), whose confirm-password rule looks the password
    up in the shared `forms` registry each time it runs. A rule is a test and
    an error message. */
module Validation {
  import opened Js
  import opened Patterns

  /** The test of a rule. */
  datatype Check =
    | Phone
    | Email(pattern: EmailPattern)
    | Password
      /** `values.password === value` over the captured `values` */
    | SamePassword(values: map<string, Value>)
      /** `forms[formName]?.values?.password === value`, read when run */
    | SameRegisteredPassword(formName: string)
      /** a caller-supplied test */
    | Custom(test: Value -> bool)

  datatype Rule = Rule(check: Check, error: string)

  /** What running a test gives: true, false, or a TypeError thrown out of it. */
  datatype Outcome = Pass | Fail | TypeError

  /** The shared registry: form name to the entry `{ values, errors, valids }`. */
  type Registry = map<string, Value>

  const PhoneError: string := "Please use international format (\"+XX\" or \"00XX\" without spaces)."
  const EmailError: string := "This does not look like a valid email address."
  const PasswordError: string := "Passwords must contain at least 8 characters, 1 uppercase, 1 lowercase & 1 number."
  const ConfirmError: string := "Passwords do not match."

  const RuleNames: set<string> := {"phone", "email", "password", "confirmPassword"}

  function OutcomeOf(b: bool): Outcome {
    if b then Pass else Fail
  }

  /** `re.test(value?.toLowerCase())`: a nullish value is tested as the text
      "undefined"; any other non-string has no `toLowerCase` to call. */
  function EmailTest(p: EmailPattern, v: Value): Outcome {
    match v
    case Undefined => OutcomeOf(p("undefined"))
    case Null => OutcomeOf(p("undefined"))
    case Str(s) => OutcomeOf(p(Lower(s)))
    case _ => TypeError
  }

  /** `v?.[key]` where only plain objects carry the keys looked up here. */
  function Prop(v: Value, key: string): Value {
    match v
    case Obj(_, fields) => Get(fields, key)
    case _ => Undefined
  }

  /** `forms[formName]?.values?.password` */
  function RegisteredPassword(forms: Registry, formName: string): Value {
    if formName in forms then Prop(Prop(forms[formName], "values"), "password") else Undefined
  }

  /** Runs a test on `value`, with the registry as it is at that moment. */
  function Run(c: Check, forms: Registry, value: Value): Outcome {
    match c
    case Phone => OutcomeOf(PhoneMatches(ToStr(value)))
    case Email(p) => EmailTest(p, value)
    case Password => OutcomeOf(PasswordMatches(ToStr(value)))
    case SamePassword(values) => OutcomeOf(StrictEquals(Get(values, "password"), value))
    case SameRegisteredPassword(formName) => OutcomeOf(StrictEquals(RegisteredPassword(forms, formName), value))
    case Custom(test) => OutcomeOf(test(value))
  }

  /** dist/validation.js: `standardValidation(values)`. */
  function StandardValidation(values: map<string, Value>, email: EmailPattern): map<string, Rule> {
    map[
      "phone" := Rule(Phone, PhoneError),
      "email" := Rule(Email(email), EmailError),
      "password" := Rule(Password, PasswordError),
      "confirmPassword" := Rule(SamePassword(values), ConfirmError)
    ]
  }

  /** dist/src/validation.js: `standardValidation(formName)`. */
  function RegistryValidation(formName: string, email: EmailPattern): map<string, Rule> {
    map[
      "phone" := Rule(Phone, PhoneError),
      "email" := Rule(Email(email), EmailError),
      "password" := Rule(Password, PasswordError),
      "confirmPassword" := Rule(SameRegisteredPassword(formName), ConfirmError)
    ]
  }

  // ---------------------------------------------------------------------
  // Properties of the two rule sets

  /** dist/validation.js builds exactly the four built-in keys, each with a
      fixed non-empty message. */
  lemma StandardRuleSetShape(values: map<string, Value>, email: EmailPattern)
    ensures StandardValidation(values, email).Keys == RuleNames
    ensures forall k | k in RuleNames :: StandardValidation(values, email)[k].error != ""
  {
    var r := StandardValidation(values, email);
    forall k | k in RuleNames ensures k in r && r[k].error != "" {
    }
  }

  /** dist/src/validation.js builds exactly the four built-in keys, each with
      a fixed non-empty message. */
  lemma RegistryRuleSetShape(formName: string, email: EmailPattern)
    ensures RegistryValidation(formName, email).Keys == RuleNames
    ensures forall k | k in RuleNames :: RegistryValidation(formName, email)[k].error != ""
  {
    var r := RegistryValidation(formName, email);
    forall k | k in RuleNames ensures k in r && r[k].error != "" {
    }
  }

  /** The phone, e-mail and password rules, tests and messages, are the same
      in both rule sets; only confirmPassword differs. */
  lemma SharedRules(values: map<string, Value>, formName: string, email: EmailPattern)
    ensures forall k | k in {"phone", "email", "password"} ::
      StandardValidation(values, email)[k] == RegistryValidation(formName, email)[k]
  {
  }

  /** confirmPassword of dist/validation.js accepts exactly the value that is
      strictly equal to the password of the `values` it was built from. */
  lemma ConfirmFollowsCapturedValues(values: map<string, Value>, email: EmailPattern, forms: Registry, v: Value)
    ensures Run(StandardValidation(values, email)["confirmPassword"].check, forms, v) != TypeError
    ensures Run(StandardValidation(values, email)["confirmPassword"].check, forms, v) == Pass
        <==> StrictEquals(Get(values, "password"), v)
  {
  }

  /** confirmPassword of dist/src/validation.js accepts exactly the value that
      is strictly equal to the registry's password for the form at the time
      the test runs; an entry or a `values` that is missing gives `undefined`. */
  lemma ConfirmFollowsRegistry(formName: string, email: EmailPattern, forms: Registry, v: Value)
    ensures Run(RegistryValidation(formName, email)["confirmPassword"].check, forms, v) == Pass
        <==> StrictEquals(RegisteredPassword(forms, formName), v)
    ensures formName !in forms ==>
      (Run(RegistryValidation(formName, email)["confirmPassword"].check, forms, v) == Pass <==> v == Undefined)
  {
    assert RegistryValidation(formName, email)["confirmPassword"].check == SameRegisteredPassword(formName);
  }

  /** The registry rule set is built from the form name alone; storing a new
      password for the form afterwards changes what the same rule accepts. */
  lemma ConfirmReadsLatestPassword(formName: string, email: EmailPattern, forms: Registry,
                                   entry: nat, inner: nat, password: string)
    ensures var rule := RegistryValidation(formName, email)["confirmPassword"];
      var updated := forms[formName := Obj(entry, map["values" := Obj(inner, map["password" := Str(password)])])];
      && Run(rule.check, updated, Str(password)) == Pass
      && (forall other | other != password :: Run(rule.check, updated, Str(other)) == Fail)
  {
    var updated := forms[formName := Obj(entry, map["values" := Obj(inner, map["password" := Str(password)])])];
    assert RegistryValidation(formName, email)["confirmPassword"].check == SameRegisteredPassword(formName);
    assert RegisteredPassword(updated, formName) == Str(password);
  }

  /** The e-mail test lower-cases a string before matching, so a string and
      its lower-cased form get the same outcome. */
  lemma EmailIgnoresCase(email: EmailPattern, forms: Registry, s: string)
    ensures Run(Email(email), forms, Str(s)) == Run(Email(email), forms, Str(Lower(s)))
  {
    LowerIdempotent(s);
  }

  /** The e-mail test passes only on a string that contains an '@'; null and
      undefined fail, and any other non-string throws. */
  lemma EmailNeedsAt(email: EmailPattern, forms: Registry, v: Value)
    requires NeedsAt(email)
    ensures Run(Email(email), forms, v) == Pass ==> v.Str? && '@' in v.s
    ensures v == Undefined || v == Null ==> Run(Email(email), forms, v) == Fail
    ensures Run(Email(email), forms, v) == TypeError <==> v.Bool? || v.Files? || v.Obj?
  {
    if v.Str? {
      LowerKeepsAt(v.s);
    }
    assert '@' !in "undefined";
  }

  /** No test throws on a string. */
  lemma StringsNeverThrow(c: Check, forms: Registry, s: string)
    ensures Run(c, forms, Str(s)) != TypeError
  {
  }

  /** The phone test on a JavaScript value: a pass means the value's text
      starts with "00" or "+" followed by 2 to 17 digits, so no undefined,
      null, boolean or plain object ever passes. */
  lemma PhoneOnValues(forms: Registry, v: Value)
    ensures Run(Phone, forms, v) == Pass ==>
      var t := ToStr(v);
      && ((|t| >= 2 && t[..2] == "00") || (|t| >= 1 && t[0] == '+'))
      && Digits(National(t)) && 2 <= |National(t)| <= 17
    ensures v.Undefined? || v.Null? || v.Bool? || v.Obj? ==> Run(Phone, forms, v) == Fail
  {
    if Run(Phone, forms, v) == Pass {
      PhoneShape(ToStr(v));
    }
    if v.Undefined? || v.Null? || v.Bool? || v.Obj? {
      PhoneNeedsPrefix(ToStr(v));
    }
  }

  /** The password test on the built-in examples. */
  lemma PasswordOnExamples(forms: Registry)
    ensures Run(Password, forms, Str("Abcdefg1")) == Pass
    ensures Run(Password, forms, Str("abcdefg1")) == Fail
    ensures Run(Password, forms, Str("Abc 123A")) == Fail
  {
    PasswordAcceptsExample();
    PasswordRejectsLowercase();
    PasswordRejectsDigitsAfterSpace();
  }

  /** The password test fails on undefined, null and booleans: their string
      forms are too short or lack an uppercase letter. */
  lemma PasswordOnValues(forms: Registry, v: Value)
    requires v.Undefined? || v.Null? || v.Bool?
    ensures Run(Password, forms, v) == Fail
  {
    if v.Undefined? {
      var t := "undefined";
      assert forall i | 0 <= i < |t| :: !InClass(t[i], Uppercase);
    }
  }
}
