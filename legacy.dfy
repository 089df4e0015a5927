/** The handlers of index.ts, the older hook with its rules inline. All
    three maps are React state: the handlers read the snapshot of the last
    render (`committed`) and each setter call replaces that map in the
    pending state (`next`), except the functional updates of the checkbox and
    radio handlers, which apply to the pending `values`. */
module Legacy {
  import opened Js
  import opened Patterns
  import opened Validation
  import opened FormSpec
  import opened LegacySpec

  class LegacyForm {
    const email: EmailPattern
    const requireds: seq<string>
    const requiresValidation: seq<string>
    /** The `standardValidation` object of the last render, closing over
        that render's `values`. */
    var rules: map<string, Rule>
    /** `values`, `errors` and `valids` as the last render read them. */
    var committed: State
    /** What the next render shows: the argument of the last call of each
        setter. */
    var next: State

    ghost predicate Valid()
      reads this
    {
      && committed.values.Valid() && next.values.Valid()
      && rules == InlineRules(committed, email)
    }

    /** The first render: `values` starts as `defaultValues`, the other two
        maps empty. */
    constructor (defaultValues: Record<Value>, requireds: seq<string>, requiresValidation: seq<string>,
                 email: EmailPattern)
      requires defaultValues.Valid()
      ensures Valid()
      ensures this.email == email && this.requireds == requireds && this.requiresValidation == requiresValidation
      ensures committed == State(defaultValues, map[], map[]) && next == committed
      ensures rules == InlineRules(committed, email)
    {
      this.email := email;
      this.requireds := requireds;
      this.requiresValidation := requiresValidation;
      var start := State(defaultValues, map[], map[]);
      committed, next := start, start;
      rules := InlineRules(start, email);
    }

    /** A re-render: the pending state becomes the snapshot, and the inline
        rules are built again over its values. */
    method Render()
      requires Valid()
      modifies this`committed, this`rules
      ensures Valid()
      ensures committed == old(next)
      ensures rules == InlineRules(committed, email)
    {
      committed := next;
      rules := InlineRules(next, email);
    }

    /** `validated(fieldName)` */
    method Validated(f: string)
      modifies this`next
      ensures next == LegacySpec.Validated(committed, old(next), f)
    {
      next := State(next.values, committed.errors - {f}, committed.valids[f := Passed]);
    }

    /** `denied(fieldName, message)` */
    method Denied(f: string, message: string)
      modifies this`next
      ensures next == LegacySpec.Denied(committed, old(next), f, message)
    {
      next := State(next.values, committed.errors[f := message], committed.valids[f := Failed]);
    }

    /** `standardValidation[name](v)`; `crashed` when the call throws, either
        because there is no rule of that name or because its test throws. */
    method CallRule(name: string, v: Value) returns (crashed: bool)
      modifies this`next
      ensures crashed <==> RuleCall(rules, name, v) == Crash
      ensures next == ApplyCall(committed, old(next), name, RuleCall(rules, name, v))
    {
      if name !in rules {
        return true;
      }
      var rule := rules[name];
      match Run(rule.check, map[], v)
      case Pass =>
        Validated(name);
        crashed := false;
      case Fail =>
        Denied(name, rule.error);
        crashed := false;
      case TypeError =>
        crashed := true;
    }

    /** The first loop of `handleSubmit`: the mandatory message for every
        required name whose value is falsy. */
    method MissingErrors() returns (errs: map<string, string>)
      ensures errs == Missing(requireds, committed.values.at)
    {
      var vals := committed.values.at;
      errs := map[];
      var k := 0;
      while k < |requireds|
        invariant 0 <= k <= |requireds|
        invariant errs == Missing(requireds[..k], vals)
      {
        var name := requireds[k];
        assert requireds[..k + 1] == requireds[..k] + [name];
        MissingSnoc(map[], requireds[..k], vals, name);
        if Falsy(Get(vals, name)) {
          errs := errs[name := Mandatory];
        }
        k := k + 1;
      }
      assert requireds[..k] == requireds;
    }

    /** The second loop of `handleSubmit`: the rule of every listed name on
        its snapshot value, in order; a throw ends it. */
    method RunListed() returns (crashed: bool)
      modifies this`next
      ensures Sweep(next, crashed) == RunRules(committed, rules, requiresValidation, old(next))
    {
      ghost var next0 := next;
      var vals := committed.values.at;
      var i := 0;
      while i < |requiresValidation|
        invariant 0 <= i <= |requiresValidation|
        invariant RunRules(committed, rules, requiresValidation[..i], next0) == Sweep(next, false)
      {
        var name := requiresValidation[i];
        crashed := CallRule(name, Get(vals, name));
        assert requiresValidation[..i + 1][..i] == requiresValidation[..i];
        if crashed {
          assert requiresValidation[..i + 1] + requiresValidation[i + 1..] == requiresValidation;
          CrashAbsorbs(committed, rules, requiresValidation[..i + 1], requiresValidation[i + 1..], next0);
          return true;
        }
        i := i + 1;
      }
      assert requiresValidation[..i] == requiresValidation;
      crashed := false;
    }

    /** `handleSubmit(event)`: `onSubmit(values)` runs, and `sent` holds its
        argument, exactly when no rule throws and both the snapshot's errors
        and the mandatory messages are empty. */
    method HandleSubmit() returns (verdict: Verdict, sent: Option<Record<Value>>)
      modifies this`next
      ensures Submission(verdict, next) == SubmitOutcome(committed, rules, requireds, requiresValidation, old(next))
      ensures sent == if verdict == Accepted then Some(committed.values) else None
    {
      var errs := MissingErrors();
      var crashed := RunListed();
      if crashed {
        return Threw, None;
      }
      next := State(next.values, committed.errors + errs, next.valids);
      verdict := if committed.errors == map[] && errs == map[] then Accepted else Rejected;
      sent := if verdict == Accepted then Some(committed.values) else None;
    }

    /** `handleChange(event)` for a text input. */
    method HandleChange(name: string, value: string)
      requires Valid()
      modifies this`next
      ensures Valid() && next == ChangeOutcome(committed, name, value)
    {
      var valids := if Truthy(Get(committed.values.at, "confirmPassword"))
                    then committed.valids[name := Unknown]["confirmPassword" := Unknown]
                    else committed.valids[name := Unknown];
      next := State(committed.values.With(name, Str(value)), committed.errors - {name}, valids);
    }

    /** `handleChangeCheckbox(event)`: a functional update, so it builds on
        the pending `values` and keeps the other maps' pending state. */
    method HandleChangeCheckbox(name: string, checked: bool)
      requires Valid()
      modifies this`next
      ensures Valid()
      ensures next == State(old(next).values.With(name, Bool(checked)), old(next).errors, old(next).valids)
    {
      next := State(next.values.With(name, Bool(checked)), next.errors, next.valids);
    }

    /** `handleChangeRadio(fieldName, fieldValue)`: the comparison reads the
        snapshot; the update, a functional one, builds on the pending
        `values`. */
    method HandleChangeRadio(f: string, v: Value)
      requires Valid()
      modifies this`next
      ensures Valid()
      ensures StrictEquals(Get(committed.values.at, f), v) ==> next == old(next)
      ensures !StrictEquals(Get(committed.values.at, f), v) ==>
        next == State(old(next).values.With(f, v), old(next).errors, old(next).valids)
    {
      if !StrictEquals(Get(committed.values.at, f), v) {
        next := State(next.values.With(f, v), next.errors, next.valids);
      }
    }

    /** `handleBlur(e)` with the target's name and text; no rule throws on
        text, so `crashed` never holds. */
    method HandleBlur(name: string, value: string) returns (crashed: bool)
      modifies this`next
      ensures next == BlurOutcome(committed, rules, requireds, requiresValidation, old(next), name, value)
      ensures !crashed
    {
      crashed := false;
      if name in requireds && value == "" {
        next := State(next.values, (committed.errors - {name})[name := Mandatory], next.valids);
      } else if name in requiresValidation && name in rules {
        StringsNeverThrow(rules[name].check, map[], value);
        crashed := CallRule(name, Str(value));
      } else {
        next := State(next.values, committed.errors - {name}, committed.valids[name := Passed]);
      }
    }

    /** `handleKeyDown(event)`: Enter submits, `submitted` then holding the
        verdict and `sent` the argument of `onSubmit`; any other key does
        nothing. */
    method HandleKeyDown(key: string) returns (submitted: Option<Verdict>, sent: Option<Record<Value>>)
      modifies this`next
      ensures key != "Enter" ==> submitted == None && sent == None && next == old(next)
      ensures key == "Enter" ==>
        && submitted.Some?
        && Submission(submitted.value, next)
           == SubmitOutcome(committed, rules, requireds, requiresValidation, old(next))
        && sent == if submitted.value == Accepted then Some(committed.values) else None
    {
      if key == "Enter" {
        var verdict;
        verdict, sent := HandleSubmit();
        submitted := Some(verdict);
      } else {
        submitted, sent := None, None;
      }
    }
  }
}
