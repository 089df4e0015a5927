/** The controller of src/index.ts: the handlers the hook returns, over the
    module-level `values` object (replaced at once by `setValues`) and the
    React state `errors`/`valids` (read from the last render's snapshot,
    written as the pending next state). */
module Form {
  import opened Js
  import opened Patterns
  import opened Validation
  import opened FormSpec

  /** The hook's options. `onSubmit` is a callback: its call is the `sent`
      result of `HandleSubmit`. Of `onKeyDown` only its presence matters. */
  datatype Options = Options(
    defaultValues: Record<Value>,
    requireds: seq<string>,
    bypassValidation: seq<string>,
    hasKeyHandler: bool,
    customValidation: Record<Rule>,
    validateOnChange: seq<string>,
    validateOnBlur: seq<string>,
    validateOnSubmit: seq<string>,
    validateDefaultValuesOnMount: bool)

  /** What a key press leads to. */
  datatype KeyOutcome =
    | Delegated
    | Ignored
    | Submitted(verdict: Verdict, sent: Option<Record<Value>>)

  class FormController {
    const opts: Options
    const email: EmailPattern
    /** The module-level `values`. */
    var values: Record<Value>
    /** `validation` as the last render built it, from the `values` of that
        moment and the custom rules. */
    var validation: map<string, Rule>
    /** The `errors` and `valids` the handlers of the last render read. */
    var committed: Maps
    /** What the next render shows: the argument of the last setter call. */
    var next: Maps

    ghost predicate Valid()
      reads this
    {
      values.Valid() && opts.customValidation.Valid()
    }

    function Context(): Ctx
      reads this
    {
      Ctx(opts.requireds, opts.bypassValidation, validation, committed)
    }

    /** The first render of a hook instance; `shared` is whatever the
        module-level `values` holds at that moment. */
    constructor (opts: Options, email: EmailPattern, shared: Record<Value>)
      requires opts.customValidation.Valid() && shared.Valid()
      ensures Valid() && this.opts == opts && this.email == email
      ensures values == shared
      ensures validation == Merge(StandardValidation(shared.at, email), opts.customValidation.at)
      ensures committed == Maps(map[], map[]) && next == committed
    {
      this.opts := opts;
      this.email := email;
      values := shared;
      validation := Merge(StandardValidation(shared.at, email), opts.customValidation.at);
      committed := Maps(map[], map[]);
      next := Maps(map[], map[]);
    }

    /** A re-render: the pending state becomes the snapshot and the rule set
        is built again, capturing the current `values`. */
    method Render()
      modifies this`committed, this`validation
      ensures committed == old(next)
      ensures validation == Merge(StandardValidation(values.at, email), opts.customValidation.at)
    {
      committed := next;
      validation := Merge(StandardValidation(values.at, email), opts.customValidation.at);
    }

    /** `validate(fieldName, value, silent)` */
    method Validate(f: string, v: Value, silent: bool) returns (verdict: Verdict)
      modifies this`next
      ensures Step(verdict, next) == ValidateStep(Context(), old(next), f, v, silent)
      ensures silent ==> next == old(next)
    {
      var ctx := Context();
      var snap := committed;
      match Decide(ctx, f, v)
      case MissingValue =>
        if !silent {
          next := Maps(snap.errors[f := Mandatory], snap.valids[f := Failed]);
        }
        verdict := Rejected;
      case RulePassed =>
        if !silent {
          next := Maps(snap.errors - {f}, snap.valids[f := Passed]);
        }
        verdict := Accepted;
      case RuleFailed(e) =>
        if e != "" && !silent {
          next := Maps(snap.errors[f := e], next.valids);
        }
        if !silent {
          next := Maps(next.errors, snap.valids[f := Failed]);
        }
        verdict := Rejected;
      case RuleThrew =>
        verdict := Threw;
      case NoRule =>
        verdict := Accepted;
    }

    /** One `forEach` of `validateAll`: `validate(name, values[name])` for
        each name in turn, adding to `errs` each failing name outside the
        bypassed list; a throw ends it. */
    method ValidateEach(names: seq<string>, bypassed: seq<string>, errs0: map<string, string>)
      returns (errs: map<string, string>, threw: bool)
      modifies this`next
      ensures Collect(Context(), bypassed, values.at, Acc(errs0, old(next), false), names) == Acc(errs, next, threw)
    {
      var ctx := Context();
      var vals := values.at;
      ghost var a0 := Acc(errs0, next, false);
      errs := errs0;
      var i := 0;
      while i < |names|
        invariant 0 <= i <= |names|
        invariant Collect(ctx, bypassed, vals, a0, names[..i]) == Acc(errs, next, false)
      {
        var name := names[i];
        ghost var before := Acc(errs, next, false);
        var outcome := Validate(name, Get(vals, name), false);
        assert Context() == ctx;
        VisitFollows(ctx, bypassed, vals, before, name, Step(outcome, next));
        assert names[..i + 1] == names[..i] + [name];
        CollectSnoc(ctx, bypassed, vals, a0, names[..i], name);
        if outcome == Threw {
          ThrowEndsCollect(ctx, bypassed, vals, a0, names, i);
          return errs, true;
        }
        if outcome == Rejected && name !in bypassed {
          errs := errs[name := ErrorFor(ctx.rules, name)];
        }
        i := i + 1;
      }
      assert names[..i] == names;
      threw := false;
    }

    /** The last `forEach` of `validateAll`: every required name whose value
        is falsy gets the mandatory message, whatever `errs` held for it. */
    method AddMissing(errs0: map<string, string>) returns (errs: map<string, string>)
      ensures errs == errs0 + Missing(opts.requireds, values.at)
    {
      var vals := values.at;
      errs := errs0;
      var k := 0;
      while k < |opts.requireds|
        invariant 0 <= k <= |opts.requireds|
        invariant errs == errs0 + Missing(opts.requireds[..k], vals)
      {
        var name := opts.requireds[k];
        assert opts.requireds[..k + 1] == opts.requireds[..k] + [name];
        MissingSnoc(errs0, opts.requireds[..k], vals, name);
        if Falsy(Get(vals, name)) {
          errs := errs[name := Mandatory];
        }
        k := k + 1;
      }
      assert opts.requireds[..k] == opts.requireds;
    }

    /** `validateAll(bypassedFieldNames)`: the custom rule names, then the
        entries of `values`, then the required names; on a throw the final
        `handleErrors` is never reached. */
    method ValidateAll(bypassed: seq<string>) returns (verdict: Verdict)
      modifies this`next
      ensures Step(verdict, next)
           == ValidateAllOutcome(Context(), values, opts.customValidation.keys, bypassed, old(next))
    {
      ghost var ctx, a0 := Context(), Acc(map[], next, false);
      var custom, keys := opts.customValidation.keys, values.keys;
      CollectConcat(ctx, bypassed, values.at, a0, custom, keys);
      var errs, threw := ValidateEach(custom, bypassed, map[]);
      if threw {
        ThrewAbsorbs(ctx, bypassed, values.at, Acc(errs, next, true), keys);
        return Threw;
      }
      errs, threw := ValidateEach(keys, bypassed, errs);
      if threw {
        return Threw;
      }
      errs := AddMissing(errs);
      next := Maps(committed.errors + errs, next.valids);
      verdict := if errs == map[] && committed.errors == map[] then Accepted else Rejected;
    }

    /** `handleSubmit(event)`: `onSubmit(values)` runs, and `sent` holds its
        argument, exactly when `validateAll(validateOnSubmit)` returns true. */
    method HandleSubmit() returns (verdict: Verdict, sent: Option<Record<Value>>)
      modifies this`next
      ensures Step(verdict, next)
           == ValidateAllOutcome(Context(), values, opts.customValidation.keys, opts.validateOnSubmit, old(next))
      ensures sent == if verdict == Accepted then Some(values) else None
    {
      verdict := ValidateAll(opts.validateOnSubmit);
      sent := if verdict == Accepted then Some(values) else None;
    }

    /** `cleanFieldError(fieldName)` */
    method CleanFieldError(f: string)
      modifies this`next
      ensures next == Maps(committed.errors - {f}, old(next).valids)
    {
      next := Maps(committed.errors - {f}, next.valids);
    }

    /** `validateFieldOnChange(fieldName, value)`; `raised` is a test's
        exception passing through. */
    method ValidateFieldOnChange(f: string, v: Value) returns (raised: bool)
      modifies this`next
      ensures f in opts.validateOnChange ==>
        var s := ValidateStep(Context(), old(next), f, v, false);
        next == s.next && raised == (s.verdict == Threw)
      ensures f !in opts.validateOnChange ==>
        !raised && next == Maps(committed.errors - {f}, old(next).valids)
    {
      if f in opts.validateOnChange {
        var verdict := Validate(f, v, false);
        raised := verdict == Threw;
      } else {
        CleanFieldError(f);
        raised := false;
      }
    }

    /** `handleChange(event)` for a text input: the new `values` is visible at
        once, so the `values.confirmPassword` test sees the value just typed. */
    method HandleChange(name: string, value: string)
      requires Valid()
      modifies this`values, this`next
      ensures Valid() && values == old(values).With(name, Str(value))
      ensures name in opts.validateOnChange ==>
        next == ValidateStep(Context(), old(next), name, Str(value), false).next
      ensures name !in opts.validateOnChange ==>
        next == Maps(committed.errors - {name},
                     if Truthy(Get(values.at, "confirmPassword"))
                     then committed.valids[name := Unknown]["confirmPassword" := Unknown]
                     else committed.valids[name := Unknown])
    {
      values := values.With(name, Str(value));
      var raised := ValidateFieldOnChange(name, Str(value));
      TextNeverThrows(Context(), name, value);
      if name !in opts.validateOnChange {
        var valids := if Truthy(Get(values.at, "confirmPassword"))
                      then committed.valids[name := Unknown]["confirmPassword" := Unknown]
                      else committed.valids[name := Unknown];
        next := Maps(next.errors, valids);
      }
    }

    /** `handleChangeCheckbox(event)` */
    method HandleChangeCheckbox(name: string, checked: bool) returns (raised: bool)
      requires Valid()
      modifies this`values, this`next
      ensures Valid() && values == old(values).With(name, Bool(checked))
      ensures name in opts.validateOnChange ==>
        var s := ValidateStep(Context(), old(next), name, Bool(checked), false);
        next == s.next && raised == (s.verdict == Threw)
      ensures name !in opts.validateOnChange ==>
        !raised && next == Maps(committed.errors - {name}, old(next).valids)
    {
      values := values.With(name, Bool(checked));
      raised := ValidateFieldOnChange(name, Bool(checked));
    }

    /** `handleChangeRadio(fieldName, fieldValue)`: `values` is replaced only
        when the value is not strictly equal to the current one. */
    method HandleChangeRadio(f: string, v: Value) returns (raised: bool)
      requires Valid()
      modifies this`values, this`next
      ensures Valid()
      ensures values == if StrictEquals(Get(old(values).at, f), v) then old(values) else old(values).With(f, v)
      ensures f in opts.validateOnChange ==>
        var s := ValidateStep(Context(), old(next), f, v, false);
        next == s.next && raised == (s.verdict == Threw)
      ensures f !in opts.validateOnChange ==>
        !raised && next == Maps(committed.errors - {f}, old(next).valids)
    {
      if !StrictEquals(Get(values.at, f), v) {
        values := values.With(f, v);
      }
      raised := ValidateFieldOnChange(f, v);
    }

    /** `handleBlur(e)`: validates the field's current value when it is
        listed in `validateOnBlur` or that list is empty. */
    method HandleBlur(name: string) returns (raised: bool)
      modifies this`next
      ensures name in opts.validateOnBlur || opts.validateOnBlur == [] ==>
        var s := ValidateStep(Context(), old(next), name, Get(values.at, name), false);
        next == s.next && raised == (s.verdict == Threw)
      ensures !(name in opts.validateOnBlur || opts.validateOnBlur == []) ==>
        !raised && next == old(next)
    {
      raised := false;
      if name in opts.validateOnBlur || |opts.validateOnBlur| == 0 {
        var verdict := Validate(name, Get(values.at, name), false);
        raised := verdict == Threw;
      }
    }

    /** `handleKeyDown(event)`: a supplied `onKeyDown` takes every key;
        otherwise Enter submits and any other key does nothing. */
    method HandleKeyDown(key: string) returns (outcome: KeyOutcome)
      modifies this`next
      ensures opts.hasKeyHandler ==> outcome == Delegated && next == old(next)
      ensures !opts.hasKeyHandler && key != "Enter" ==> outcome == Ignored && next == old(next)
      ensures !opts.hasKeyHandler && key == "Enter" ==>
        && outcome.Submitted?
        && Step(outcome.verdict, next)
           == ValidateAllOutcome(Context(), values, opts.customValidation.keys, opts.validateOnSubmit, old(next))
        && outcome.sent == if outcome.verdict == Accepted then Some(values) else None
    {
      if opts.hasKeyHandler {
        outcome := Delegated;
      } else if key == "Enter" {
        var verdict, sent := HandleSubmit();
        outcome := Submitted(verdict, sent);
      } else {
        outcome := Ignored;
      }
    }

    /** The default-value effect: when `values` is empty and `defaultValues`
        is not, `values` becomes `defaultValues`; then either every default
        entry is validated in order, or `errors` is cleared. */
    method HydrateDefaults() returns (raised: bool)
      requires Valid() && opts.defaultValues.Valid()
      modifies this`values, this`next
      ensures Valid()
      ensures old(values).keys == [] && opts.defaultValues.keys != [] ==>
        && values == opts.defaultValues
        && (opts.validateDefaultValuesOnMount ==>
              var a := Collect(Context(), [], opts.defaultValues.at, Acc(map[], old(next), false), opts.defaultValues.keys);
              next == a.next && raised == a.threw)
        && (!opts.validateDefaultValuesOnMount ==> !raised && next == Maps(map[], old(next).valids))
      ensures !(old(values).keys == [] && opts.defaultValues.keys != []) ==>
        !raised && values == old(values) && next == old(next)
    {
      raised := false;
      if |values.keys| == 0 && |opts.defaultValues.keys| != 0 {
        values := opts.defaultValues;
        if opts.validateDefaultValuesOnMount {
          var _, threw := ValidateEach(opts.defaultValues.keys, [], map[]);
          raised := threw;
        } else {
          next := Maps(map[], next.valids);
        }
      }
    }

    /** The unmount effect: `setValues({})`. */
    method Unmount()
      modifies this`values
      ensures values == EmptyRecord()
    {
      values := EmptyRecord();
    }
  }
}
