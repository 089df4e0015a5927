/** What the handlers of src/index.ts compute, as functions of what one
    render hands them: the `requireds` and `bypassValidation` options, the
    merged rule map `validation`, and the `errors`/`valids` snapshot the
    handler closures read. A setter call does not change that snapshot; it
    replaces the pending next state, so the last call of each setter wins. */
module FormSpec {
  import opened Js
  import opened Validation

  const Mandatory: string := "This field is mandatory."
  const InvalidValue: string := "Invalid value."

  /** An entry of `valids`: true, false or null. */
  datatype Validity = Passed | Failed | Unknown

  /** The two React state maps, `errors` and `valids`. */
  datatype Maps = Maps(errors: map<string, string>, valids: map<string, Validity>)

  /** What `validate` gives its caller: true, false, or an exception thrown
      out of a rule's test. */
  datatype Verdict = Accepted | Rejected | Threw

  /** What one render hands to `validate`. */
  datatype Ctx = Ctx(requireds: seq<string>, bypass: seq<string>, rules: map<string, Rule>, snap: Maps)

  /** Which branch of `validate` a field and a value take. */
  datatype Decision = MissingValue | RulePassed | RuleFailed(error: string) | RuleThrew | NoRule

  /** A verdict with the pending state after the call. */
  datatype Step = Step(verdict: Verdict, next: Maps)

  /** `{ ...standardValidation(values), ...customValidation }`: a custom rule
      replaces the built-in rule of the same name. */
  function Merge(std: map<string, Rule>, custom: map<string, Rule>): (r: map<string, Rule>)
    ensures r.Keys == std.Keys + custom.Keys
    ensures forall k | k in custom :: r[k] == custom[k]
    ensures forall k | k in std && k !in custom :: r[k] == std[k]
  {
    std + custom
  }

  /** The three-way decision of `validate`: a required field holding an empty
      value is refused before any rule; otherwise a rule that exists and is
      not bypassed is run (the built-in rule set of src/index.ts captures
      `values` and never reads the registry); otherwise the field is accepted. */
  function Decide(ctx: Ctx, f: string, v: Value): Decision {
    if f in ctx.requireds && RequiredEmpty(v) then MissingValue
    else if f in ctx.rules && f !in ctx.bypass then
      match Run(ctx.rules[f].check, map[], v)
      case Pass => RulePassed
      case Fail => RuleFailed(ctx.rules[f].error)
      case TypeError => RuleThrew
    else NoRule
  }

  /** `validate` returns false on this field and value. */
  predicate Fails(ctx: Ctx, f: string, v: Value) {
    Decide(ctx, f, v).MissingValue? || Decide(ctx, f, v).RuleFailed?
  }

  /** A rule's test throws on this field and value. */
  predicate Throws(ctx: Ctx, f: string, v: Value) {
    Decide(ctx, f, v).RuleThrew?
  }

  /** `validate(f, v, silent)` with `next` the pending state before the call.
      Every write starts from the snapshot; a failing rule without an error
      message leaves the pending `errors` as they were. */
  function ValidateStep(ctx: Ctx, next: Maps, f: string, v: Value, silent: bool): (r: Step)
    ensures silent ==> r.next == next
    ensures r.verdict == Threw ==> r.next == next
    ensures r.verdict == Threw <==> Throws(ctx, f, v)
    ensures r.verdict == Rejected <==> Fails(ctx, f, v)
  {
    var snap := ctx.snap;
    match Decide(ctx, f, v)
    case MissingValue =>
      Step(Rejected, if silent then next else Maps(snap.errors[f := Mandatory], snap.valids[f := Failed]))
    case RulePassed =>
      Step(Accepted, if silent then next else Maps(snap.errors - {f}, snap.valids[f := Passed]))
    case RuleFailed(e) =>
      Step(Rejected, if silent then next
                     else Maps(if e != "" then snap.errors[f := e] else next.errors, snap.valids[f := Failed]))
    case RuleThrew => Step(Threw, next)
    case NoRule => Step(Accepted, next)
  }

  /** `validation[f]?.error || 'Invalid value.'` */
  function ErrorFor(rules: map<string, Rule>, f: string): (r: string)
    ensures r != ""
    ensures f in rules && rules[f].error != "" ==> r == rules[f].error
  {
    if f in rules && rules[f].error != "" then rules[f].error else InvalidValue
  }

  /** The `valids` entry a non-silent `validate` writes for a decision. */
  function ValidityOf(d: Decision): Validity {
    if d.RulePassed? then Passed else Failed
  }

  /** Whether a non-silent `validate` with this decision calls `handleValids`. */
  predicate WritesValids(d: Decision) {
    d.MissingValue? || d.RulePassed? || d.RuleFailed?
  }

  // ---------------------------------------------------------------------
  // The four branches of validate

  /** A silent call is a dry run: it returns what the non-silent call returns
      and leaves the pending state alone. */
  lemma SilentIsDryRun(ctx: Ctx, next: Maps, f: string, v: Value)
    ensures ValidateStep(ctx, next, f, v, true).next == next
    ensures ValidateStep(ctx, next, f, v, true).verdict == ValidateStep(ctx, next, f, v, false).verdict
  {
  }

  /** A required field whose value is falsy or an object without entries is
      refused with the mandatory message, whatever rule it has. */
  lemma RequiredEmptyStep(ctx: Ctx, next: Maps, f: string, v: Value)
    requires f in ctx.requireds && RequiredEmpty(v)
    ensures var r := ValidateStep(ctx, next, f, v, false);
      && r.verdict == Rejected
      && r.next.errors == ctx.snap.errors[f := Mandatory]
      && r.next.valids == ctx.snap.valids[f := Failed]
  {
  }

  /** A rule that passes clears the field's error and marks it valid; nothing
      else differs from the snapshot. */
  lemma RulePassStep(ctx: Ctx, next: Maps, f: string, v: Value)
    requires !(f in ctx.requireds && RequiredEmpty(v)) && f in ctx.rules && f !in ctx.bypass
    requires Run(ctx.rules[f].check, map[], v) == Pass
    ensures var r := ValidateStep(ctx, next, f, v, false);
      && r.verdict == Accepted
      && f !in r.next.errors && r.next.errors - {f} == ctx.snap.errors - {f}
      && r.next.valids == ctx.snap.valids[f := Passed]
  {
  }

  /** A rule that fails marks the field invalid, and records its message only
      when it has one; without one the pending `errors` are not touched. */
  lemma RuleFailStep(ctx: Ctx, next: Maps, f: string, v: Value)
    requires !(f in ctx.requireds && RequiredEmpty(v)) && f in ctx.rules && f !in ctx.bypass
    requires Run(ctx.rules[f].check, map[], v) == Fail
    ensures var r := ValidateStep(ctx, next, f, v, false);
      && r.verdict == Rejected
      && r.next.valids == ctx.snap.valids[f := Failed]
      && (ctx.rules[f].error != "" ==> r.next.errors == ctx.snap.errors[f := ctx.rules[f].error])
      && (ctx.rules[f].error == "" ==> r.next.errors == next.errors)
  {
  }

  /** A field with no rule, or a bypassed one, that is not required-and-empty
      is accepted and nothing is written. */
  lemma UncheckedStep(ctx: Ctx, next: Maps, f: string, v: Value, silent: bool)
    requires !(f in ctx.requireds && RequiredEmpty(v))
    requires f !in ctx.rules || f in ctx.bypass
    ensures ValidateStep(ctx, next, f, v, silent) == Step(Accepted, next)
  {
  }

  /** No built-in or custom test throws on text, so a string value never
      makes `validate` throw. */
  lemma TextNeverThrows(ctx: Ctx, f: string, s: string)
    ensures !Throws(ctx, f, Str(s))
  {
    if f in ctx.rules {
      StringsNeverThrow(ctx.rules[f].check, map[], s);
    }
  }

  // ---------------------------------------------------------------------
  // validateAll

  /** What the `forEach` loops of `validateAll` carry: `errs`, the pending
      state, and whether a test has thrown (which ends the loops). */
  datatype Acc = Acc(errs: map<string, string>, next: Maps, threw: bool)

  /** One loop step: `validate(name, values[name])`, then the `errs` entry
      for a failing name that is not in the bypassed list. */
  function Visit(ctx: Ctx, bypassed: seq<string>, vals: map<string, Value>, a: Acc, name: string): Acc {
    if a.threw then a
    else
      var s := ValidateStep(ctx, a.next, name, Get(vals, name), false);
      if s.verdict == Threw then Acc(a.errs, s.next, true)
      else if s.verdict == Rejected && name !in bypassed then
        Acc(a.errs[name := ErrorFor(ctx.rules, name)], s.next, false)
      else Acc(a.errs, s.next, false)
  }

  /** The loop steps over `names`, in order. */
  function Collect(ctx: Ctx, bypassed: seq<string>, vals: map<string, Value>, a: Acc, names: seq<string>): Acc
    decreases |names|
  {
    if names == [] then a
    else Visit(ctx, bypassed, vals, Collect(ctx, bypassed, vals, a, names[..|names| - 1]), names[|names| - 1])
  }

  /** `requireds.forEach(name => { if (!values[name]) errs[name] = ... })` */
  function Missing(requireds: seq<string>, vals: map<string, Value>): map<string, string> {
    map n | n in requireds && Falsy(Get(vals, n)) :: Mandatory
  }

  /** One more required name adds the mandatory message for it when its
      value is falsy, over whatever `errs` held for it. */
  lemma MissingSnoc(errs: map<string, string>, requireds: seq<string>, vals: map<string, Value>, name: string)
    ensures errs + Missing(requireds + [name], vals)
         == if Falsy(Get(vals, name)) then (errs + Missing(requireds, vals))[name := Mandatory]
            else errs + Missing(requireds, vals)
  {
    var m, m' := Missing(requireds, vals), Missing(requireds + [name], vals);
    assert forall n :: n in requireds + [name] <==> n in requireds || n == name;
    if Falsy(Get(vals, name)) {
      assert m' == m[name := Mandatory];
    } else {
      assert m' == m;
    }
  }

  /** `validateAll(bypassed)`: the custom rule names, then the entries of
      `values`, then the required names; then one `handleErrors` call that
      overlays the snapshot with `errs`. It returns true only when `errs` and
      the snapshot's `errors` are both empty. */
  function ValidateAllOutcome(ctx: Ctx, vals: Record<Value>, customKeys: seq<string>,
                              bypassed: seq<string>, next0: Maps): (r: Step)
    ensures r.verdict == Accepted ==> r.next.errors == map[]
  {
    var a := Collect(ctx, bypassed, vals.at, Acc(map[], next0, false), customKeys + vals.keys);
    if a.threw then Step(Threw, a.next)
    else
      var errs := a.errs + Missing(ctx.requireds, vals.at);
      Step(if errs == map[] && ctx.snap.errors == map[] then Accepted else Rejected,
           Maps(ctx.snap.errors + errs, a.next.valids))
  }

  /** No name of `names` after position `i` has its `validate` call write
      `valids`. */
  predicate NoLaterWriter(ctx: Ctx, vals: map<string, Value>, names: seq<string>, i: nat) {
    forall j | i < j < |names| :: !WritesValids(Decide(ctx, names[j], Get(vals, names[j])))
  }

  /** The last name whose `validate` call writes `valids`. */
  function LastWriter(ctx: Ctx, vals: map<string, Value>, names: seq<string>): (r: Option<string>)
    ensures r.Some? ==> WritesValids(Decide(ctx, r.value, Get(vals, r.value)))
    ensures r.Some? ==> exists i | 0 <= i < |names| :: names[i] == r.value && NoLaterWriter(ctx, vals, names, i)
    ensures r.None? ==> forall k | k in names :: !WritesValids(Decide(ctx, k, Get(vals, k)))
    decreases |names|
  {
    if names == [] then None
    else
      var n := |names| - 1;
      var last := names[n];
      if WritesValids(Decide(ctx, last, Get(vals, last))) then Some(last)
      else
        var r := LastWriter(ctx, vals, names[..n]);
        assert forall k | k in names :: k in names[..n] || k == last;
        assert r.Some? ==> exists i | 0 <= i < |names| :: names[i] == r.value && NoLaterWriter(ctx, vals, names, i) by {
          if r.Some? {
            var i :| 0 <= i < n && names[..n][i] == r.value && NoLaterWriter(ctx, vals, names[..n], i);
            assert names[i] == r.value && NoLaterWriter(ctx, vals, names, i);
          }
        }
        r
  }

  /** One loop step, given what the `validate` call returned: `Visit`
      unfolded once, so that the loop of `ValidateEach` can use it without
      unfolding `ValidateStep` again. */
  lemma VisitFollows(ctx: Ctx, bypassed: seq<string>, vals: map<string, Value>, a: Acc, name: string, s: Step)
    requires !a.threw && ValidateStep(ctx, a.next, name, Get(vals, name), false) == s
    ensures Visit(ctx, bypassed, vals, a, name)
         == if s.verdict == Threw then Acc(a.errs, s.next, true)
            else if s.verdict == Rejected && name !in bypassed then Acc(a.errs[name := ErrorFor(ctx.rules, name)], s.next, false)
            else Acc(a.errs, s.next, false)
  {
  }

  /** Visiting one more name is one more loop step. */
  lemma CollectSnoc(ctx: Ctx, bypassed: seq<string>, vals: map<string, Value>, a: Acc, names: seq<string>, name: string)
    ensures Collect(ctx, bypassed, vals, a, names + [name])
         == Visit(ctx, bypassed, vals, Collect(ctx, bypassed, vals, a, names), name)
  {
    assert (names + [name])[..|names|] == names;
  }

  /** Once a test has thrown, later steps change nothing. */
  lemma {:induction false} ThrewAbsorbs(ctx: Ctx, bypassed: seq<string>, vals: map<string, Value>,
                                        a: Acc, names: seq<string>)
    requires a.threw
    ensures Collect(ctx, bypassed, vals, a, names) == a
    decreases |names|
  {
    if names != [] {
      ThrewAbsorbs(ctx, bypassed, vals, a, names[..|names| - 1]);
    }
  }

  /** Visiting `names` then `rest` is visiting `rest` from where `names`
      left off. */
  lemma {:induction false} CollectConcat(ctx: Ctx, bypassed: seq<string>, vals: map<string, Value>,
                                         a: Acc, names: seq<string>, rest: seq<string>)
    ensures Collect(ctx, bypassed, vals, a, names + rest)
         == Collect(ctx, bypassed, vals, Collect(ctx, bypassed, vals, a, names), rest)
    decreases |rest|
  {
    if rest == [] {
      assert names + rest == names;
    } else {
      var init, last := rest[..|rest| - 1], rest[|rest| - 1];
      assert names + rest == (names + init) + [last];
      CollectSnoc(ctx, bypassed, vals, a, names + init, last);
      CollectConcat(ctx, bypassed, vals, a, names, init);
      CollectSnoc(ctx, bypassed, vals, Collect(ctx, bypassed, vals, a, names), init, last);
      assert rest == init + [last];
    }
  }

  /** A throw at the `i`-th name ends the loop there. */
  lemma ThrowEndsCollect(ctx: Ctx, bypassed: seq<string>, vals: map<string, Value>, a: Acc,
                         names: seq<string>, i: nat)
    requires i < |names| && Collect(ctx, bypassed, vals, a, names[..i + 1]).threw
    ensures Collect(ctx, bypassed, vals, a, names) == Collect(ctx, bypassed, vals, a, names[..i + 1])
  {
    var pre, rest := names[..i + 1], names[i + 1..];
    assert pre + rest == names;
    CollectConcat(ctx, bypassed, vals, a, pre, rest);
    ThrewAbsorbs(ctx, bypassed, vals, Collect(ctx, bypassed, vals, a, pre), rest);
  }

  /** The loops throw exactly when some visited name's test throws. */
  lemma {:induction false} CollectThrows(ctx: Ctx, bypassed: seq<string>, vals: map<string, Value>,
                                         next0: Maps, names: seq<string>)
    ensures Collect(ctx, bypassed, vals, Acc(map[], next0, false), names).threw
        <==> exists k | k in names :: Throws(ctx, k, Get(vals, k))
    decreases |names|
  {
    if names != [] {
      var init, last := names[..|names| - 1], names[|names| - 1];
      assert names == init + [last];
      CollectThrows(ctx, bypassed, vals, next0, init);
    }
  }

  /** Until a throw, `errs` holds exactly the failing names outside the
      bypassed list. */
  lemma {:induction false} CollectErrKeys(ctx: Ctx, bypassed: seq<string>, vals: map<string, Value>,
                                          next0: Maps, names: seq<string>)
    ensures var a := Collect(ctx, bypassed, vals, Acc(map[], next0, false), names);
      !a.threw ==> forall k :: k in a.errs <==> k in names && k !in bypassed && Fails(ctx, k, Get(vals, k))
    decreases |names|
  {
    if names != [] {
      var init, last := names[..|names| - 1], names[|names| - 1];
      assert forall k :: k in names <==> k in init || k == last;
      CollectErrKeys(ctx, bypassed, vals, next0, init);
    }
  }

  /** Every name in `errs` carries its rule's message or 'Invalid value.'. */
  lemma {:induction false} CollectMessages(ctx: Ctx, bypassed: seq<string>, vals: map<string, Value>,
                                           next0: Maps, names: seq<string>)
    ensures var a := Collect(ctx, bypassed, vals, Acc(map[], next0, false), names);
      forall k | k in a.errs :: a.errs[k] == ErrorFor(ctx.rules, k)
    decreases |names|
  {
    if names != [] {
      CollectMessages(ctx, bypassed, vals, next0, names[..|names| - 1]);
    }
  }

  /** Without a throw, the pending `valids` after the loops is the snapshot
      updated at one key only: the last name whose `validate` wrote it; or,
      when no visited name writes it, the pending `valids` from before the
      loops. */
  lemma {:induction false} CollectValids(ctx: Ctx, bypassed: seq<string>, vals: map<string, Value>,
                                         next0: Maps, names: seq<string>)
    ensures var a := Collect(ctx, bypassed, vals, Acc(map[], next0, false), names);
      !a.threw ==> a.next.valids == match LastWriter(ctx, vals, names)
        case None => next0.valids
        case Some(w) => ctx.snap.valids[w := ValidityOf(Decide(ctx, w, Get(vals, w)))]
    decreases |names|
  {
    if names != [] {
      CollectValids(ctx, bypassed, vals, next0, names[..|names| - 1]);
    }
  }

  /** `validateAll` throws exactly when the test of a custom rule name or a
      field of `values` throws. */
  lemma ValidateAllThrows(ctx: Ctx, vals: Record<Value>, customKeys: seq<string>, bypassed: seq<string>, next0: Maps)
    ensures ValidateAllOutcome(ctx, vals, customKeys, bypassed, next0).verdict == Threw
        <==> exists k | k in customKeys + vals.keys :: Throws(ctx, k, Get(vals.at, k))
  {
    CollectThrows(ctx, bypassed, vals.at, next0, customKeys + vals.keys);
  }

  /** `validateAll` returns true exactly when nothing throws, the snapshot
      has no errors, every visited name outside the bypassed list passes, and
      every required name holds a truthy value. */
  lemma ValidateAllAccepts(ctx: Ctx, vals: Record<Value>, customKeys: seq<string>, bypassed: seq<string>, next0: Maps)
    ensures ValidateAllOutcome(ctx, vals, customKeys, bypassed, next0).verdict == Accepted
        <==> && (forall k | k in customKeys + vals.keys :: !Throws(ctx, k, Get(vals.at, k)))
             && ctx.snap.errors == map[]
             && (forall k | k in customKeys + vals.keys && k !in bypassed :: !Fails(ctx, k, Get(vals.at, k)))
             && (forall n | n in ctx.requireds :: Truthy(Get(vals.at, n)))
  {
    var names := customKeys + vals.keys;
    CollectThrows(ctx, bypassed, vals.at, next0, names);
    CollectErrKeys(ctx, bypassed, vals.at, next0, names);
    var a := Collect(ctx, bypassed, vals.at, Acc(map[], next0, false), names);
    if !a.threw {
      var errs := a.errs + Missing(ctx.requireds, vals.at);
      if errs == map[] {
        forall n | n in ctx.requireds ensures Truthy(Get(vals.at, n)) {
          assert n !in Missing(ctx.requireds, vals.at);
        }
      }
      if (forall n | n in ctx.requireds :: Truthy(Get(vals.at, n)))
         && (forall k | k in names && k !in bypassed :: !Fails(ctx, k, Get(vals.at, k))) {
        assert a.errs == map[];
        assert Missing(ctx.requireds, vals.at) == map[];
      }
    }
  }

  /** After a `validateAll` that did not throw, `errors` is the snapshot
      overlaid with the new errors: every required name holding a falsy
      value gets the mandatory message, even when it is in the bypassed
      list; any other failing name outside that list gets its rule's message
      or 'Invalid value.'; every other key keeps its snapshot entry. */
  lemma ValidateAllErrors(ctx: Ctx, vals: Record<Value>, customKeys: seq<string>, bypassed: seq<string>,
                          next0: Maps, k: string)
    requires ValidateAllOutcome(ctx, vals, customKeys, bypassed, next0).verdict != Threw
    ensures var errors := ValidateAllOutcome(ctx, vals, customKeys, bypassed, next0).next.errors;
      var missing := k in ctx.requireds && Falsy(Get(vals.at, k));
      var failed := k in customKeys + vals.keys && k !in bypassed && Fails(ctx, k, Get(vals.at, k));
      && (k in errors <==> (k in ctx.snap.errors || missing || failed))
      && (missing ==> errors[k] == Mandatory)
      && (!missing && failed ==> errors[k] == ErrorFor(ctx.rules, k))
      && (!missing && !failed && k in ctx.snap.errors ==> errors[k] == ctx.snap.errors[k])
  {
    CollectErrKeys(ctx, bypassed, vals.at, next0, customKeys + vals.keys);
    CollectMessages(ctx, bypassed, vals.at, next0, customKeys + vals.keys);
  }

  /** After a `validateAll` that did not throw, `valids` is the snapshot
      updated only at the last field whose `validate` called `handleValids`,
      or, when no visited name writes it, the pending `valids` from before
      the loops; the writes of every earlier field are lost. */
  lemma ValidateAllValids(ctx: Ctx, vals: Record<Value>, customKeys: seq<string>, bypassed: seq<string>, next0: Maps)
    requires ValidateAllOutcome(ctx, vals, customKeys, bypassed, next0).verdict != Threw
    ensures var valids := ValidateAllOutcome(ctx, vals, customKeys, bypassed, next0).next.valids;
      valids == match LastWriter(ctx, vals.at, customKeys + vals.keys)
        case None => next0.valids
        case Some(w) => ctx.snap.valids[w := ValidityOf(Decide(ctx, w, Get(vals.at, w)))]
  {
    CollectValids(ctx, bypassed, vals.at, next0, customKeys + vals.keys);
  }

  /** A required field holding an object without entries fails `validate`
      but is truthy, so `validateAll` gives it its rule's message or
      'Invalid value.', not the mandatory one; when that field is in the
      bypassed list, it adds no error at all. */
  lemma EmptyObjectRequired(ctx: Ctx, vals: Record<Value>, customKeys: seq<string>, bypassed: seq<string>,
                            next0: Maps, f: string, ref: nat)
    requires ValidateAllOutcome(ctx, vals, customKeys, bypassed, next0).verdict != Threw
    requires f in ctx.requireds && f in vals.keys && Get(vals.at, f) == Obj(ref, map[])
    requires f !in ctx.snap.errors
    ensures var errors := ValidateAllOutcome(ctx, vals, customKeys, bypassed, next0).next.errors;
      && (f !in bypassed ==> f in errors && errors[f] == ErrorFor(ctx.rules, f))
      && (f in bypassed ==> f !in errors)
  {
    ValidateAllErrors(ctx, vals, customKeys, bypassed, next0, f);
  }
}
