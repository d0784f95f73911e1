/** The auth form-state manager: the values typed so far, the error shown per
    field, which fields have lost focus, whether a submit is under way and
    whether the form has been submitted since it was last reset. */
module Auth {
  import opened Forms
  import opened Validation

  /** The message shown for a failed field rule: its first message, or
      'Invalid value' when it has none. */
  function FirstMessage(c: Check): string
  {
    if |c.messages| > 0 then c.messages[0] else "Invalid value"
  }

  /** The error map after validating `value` as `field` against `schema`. */
  function Validated(errors: map<string, string>, field: string, value: Value, schema: Option<Schema>): (r: map<string, string>)
    ensures forall k :: k != field ==> (k in r <==> k in errors) && (k in r ==> r[k] == errors[k])
    ensures RuleFor(schema, field).None? ==> r == errors
    ensures RuleFor(schema, field).Some? ==>
      var c := RuleFor(schema, field).value(value);
      (field in r <==> !c.Ok()) && (field in r ==> r[field] == c.messages[0])
  {
    match RuleFor(schema, field)
    case None => errors
    case Some(rule) =>
      var c := rule(value);
      if c.Ok() then errors - {field} else errors[field := FirstMessage(c)]
  }

  /** JavaScript truthiness of a path segment: a present, non-empty name. */
  predicate Truthy(head: Option<string>)
  {
    head.Some? && head.value != ""
  }

  /** The error map a failed submit shows: each issue whose path starts with a
      non-empty name files its message under that name, later issues
      overwriting earlier ones. */
  function ErrorsFromIssues(issues: seq<Issue>): (r: map<string, string>)
    ensures forall k :: k in r <==> exists j :: 0 <= j < |issues| && Truthy(issues[j].head) && issues[j].head.value == k
  {
    if |issues| == 0 then map[]
    else
      var m := ErrorsFromIssues(issues[..|issues| - 1]);
      var last := issues[|issues| - 1];
      assert forall j :: 0 <= j < |issues| - 1 ==> issues[..|issues| - 1][j] == issues[j];
      if Truthy(last.head) then m[last.head.value := last.message] else m
  }

  /** The message filed under `k` is that of the last issue under `k`. */
  lemma {:induction false} ErrorsFromIssuesLastWins(issues: seq<Issue>, k: string, j: nat)
    requires j < |issues| && Truthy(issues[j].head) && issues[j].head.value == k
    requires forall l :: j < l < |issues| ==> issues[l].head != Some(k)
    ensures k in ErrorsFromIssues(issues) && ErrorsFromIssues(issues)[k] == issues[j].message
  {
    var n := |issues|;
    var init := issues[..n - 1];
    if j < n - 1 {
      assert init[j] == issues[j];
      assert forall l :: j < l < n - 1 ==> init[l] == issues[l];
      ErrorsFromIssuesLastWins(init, k, j);
      var m := ErrorsFromIssues(init);
      assert issues[n - 1].head != Some(k);
      assert ErrorsFromIssues(issues) == if Truthy(issues[n - 1].head) then m[issues[n - 1].head.value := issues[n - 1].message] else m;
    }
  }

  /** The auth form state and its handlers. */
  class AuthProps {
    var values: map<string, Value>
    var errors: map<string, string>
    var focussed: map<string, bool>
    var isLoading: bool
    var submitted: bool

    constructor()
      ensures values == map[] && errors == map[] && focussed == map[]
      ensures !isLoading && !submitted
    {
      values := map[];
      errors := map[];
      focussed := map[];
      isLoading := false;
      submitted := false;
    }

    /** Whether `field` has lost focus since the last reset. */
    function Focussed(field: string): bool
      reads this
    {
      field in focussed && focussed[field]
    }

    /** `fieldValidate`: validates one field against the schema's rule for it,
        if the schema exposes one, and updates that field's error. */
    method FieldValidate(field: string, value: Value, schema: Option<Schema>)
      modifies this
      ensures errors == Validated(old(errors), field, value, schema)
      ensures values == old(values) && focussed == old(focussed)
      ensures isLoading == old(isLoading) && submitted == old(submitted)
    {
      var rule := RuleFor(schema, field);
      if rule.None? {
        return;
      }
      var result := rule.value(value);
      if result.Ok() {
        errors := errors - {field};
      } else {
        errors := errors[field := FirstMessage(result)];
      }
    }

    /** `handleFieldBlur`: marks the field focussed and validates its stored
        value. */
    method HandleFieldBlur(field: string, schema: Schema)
      modifies this
      ensures focussed == old(focussed)[field := true]
      ensures errors == Validated(old(errors), field, Lookup(old(values), field), Some(schema))
      ensures values == old(values) && isLoading == old(isLoading) && submitted == old(submitted)
    {
      var value := Lookup(values, field);
      focussed := focussed[field := true];
      FieldValidate(field, value, Some(schema));
    }

    /** `handleFieldChange`: stores the value and validates it when a schema is
        given and the field has been focussed or the form submitted. */
    method HandleFieldChange(field: string, value: Value, schema: Option<Schema>)
      modifies this
      ensures values == old(values)[field := value]
      ensures errors == if schema.Some? && (old(Focussed(field)) || submitted)
                        then Validated(old(errors), field, value, schema) else old(errors)
      ensures focussed == old(focussed) && isLoading == old(isLoading) && submitted == old(submitted)
    {
      values := values[field := value];
      if schema.Some? && (Focussed(field) || submitted) {
        FieldValidate(field, value, schema);
      }
    }

    /** `handleSubmit`: validates the whole form. On failure it shows the
        issues and keeps the form; on success it hands the parsed data to the
        callback once (returned in `delivered`) and resets the form, whether
        the callback returns or throws. A submit always ends not loading. */
    method HandleSubmit(schema: Schema) returns (delivered: Option<map<string, Value>>)
      modifies this
      ensures var r := Parse(schema, old(values));
        delivered.Some? <==> r.Success?
      ensures Parse(schema, old(values)).Success? ==>
        && delivered == Some(Parse(schema, old(values)).data)
        && values == map[] && errors == map[] && focussed == map[] && !submitted
      ensures Parse(schema, old(values)).Failure? ==>
        && errors == ErrorsFromIssues(Parse(schema, old(values)).issues)
        && values == old(values) && focussed == old(focussed) && submitted
      ensures !isLoading
    {
      isLoading := true;
      submitted := true;
      errors := map[];
      var result := Parse(schema, values);
      if result.Failure? {
        var issues := result.issues;
        var fieldErrors: map<string, string> := map[];
        for i := 0 to |issues|
          invariant fieldErrors == ErrorsFromIssues(issues[..i])
        {
          assert issues[..i + 1][..i] == issues[..i];
          if Truthy(issues[i].head) {
            fieldErrors := fieldErrors[issues[i].head.value := issues[i].message];
          }
        }
        assert issues[..|issues|] == issues;
        errors := fieldErrors;
        isLoading := false;
        delivered := None;
        return;
      }
      // The callback runs once; a throw is caught and logged, so the state
      // that follows does not depend on how it ends.
      delivered := Some(result.data);
      isLoading := false;
      ResetForm();
    }

    /** `resetForm`: clears the values, errors, focus marks and the submitted
        flag; the loading flag is left alone. */
    method ResetForm()
      modifies this
      ensures values == map[] && errors == map[] && focussed == map[] && !submitted
      ensures isLoading == old(isLoading)
    {
      values := map[];
      errors := map[];
      focussed := map[];
      submitted := false;
    }
  }

  // ---- Properties of the handlers ----

  /** Validation with no schema, or with no rule for the field, leaves the
      errors alone. */
  lemma NoRuleNoChange(errors: map<string, string>, field: string, value: Value, schema: Option<Schema>)
    requires schema.None? || Shape(schema.value).None? || field !in Shape(schema.value).value
    ensures Validated(errors, field, value, schema) == errors
  {
  }

  /** The signup schema is refined, so it exposes no per-field rules: blur and
      change validation never touch the errors while the signup view is
      shown. */
  lemma SignupFieldValidationIsNoOp(env: Env, errors: map<string, string>, field: string, value: Value)
    ensures Validated(errors, field, value, Some(SignupSchema(env))) == errors
  {
  }

  /** Validating a field twice with the same value is validating it once. */
  lemma ValidatedIdempotent(errors: map<string, string>, field: string, value: Value, schema: Option<Schema>)
    ensures var once := Validated(errors, field, value, schema);
      Validated(once, field, value, schema) == once
  {
  }

  /** In the login view the e-mail-or-username error is set exactly when the
      value is rejected, and is then the rule's first message. */
  lemma {:induction false} LoginFieldError(env: Env, errors: map<string, string>, value: Value)
    ensures var r := Validated(errors, "emailOrUsername", value, Some(LoginSchema(env)));
      && ("emailOrUsername" in r <==> !EmailOrUsernameRule(env, value).Ok())
      && ("emailOrUsername" in r ==> r["emailOrUsername"] == EmailOrUsernameRule(env, value).messages[0])
  {
    var fields := LoginFields(env);
    assert fields[0].name == "emailOrUsername";
    assert RuleFor(Some(LoginSchema(env)), "emailOrUsername") == Some(fields[0].rule);
  }

  /** Two issues under the same field: the later message is shown. */
  lemma {:induction false} LaterIssueShown(k: string, first: string, second: string)
    requires k != ""
    ensures ErrorsFromIssues([Issue(Some(k), first), Issue(Some(k), second)]) == map[k := second]
  {
    var issues := [Issue(Some(k), first), Issue(Some(k), second)];
    ErrorsFromIssuesLastWins(issues, k, 1);
  }

  /** A failed submit shows, under a uniquely named field whose rule fails,
      the rule's LAST message, unless a refinement files its issue under the
      same name. */
  lemma {:induction false} SubmitShowsLastMessage(schema: Schema, input: map<string, Value>, i: nat)
    requires i < |schema.fields| && UniqueAt(schema.fields, i) && schema.fields[i].name != ""
    requires |RunField(schema.fields[i], input).messages| > 0
    requires schema.refinement.Some? ==> schema.refinement.value.other != schema.fields[i].name
    ensures Parse(schema, input).Failure?
    ensures var n, ms, e := schema.fields[i].name, RunField(schema.fields[i], input).messages,
                            ErrorsFromIssues(Parse(schema, input).issues);
      n in e && e[n] == ms[|ms| - 1]
  {
    var n, ms := schema.fields[i].name, RunField(schema.fields[i], input).messages;
    var p := ParseObject(schema.fields, input);
    ParseObjectLastIssue(schema.fields, input, i);
    var j :| LastIssueAt(p.issues, j, n, ms);
    var issues := Parse(schema, input).issues;
    assert issues[..|p.issues|] == p.issues;
    forall l | j < l < |issues| ensures issues[l].head != Some(n) {
      if l >= |p.issues| {
        assert issues[l].head == Some(schema.refinement.value.other);
      } else {
        assert issues[l] == p.issues[l];
      }
    }
    assert issues[j] == p.issues[j];
    ErrorsFromIssuesLastWins(issues, n, j);
  }

  /** An empty login identifier: blur shows the rule's first message, a
      failed submit its last one. */
  lemma {:induction false} EmptyIdentifierMessages(env: Env, errors: map<string, string>, input: map<string, Value>)
    requires Lookup(input, "emailOrUsername") == Str("")
    ensures var blur := Validated(errors, "emailOrUsername", Str(""), Some(LoginSchema(env)));
      "emailOrUsername" in blur && blur["emailOrUsername"] == "Email or Username is required"
    ensures Parse(LoginSchema(env), input).Failure?
    ensures var submit := ErrorsFromIssues(Parse(LoginSchema(env), input).issues);
      "emailOrUsername" in submit && submit["emailOrUsername"] == "Enter a valid email or username"
  {
    EmailOrUsernameBlank(env, "");
    LoginFieldError(env, errors, Str(""));
    LoginNamesUnique(env);
    var fields := LoginFields(env);
    assert RunField(fields[0], input) == EmailOrUsernameRule(env, Str(""));
    SubmitShowsLastMessage(LoginSchema(env), input, 0);
  }

  /** A signup whose fields all pass but whose passwords differ shows exactly
      one error, 'Passwords do not match' under `confirmPassword`. */
  lemma {:induction false} SignupMismatchErrors(env: Env, input: map<string, Value>)
    requires |ParseObject(SignupFields(env), input).issues| == 0
    requires Lookup(input, "password") != Lookup(input, "confirmPassword")
    ensures Parse(SignupSchema(env), input).Failure?
    ensures ErrorsFromIssues(Parse(SignupSchema(env), input).issues) == map["confirmPassword" := "Passwords do not match"]
  {
    var p := ParseObject(SignupFields(env), input);
    SignupCleanNotAborted(env, input);
    SignupPasswordMismatch(env, input);
    var issues := Parse(SignupSchema(env), input).issues;
    assert issues == [PasswordMismatch];
    ErrorsFromIssuesLastWins(issues, "confirmPassword", 0);
  }
}
