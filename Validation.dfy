/** The validation rules and the three auth schemas (login, forgot password,
    signup), modelled on the schema library's behaviour: every check of a
    string rule runs and reports its message in order, a value of the wrong
    type aborts its field, an object schema reports each field's issues under
    the field's name, and a refinement on an object runs only when no field
    aborted. */
module Validation {
  import opened Forms
  import opened Text

  /** What the rules take from outside: the library's e-mail pattern, the
      coercion of a value to a point in time (None for an invalid date) and
      the instant at which the schemas were built, which the birth-date rule
      compares against. */
  datatype Env = Env(isEmail: string -> bool, toTime: Value -> Option<int>, loadTime: int)

  predicate HasAt(s: string) { exists i :: 0 <= i < |s| && s[i] == '@' }

  /** The e-mail pattern only accepts strings with an `@`. */
  ghost predicate EnvOk(env: Env)
  {
    forall s :: env.isEmail(s) ==> HasAt(s)
  }

  /** One check of a chain: no message when it holds, its message otherwise. */
  function Need(holds: bool, message: string): (r: seq<string>)
    ensures |r| == 0 <==> holds
  {
    if holds then [] else [message]
  }

  function TypeName(v: Value): string
  {
    match v
    case Undefined => "undefined"
    case Str(_) => "string"
    case Bool(_) => "boolean"
  }

  /** The library's default message for a value of the wrong type. */
  function TypeMessage(expected: string, v: Value): string
  {
    if v.Undefined? then "Required" else "Expected " + expected + ", received " + TypeName(v)
  }

  function TypeFailure(expected: string, v: Value): (c: Check)
    ensures !c.Ok() && c.aborted
  {
    Check(v, [TypeMessage(expected, v)], true)
  }

  // ---- Patterns ----

  /** `/^[a-zA-Z0-9_]+$/` */
  predicate UsernamePattern(s: string)
  {
    |s| > 0 && forall i :: 0 <= i < |s| ==> IsWordChar(s[i])
  }

  /** `/^[a-zA-Z\s]*$/` */
  predicate NamePattern(s: string)
  {
    forall i :: 0 <= i < |s| ==> IsLetter(s[i]) || IsWhitespace(s[i])
  }

  predicate HasUpper(s: string) { exists i :: 0 <= i < |s| && IsUpper(s[i]) }
  predicate HasLower(s: string) { exists i :: 0 <= i < |s| && IsLower(s[i]) }
  predicate HasDigit(s: string) { exists i :: 0 <= i < |s| && IsDigit(s[i]) }
  /** `/[^A-Za-z0-9]/` */
  predicate HasSpecial(s: string) { exists i :: 0 <= i < |s| && !IsLetter(s[i]) && !IsDigit(s[i]) }

  // ---- Field rules ----

  /** `emailRule`: at least one character, the e-mail pattern, then trimmed. */
  function EmailRule(env: Env, v: Value): Check
  {
    match v
    case Str(s) =>
      Check(Str(Trim(s)), Need(|s| >= 1, "Email is required") + Need(env.isEmail(s), "Invalid email address"), false)
    case _ => TypeFailure("string", v)
  }

  /** `usernameRule`: at least three characters from `[a-zA-Z0-9_]`, then trimmed. */
  function UsernameRule(v: Value): Check
  {
    match v
    case Str(s) =>
      Check(Str(Trim(s)),
            Need(|s| >= 3, "Username must be at least 3 characters")
            + Need(UsernamePattern(s), "Only letters, numbers and underscores allowed"),
            false)
    case _ => TypeFailure("string", v)
  }

  /** `passwordRule`: eight characters and one of each character class. */
  function PasswordRule(v: Value): Check
  {
    match v
    case Str(s) =>
      Check(v,
            Need(|s| >= 8, "Password must be atleast 8 characters")
            + Need(HasUpper(s), "Must contain atleast one uppercase letter")
            + Need(HasLower(s), "Must contain atleast one lowercase letter")
            + Need(HasDigit(s), "Must contain atleast one number")
            + Need(HasSpecial(s), "Must contain atleast one special character"),
            false)
    case _ => TypeFailure("string", v)
  }

  /** `nameRule`: two characters, only ASCII letters and whitespace, then trimmed. */
  function NameRule(v: Value): Check
  {
    match v
    case Str(s) =>
      Check(Str(Trim(s)), Need(|s| >= 2, "Must be atleast 2 characters") + Need(NamePattern(s), "Only letters allowed"), false)
    case _ => TypeFailure("string", v)
  }

  /** `birthDateRule`: the value is coerced to a date (an invalid date aborts)
      and must not lie after the instant the schema was built. */
  function BirthDateRule(env: Env, v: Value): Check
  {
    match env.toTime(v)
    case None => Check(v, ["Invalid date"], true)
    case Some(t) => Check(v, Need(t <= env.loadTime, "Birth date cannot be in the future"), false)
  }

  /** `emailOrUsernameRule`: non-empty, then trimmed, then the trimmed value
      must pass the e-mail rule or the username rule. */
  function EmailOrUsernameRule(env: Env, v: Value): Check
  {
    match v
    case Str(s) =>
      var t := Trim(s);
      Check(Str(t),
            Need(|s| >= 1, "Email or Username is required")
            + Need(EmailRule(env, Str(t)).Ok() || UsernameRule(Str(t)).Ok(), "Enter a valid email or username"),
            false)
    case _ => TypeFailure("string", v)
  }

  /** The login password: any non-empty string. */
  function RequiredPasswordRule(v: Value): Check
  {
    match v
    case Str(s) => Check(v, Need(|s| >= 1, "Password is required"), false)
    case _ => TypeFailure("string", v)
  }

  /** An optional boolean: absent or a boolean. */
  function OptionalBoolRule(v: Value): Check
  {
    match v
    case Str(_) => TypeFailure("boolean", v)
    case _ => Check(v, [], false)
  }

  predicate IsGender(v: Value)
  {
    v == Str("male") || v == Str("female") || v == Str("other")
  }

  /** The gender enumeration; every failure carries the one custom message. */
  function GenderRule(v: Value): Check
  {
    if IsGender(v) then Check(v, [], false) else Check(v, ["Please select a gender"], true)
  }

  /** Any string. */
  function PlainStringRule(v: Value): Check
  {
    match v
    case Str(_) => Check(v, [], false)
    case _ => TypeFailure("string", v)
  }

  // ---- The auth schemas ----

  function LoginFields(env: Env): seq<Field>
  {
    [ Field("emailOrUsername", v => EmailOrUsernameRule(env, v)),
      Field("password", RequiredPasswordRule),
      Field("rememberMe", OptionalBoolRule) ]
  }

  function LoginSchema(env: Env): Schema { Schema(LoginFields(env), None) }

  function ForgotPasswordFields(env: Env): seq<Field>
  {
    [ Field("emailOrUsername", v => EmailOrUsernameRule(env, v)) ]
  }

  function ForgotPasswordSchema(env: Env): Schema { Schema(ForgotPasswordFields(env), None) }

  function SignupFields(env: Env): seq<Field>
  {
    [ Field("firstName", NameRule),
      Field("lastName", NameRule),
      Field("birthDate", v => BirthDateRule(env, v)),
      Field("gender", GenderRule),
      Field("username", UsernameRule),
      Field("email", v => EmailRule(env, v)),
      Field("password", PasswordRule),
      Field("confirmPassword", PlainStringRule) ]
  }

  const PasswordMismatch: Issue := Issue(Some("confirmPassword"), "Passwords do not match")

  /** The signup object refined by the passwords-match check. */
  function SignupSchema(env: Env): Schema
  {
    Schema(SignupFields(env), Some(SameValue("password", "confirmPassword", "Passwords do not match")))
  }

  lemma LoginNamesUnique(env: Env)
    ensures UniqueAt(LoginFields(env), 0) && UniqueAt(LoginFields(env), 1)
  {
  }

  lemma SignupNamesUnique(env: Env)
    ensures UniqueAt(SignupFields(env), 6) && UniqueAt(SignupFields(env), 7)
  {
  }

  // ---- Properties of the rules ----

  /** The password rule never reports the passwords-match message. */
  lemma PasswordRuleMessages(v: Value)
    ensures "Passwords do not match" !in PasswordRule(v).messages
  {
  }

  /** A username is accepted exactly when it has three or more characters, all
      from `[a-zA-Z0-9_]`. */
  lemma UsernameAccepted(s: string)
    ensures UsernameRule(Str(s)).Ok() <==> |s| >= 3 && forall i :: 0 <= i < |s| ==> IsWordChar(s[i])
  {
  }

  /** A password is accepted exactly when it has eight or more characters and
      an upper-case letter, a lower-case letter, a digit and a character
      outside `[A-Za-z0-9]`. */
  lemma PasswordAccepted(s: string)
    ensures PasswordRule(Str(s)).Ok() <==>
      |s| >= 8
      && (exists i :: 0 <= i < |s| && 'A' <= s[i] <= 'Z')
      && (exists i :: 0 <= i < |s| && 'a' <= s[i] <= 'z')
      && (exists i :: 0 <= i < |s| && '0' <= s[i] <= '9')
      && (exists i :: 0 <= i < |s| && !('A' <= s[i] <= 'Z' || 'a' <= s[i] <= 'z' || '0' <= s[i] <= '9'))
  {
  }

  /** A name is accepted exactly when it has two or more characters, all ASCII
      letters or whitespace. */
  lemma NameAccepted(s: string)
    ensures NameRule(Str(s)).Ok() <==> |s| >= 2 && forall i :: 0 <= i < |s| ==> IsLetter(s[i]) || IsWhitespace(s[i])
  {
  }

  /** An e-mail-or-username is accepted exactly when it is non-empty and its
      trimmed form is an e-mail address or a username. */
  lemma EmailOrUsernameAccepted(env: Env, s: string)
    ensures EmailOrUsernameRule(env, Str(s)).Ok() <==>
      |s| >= 1 && ((|Trim(s)| >= 1 && env.isEmail(Trim(s))) || UsernameRule(Str(Trim(s))).Ok())
  {
  }

  /** An e-mail is accepted exactly when it is non-empty and matches the
      e-mail pattern as typed; the output is the trimmed text. */
  lemma EmailAccepted(env: Env, s: string)
    ensures EmailRule(env, Str(s)).Ok() <==> |s| >= 1 && env.isEmail(s)
    ensures EmailRule(env, Str(s)).output == Str(Trim(s))
  {
  }

  /** A birth date is accepted exactly when it is a valid date no later than
      the instant the schema was built; an invalid date aborts. */
  lemma BirthDateAccepted(env: Env, v: Value)
    ensures BirthDateRule(env, v).Ok() <==> env.toTime(v).Some? && env.toTime(v).value <= env.loadTime
    ensures BirthDateRule(env, v).aborted <==> env.toTime(v).None?
  {
  }

  /** A value that is not a string aborts every string rule with the
      library's type message: 'Required' when the field is missing,
      'Expected string, received ...' otherwise. A string aborts the optional
      boolean the same way. */
  lemma WrongTypeRejected(env: Env, v: Value)
    ensures !v.Str? ==>
      && EmailRule(env, v) == TypeFailure("string", v)
      && UsernameRule(v) == TypeFailure("string", v)
      && PasswordRule(v) == TypeFailure("string", v)
      && NameRule(v) == TypeFailure("string", v)
      && EmailOrUsernameRule(env, v) == TypeFailure("string", v)
      && RequiredPasswordRule(v) == TypeFailure("string", v)
      && PlainStringRule(v) == TypeFailure("string", v)
    ensures v.Str? ==> OptionalBoolRule(v) == TypeFailure("boolean", v)
    ensures TypeFailure("string", v).messages == [TypeMessage("string", v)]
    ensures v.Undefined? ==> TypeMessage("string", v) == "Required"
    ensures v.Bool? ==> TypeMessage("string", v) == "Expected string, received boolean"
  {
    if v.Bool? {
      assert TypeMessage("string", v) == "Expected string, received boolean";
    }
  }

  /** Fewer than three word characters (so no `@`) are rejected: 'a' and 'ab'
      among them. */
  lemma {:induction false} ShortEntriesRejected(env: Env, s: string)
    requires EnvOk(env)
    requires |s| < 3 && forall i :: 0 <= i < |s| ==> IsWordChar(s[i])
    ensures !EmailOrUsernameRule(env, Str(s)).Ok()
  {
    WordCharsUntrimmed(s);
    assert !env.isEmail(s);
    assert !EmailRule(env, Str(Trim(s))).Ok();
    assert !UsernameRule(Str(Trim(s))).Ok();
  }

  /** Word characters are neither whitespace nor `@`. */
  lemma {:induction false} WordCharsUntrimmed(s: string)
    requires forall i :: 0 <= i < |s| ==> IsWordChar(s[i])
    ensures Trim(s) == s && !HasAt(s)
  {
    assert |s| > 0 ==> IsWordChar(s[0]) && IsWordChar(s[|s| - 1]);
    TrimUntouched(s);
    forall i | 0 <= i < |s| ensures s[i] != '@' {
      assert IsWordChar(s[i]);
    }
  }

  /** Three word characters are a username. */
  lemma {:induction false} ThreeCharsAccepted(env: Env, s: string)
    requires s == "abc"
    ensures EmailOrUsernameRule(env, Str(s)).Ok()
  {
    TrimUntouched(s);
    assert UsernameRule(Str(s)).Ok();
  }

  /** Whitespace around an entry does not change whether it is accepted. */
  lemma {:induction false} PaddingIgnored(env: Env, a: string, t: string, b: string)
    requires AllWhitespace(a) && AllWhitespace(b)
    requires |t| > 0 && !IsWhitespace(t[0]) && !IsWhitespace(t[|t| - 1])
    ensures EmailOrUsernameRule(env, Str(a + t + b)).Ok() == EmailOrUsernameRule(env, Str(t)).Ok()
  {
    TrimPadded(a, t, b);
    TrimUntouched(t);
  }

  /** An empty entry fails both the required check and the refinement, in that
      order; a blank entry fails only the refinement. */
  lemma {:induction false} EmailOrUsernameBlank(env: Env, s: string)
    requires AllWhitespace(s)
    ensures EmailOrUsernameRule(env, Str(s)).messages ==
      (if s == "" then ["Email or Username is required"] else []) + ["Enter a valid email or username"]
  {
    assert Trim(s) == "";
  }

  // ---- Properties of the schemas ----

  /** Login accepts exactly a valid e-mail-or-username, a non-empty password
      and a remember-me flag that is absent or a boolean. */
  lemma {:induction false} LoginAccepts(env: Env, input: map<string, Value>)
    ensures Parse(LoginSchema(env), input).Success? <==>
      EmailOrUsernameRule(env, Lookup(input, "emailOrUsername")).Ok()
      && Lookup(input, "password").Str? && |Lookup(input, "password").s| >= 1
      && !Lookup(input, "rememberMe").Str?
  {
    var fields := LoginFields(env);
    PlainAccepts(LoginSchema(env), input);
    var c0, c1, c2 := RunField(fields[0], input), RunField(fields[1], input), RunField(fields[2], input);
    assert c0 == EmailOrUsernameRule(env, Lookup(input, "emailOrUsername"));
    assert c1 == RequiredPasswordRule(Lookup(input, "password"));
    assert c2 == OptionalBoolRule(Lookup(input, "rememberMe"));
    assert (forall i :: 0 <= i < |fields| ==> RunField(fields[i], input).Ok()) <==> c0.Ok() && c1.Ok() && c2.Ok();
  }

  /** The data handed on after a successful login parse: only the three
      fields, the e-mail-or-username trimmed, the password as typed. */
  lemma {:induction false} LoginData(env: Env, input: map<string, Value>)
    requires Parse(LoginSchema(env), input).Success?
    ensures var data := Parse(LoginSchema(env), input).data;
      && data.Keys <= {"emailOrUsername", "password", "rememberMe"}
      && Lookup(input, "emailOrUsername").Str?
      && data.Keys >= {"emailOrUsername", "password"}
      && data["emailOrUsername"] == Str(Trim(Lookup(input, "emailOrUsername").s))
      && data["password"] == Lookup(input, "password")
  {
    var p := ParseObject(LoginFields(env), input);
    assert Parse(LoginSchema(env), input) == Finish(p);
    LoginObjectKeys(env, input);
    LoginObjectData(env, input);
  }

  /** The login object's output has no key but its three fields. */
  lemma {:induction false} LoginObjectKeys(env: Env, input: map<string, Value>)
    ensures ParseObject(LoginFields(env), input).data.Keys <= {"emailOrUsername", "password", "rememberMe"}
  {
    var fields := LoginFields(env);
    var names := [fields[0].name, fields[1].name, fields[2].name];
    assert names == ["emailOrUsername", "password", "rememberMe"];
    forall n | n in ParseObject(fields, input).data ensures n in {"emailOrUsername", "password", "rememberMe"} {
      ParseObjectDataKeys(fields, input, n);
      var i :| 0 <= i < |fields| && fields[i].name == n;
      assert n == names[i];
    }
  }

  /** A login object without issues outputs the trimmed e-mail-or-username
      and the password as typed. */
  lemma {:induction false} LoginObjectData(env: Env, input: map<string, Value>)
    requires |ParseObject(LoginFields(env), input).issues| == 0
    ensures var data := ParseObject(LoginFields(env), input).data;
      && Lookup(input, "emailOrUsername").Str?
      && data.Keys >= {"emailOrUsername", "password"}
      && data["emailOrUsername"] == Str(Trim(Lookup(input, "emailOrUsername").s))
      && data["password"] == Lookup(input, "password")
  {
    var fields := LoginFields(env);
    ParseObjectClean(fields, input);
    LoginNamesUnique(env);
    assert RunField(fields[0], input).Ok() && RunField(fields[1], input).Ok();
    assert RunField(fields[0], input) == EmailOrUsernameRule(env, Lookup(input, "emailOrUsername"));
    assert RunField(fields[1], input) == RequiredPasswordRule(Lookup(input, "password"));
    ParseObjectData(fields, input, 0);
    ParseObjectData(fields, input, 1);
  }

  /** The forgot-password form is accepted exactly when its
      e-mail-or-username is. */
  lemma {:induction false} ForgotPasswordAccepts(env: Env, input: map<string, Value>)
    ensures Parse(ForgotPasswordSchema(env), input).Success? <==>
      EmailOrUsernameRule(env, Lookup(input, "emailOrUsername")).Ok()
  {
    ParseObjectClean(ForgotPasswordFields(env), input);
    assert RunField(ForgotPasswordFields(env)[0], input) == EmailOrUsernameRule(env, Lookup(input, "emailOrUsername"));
  }

  /** The forgot-password schema looks at nothing but the e-mail-or-username:
      two forms that agree on it parse alike. */
  lemma {:induction false} ForgotPasswordReadsOneField(env: Env, a: map<string, Value>, b: map<string, Value>)
    requires Lookup(a, "emailOrUsername") == Lookup(b, "emailOrUsername")
    requires "emailOrUsername" in a <==> "emailOrUsername" in b
    ensures Parse(ForgotPasswordSchema(env), a) == Parse(ForgotPasswordSchema(env), b)
  {
    var fields := ForgotPasswordFields(env);
    assert fields[1..] == [];
    assert RunField(fields[0], a) == RunField(fields[0], b);
  }

  /** A gender outside male, female and other fails the signup form with the
      gender message under `gender`. */
  lemma {:induction false} SignupGenderRequired(env: Env, input: map<string, Value>)
    requires !IsGender(Lookup(input, "gender"))
    ensures Parse(SignupSchema(env), input).Failure?
    ensures Issue(Some("gender"), "Please select a gender") in Parse(SignupSchema(env), input).issues
  {
    var fields := SignupFields(env);
    assert RunField(fields[3], input) == Check(Lookup(input, "gender"), ["Please select a gender"], true);
    ParseObjectAborted(fields, input);
    ParseObjectComplete(fields, input, 3, 0);
  }

  /** Each signup rule that aborts also reports a message. */
  lemma SignupAbortReports(env: Env, input: map<string, Value>, i: nat)
    requires i < |SignupFields(env)|
    ensures RunField(SignupFields(env)[i], input).aborted ==> !RunField(SignupFields(env)[i], input).Ok()
  {
  }

  /** A signup object with no issue has no aborted field. */
  lemma {:induction false} SignupCleanNotAborted(env: Env, input: map<string, Value>)
    requires |ParseObject(SignupFields(env), input).issues| == 0
    ensures !ParseObject(SignupFields(env), input).aborted
  {
    var fields := SignupFields(env);
    ParseObjectAborted(fields, input);
    forall i | 0 <= i < |fields| ensures !RunField(fields[i], input).aborted {
      SignupAbortReports(env, input, i);
      if !RunField(fields[i], input).Ok() {
        ParseObjectComplete(fields, input, i, 0);
      }
    }
  }

  /** When no field aborts, the password and its confirmation reach the
      refinement as typed. */
  lemma {:induction false} SignupPasswordsReachRefinement(env: Env, input: map<string, Value>)
    ensures var p := ParseObject(SignupFields(env), input);
      Holds(SignupSchema(env).refinement.value, p.data) <==> Lookup(input, "password") == Lookup(input, "confirmPassword")
  {
    var fields := SignupFields(env);
    SignupNamesUnique(env);
    assert fields[6].name == "password" && fields[7].name == "confirmPassword";
    assert RunField(fields[6], input).output == Lookup(input, "password");
    assert RunField(fields[7], input).output == Lookup(input, "confirmPassword");
    ParseObjectPassThrough(fields, input, 6);
    ParseObjectPassThrough(fields, input, 7);
  }

  /** Differing passwords, with no field aborted, end the issue list with
      'Passwords do not match' under `confirmPassword`; no issue under
      `password` carries that message. */
  lemma {:induction false} SignupPasswordMismatch(env: Env, input: map<string, Value>)
    requires !ParseObject(SignupFields(env), input).aborted
    requires Lookup(input, "password") != Lookup(input, "confirmPassword")
    ensures var r := Parse(SignupSchema(env), input);
      && r.Failure? && |r.issues| > 0 && r.issues[|r.issues| - 1] == PasswordMismatch
      && forall j :: 0 <= j < |r.issues| && r.issues[j].head == Some("password") ==>
           r.issues[j].message != "Passwords do not match"
  {
    var p := ParseObject(SignupFields(env), input);
    SignupPasswordsReachRefinement(env, input);
    RefinementFails(SignupSchema(env), input);
    SignupPasswordIssues(env, input);
    var r := Parse(SignupSchema(env), input);
    assert r.issues == p.issues + [PasswordMismatch];
    assert "confirmPassword"[0] != "password"[0];
    forall j | 0 <= j < |r.issues| && r.issues[j].head == Some("password")
      ensures r.issues[j].message != "Passwords do not match"
    {
      if j < |p.issues| {
        assert r.issues[j] == p.issues[j];
      }
    }
  }

  /** No field issue under `password` carries the passwords-match message. */
  lemma {:induction false} SignupPasswordIssues(env: Env, input: map<string, Value>)
    ensures var p := ParseObject(SignupFields(env), input);
      forall j :: 0 <= j < |p.issues| && p.issues[j].head == Some("password") ==>
        p.issues[j].message != "Passwords do not match"
  {
    var fields := SignupFields(env);
    var p := ParseObject(fields, input);
    SignupNamesUnique(env);
    assert fields[6].name == "password";
    forall j | 0 <= j < |p.issues| && p.issues[j].head == Some("password")
      ensures p.issues[j].message != "Passwords do not match"
    {
      ParseObjectIssueAt(fields, input, 6, j);
      PasswordRuleMessages(Lookup(input, "password"));
    }
  }

  /** Signup accepts exactly when every field passes and the two passwords
      are equal. */
  lemma {:induction false} SignupAccepts(env: Env, input: map<string, Value>)
    ensures Parse(SignupSchema(env), input).Success? <==>
      (forall i :: 0 <= i < |SignupFields(env)| ==> RunField(SignupFields(env)[i], input).Ok())
      && Lookup(input, "password") == Lookup(input, "confirmPassword")
  {
    var schema := SignupSchema(env);
    forall i | 0 <= i < |schema.fields| && RunField(schema.fields[i], input).aborted
      ensures !RunField(schema.fields[i], input).Ok()
    {
      SignupAbortReports(env, input, i);
    }
    RefinedAccepts(schema, input);
    SignupPasswordsReachRefinement(env, input);
  }
}
