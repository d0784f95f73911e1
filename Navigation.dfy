/** The application's navigation component: the link table it gives the
    navbar, its own record of which auth view is shown, and how it wires the
    auth form-state manager to that view's schema. Its view is separate from
    the auth dialog's own view: the dialog never reports view changes, so
    the two can differ. */
module Navigation {
  import opened Forms
  import opened Validation
  import opened Auth
  import opened AuthCard
  import opened SidePanel

  /** `navLinks`: a public group and a protected group. */
  function NavLinks(): (groups: seq<Group>)
    ensures |groups| == 2
  {
    [ Group(Some("Navigation"), false, [Item("Home", "/"), Item("About", "/about")]),
      Group(Some("User"), true, [Item("Account", "/account"), Item("Chat", "/chat"), Item("Preferences", "/preferences")]) ]
  }

  /** `getCurrentSchema`: the schema of each view. */
  function CurrentSchema(env: Env, view: View): (s: Schema)
    ensures view == Login ==> s == LoginSchema(env)
    ensures view == Signup ==> s == SignupSchema(env)
    ensures view == ForgotPassword ==> s == ForgotPasswordSchema(env)
  {
    match view
    case Login => LoginSchema(env)
    case Signup => SignupSchema(env)
    case ForgotPassword => ForgotPasswordSchema(env)
  }

  class Navigation {
    const env: Env
    const form: AuthProps
    var view: View

    constructor(env: Env)
      ensures this.env == env && fresh(form) && view == Login
      ensures form.values == map[] && form.errors == map[] && form.focussed == map[]
      ensures !form.isLoading && !form.submitted
    {
      this.env := env;
      form := new AuthProps();
      view := Login;
    }

    /** `handleViewChange`: switching to another view records it and resets
        the form; choosing the current view does nothing. */
    method HandleViewChange(next: View)
      modifies this, form
      ensures view == next
      ensures next == old(view) ==>
        && form.values == old(form.values) && form.errors == old(form.errors)
        && form.focussed == old(form.focussed) && form.submitted == old(form.submitted)
      ensures next != old(view) ==>
        form.values == map[] && form.errors == map[] && form.focussed == map[] && !form.submitted
      ensures form.isLoading == old(form.isLoading)
    {
      if next == view {
        return;
      }
      view := next;
      form.ResetForm();
    }

    /** The dialog's field change, forwarded with the current view's schema. */
    method OnFieldChange(field: string, value: Value)
      modifies form
      ensures form.values == old(form.values)[field := value]
      ensures form.errors == if old(form.Focussed(field)) || form.submitted
                             then Validated(old(form.errors), field, value, Some(CurrentSchema(env, view)))
                             else old(form.errors)
      ensures form.focussed == old(form.focussed) && form.submitted == old(form.submitted)
      ensures form.isLoading == old(form.isLoading)
    {
      form.HandleFieldChange(field, value, Some(CurrentSchema(env, view)));
    }

    /** The dialog's field blur, forwarded with the current view's schema. */
    method OnFieldBlur(field: string)
      modifies form
      ensures form.focussed == old(form.focussed)[field := true]
      ensures form.errors == Validated(old(form.errors), field, Lookup(old(form.values), field), Some(CurrentSchema(env, view)))
      ensures form.values == old(form.values) && form.submitted == old(form.submitted)
      ensures form.isLoading == old(form.isLoading)
    {
      form.HandleFieldBlur(field, CurrentSchema(env, view));
    }

    /** `handleAuthSubmit`: submits the form against this component's own
        view, whatever view the dialog reports. The submit callback only logs
        and catches its own errors, so it always returns. */
    method HandleAuthSubmit(submittedView: View) returns (delivered: Option<map<string, Value>>)
      modifies form
      ensures var r := Parse(CurrentSchema(env, view), old(form.values));
        && (delivered.Some? <==> r.Success?)
        && (r.Success? ==> delivered == Some(r.data) && form.values == map[] && form.errors == map[]
                           && form.focussed == map[] && !form.submitted)
        && (r.Failure? ==> form.errors == ErrorsFromIssues(r.issues) && form.values == old(form.values)
                           && form.focussed == old(form.focussed) && form.submitted)
      ensures !form.isLoading
    {
      delivered := form.HandleSubmit(CurrentSchema(env, view));
    }
  }

  // ---- Properties of the link table and the schema choice ----

  /** Only the 'User' group is protected. */
  lemma OnlyUserProtected()
    ensures forall g :: g in NavLinks() && g.protected ==> g.title == Some("User")
    ensures NavLinks()[1].protected && !NavLinks()[0].protected
  {
  }

  /** A visitor sees only the 'Navigation' group; a signed-in user sees both. */
  lemma {:induction false} VisibleNavLinks()
    ensures VisibleLinks(NavLinks(), false) == [NavLinks()[0]]
    ensures VisibleLinks(NavLinks(), true) == NavLinks()
  {
    var groups := NavLinks();
    assert groups[1..][1..] == [];
  }

  /** The links point to distinct pages, so at most one is active. */
  lemma {:induction false} AtMostOneActive(pathname: string, g1: Group, i: nat, g2: Group, j: nat)
    requires g1 in NavLinks() && g2 in NavLinks()
    requires i < |g1.items| && j < |g2.items|
    requires IsActive(pathname, g1.items[i]) && IsActive(pathname, g2.items[j])
    ensures g1 == g2 && i == j
  {
    var groups := NavLinks();
    assert g1 == groups[0] || g1 == groups[1];
    assert g2 == groups[0] || g2 == groups[1];
  }

  /** Every view except signup exposes per-field rules; the signup schema is
      refined and exposes none, so field validation is off in that view. */
  lemma SchemaExposesRules(env: Env, view: View)
    ensures Shape(CurrentSchema(env, view)).Some? <==> view != Signup
  {
  }
}
