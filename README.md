# Auth form state, validation and menu logic of amnaya.info

This project models the stateful core behind the amnaya.info navigation bar and auth dialog, and proves properties of it:

- **Auth form-state manager** (`AuthProps` in `auth.tsx`). It keeps the values typed so far, the error shown per field, the fields that have lost focus, a loading flag and a submitted flag. Its handlers are field change, field blur, whole-form submit and reset. The model is the class `Auth.AuthProps`, with one `map` field per piece of state.
- **Validation rules and schemas** (`validation.tsx`). These are the username, password, name, e-mail, birth-date and e-mail-or-username rules, and the login, forgot-password and signup schemas. The model is pure functions in `Validation`. They run on the behaviour of the schema library's object schemas, which `Forms` models:
  - every check of a string rule runs and reports its message, in order;
  - a value of the wrong type aborts its field;
  - an object files each field's issues under the field's name;
  - an object keeps only its own keys;
  - a refinement runs only when no field aborted, and adds its issue after the field issues;
  - a refined object no longer exposes its per-field rules.
- **Navigation component** (`navigation.tsx`). It holds the link table, its own record of the auth view, the choice of schema for that view, and the wiring of field changes, blurs and submits to the form-state manager. The model is the class `Navigation.Navigation`.
- **Auth dialog** (`authCard.tsx`). This covers the view order, the slide direction of a view or step change, the view and step update, closing with or without the animation timeline, and the controlled or uncontrolled open state. The model is the class `AuthCard.AuthCard`.
- **Side panel** (`sidePanel.tsx`). This covers the protected-group filter, the layout of groups, separators and header, the active-link tests, the close rules and the opening of the auth dialog. The model is the functions in `SidePanel` and the class `SidePanel.SidePanel`.
- **Navbar** (`navbar.tsx`). This covers the menu toggle, the Cmd/Ctrl+B and Escape keys, the swipe guard and the side panel's close. The model is the class `Navbar.Navbar`.

## How the model is set up

- **Callbacks as return values.** A callback the component receives from its parent becomes the value a method returns. This applies to `onMenuToggle`, `onOpenChange`, the submit callback's data and the side panel's `onClose`. `None` means the callback was not called, or was not passed.
- **Animation completions as methods.** An animation whose completion changes state gets its own method: `AuthCard.FadeOutComplete`, `AuthCard.FlipComplete`, `AuthCard.ReverseComplete` and `SidePanel.ReverseComplete`. Whether a timeline or the mounted elements exist is a parameter.
- **Schema library version.** `validation.tsx` and `auth.tsx` import the unversioned `zod` package; the model follows zod 3. There `.refine` wraps an object in an effects schema without `.shape`, and the default type messages are 'Required' for a missing value and 'Expected string, received ...' otherwise.
- **Library and clock as parameters.** The e-mail pattern, the coercion of a value to a date, and the instant the schemas were built (`new Date()` runs once, when the module loads) are the parameter `Validation.Env`. `EnvOk` assumes only that every e-mail address contains `@`.

### Behaviour the proofs bring out

- **No live validation in the signup view.** Under zod 3 the signup schema is a refined object, which exposes no `.shape`. So while the navigation's view is signup, `fieldValidate` finds no per-field rule, and change and blur never set an error; errors would come only from a submit. See `Auth.SignupFieldValidationIsNoOp` and `Navigation.SchemaExposesRules`.
- **The app never reaches that view.** Only `handleViewChange` changes the navigation's view (`navigation.tsx:74-78`). It is handed to the navbar as `onViewChange` (`navigation.tsx:92`), but the dialog takes no such prop (`authCard.tsx:52-63`) and never calls it. So the navigation's view stays login, and every change, blur and submit, from any dialog view, is checked against the login schema (`navigation.tsx:44-51, 69-72, 89-90`). The signup form is also given no `errors` (`authCard.tsx:334-343`), so it shows no error at all.
- **The last issue for a field is shown.** A failed submit assigns `fieldErrors[path[0]]` once per issue, in order (`auth.tsx:54-56`), so when a field has several issues its last message is the one shown. See `Auth.ErrorsFromIssuesLastWins`, `Auth.LaterIssueShown` and `Auth.SubmitShowsLastMessage`.
- **Blur and submit can show different messages.** Blur shows a field's first message (`auth.tsx:23`), a failed submit its last. An empty login identifier fails both its checks, so blur shows 'Email or Username is required' and submit shows 'Enter a valid email or username'. See `Auth.EmptyIdentifierMessages`.
- **'ab' is not a valid login name.** It is neither an e-mail address nor a username of at least 3 characters, so the e-mail-or-username rule rejects it. See `Validation.ShortEntriesRejected`.
- **The fallback message cannot appear.** A failed field rule always carries a message, so 'Invalid value' is never shown (`Auth.Validated`).
- **The two views are independent.** The navigation's auth view and the dialog's own view are separate states. The dialog never reports a view change, and submit uses the navigation's view, and so the login schema, whatever view the dialog reports.

## Model

| member | source | states |
|---|---|---|
| Forms.Lookup | apps/client/src/app/components/auth.tsx:30 | a key missing from the values reads as undefined, a present key as its value |
| Forms.ParseObjectAborted | apps/client/src/app/components/validation.tsx:39-43 | an object parse aborts exactly when one of its field rules aborts |
| Forms.ParseObjectAbortedAt | apps/client/src/app/components/validation.tsx:49-59 | any single aborting field makes the whole object abort |
| Forms.ParseObjectClean | apps/client/src/app/components/validation.tsx:39-43 | an object parse has no issue exactly when every field rule passes |
| Forms.ParseObjectSound | apps/client/src/app/components/validation.tsx:39-43 | every issue of an object parse is a message of some field, filed under that field's name |
| Forms.ParseObjectIssueAt | apps/client/src/app/components/validation.tsx:49-59 | an issue under a uniquely named field carries one of that field's own messages |
| Forms.ParseObjectComplete | apps/client/src/app/components/validation.tsx:39-43 | every message of every field appears as an issue under the field's name |
| Forms.ParseObjectLastIssue | apps/client/src/app/components/validation.tsx:39-43 | issues come in field order and each field's in check order, so the last issue filed under a uniquely named field carries that field's last message |
| Forms.ParseObjectData | apps/client/src/app/components/validation.tsx:39-43 | a uniquely named field's output is the output object's value for that name, and is present exactly when the input has the key or the output is defined |
| Forms.ParseObjectDataKeys | apps/client/src/app/components/validation.tsx:39-43 | the output object has no key outside the schema's fields, so unknown keys are stripped |
| Forms.PlainAccepts | apps/client/src/app/components/validation.tsx:39-43 | an unrefined object is accepted exactly when every field passes |
| Forms.RefinedAccepts | apps/client/src/app/components/validation.tsx:60-63 | a refined object whose aborting fields report a message is accepted exactly when every field passes and the refinement holds on the output |
| Forms.RefinementFails | apps/client/src/app/components/validation.tsx:60-63 | a failing refinement after a parse with no aborted field appends its message, under its path, after the field issues |
| Forms.ShapeOf | apps/client/src/app/components/auth.tsx:14-15 | the shape maps exactly the names of the schema's fields |
| Forms.ShapeOfRule | apps/client/src/app/components/auth.tsx:14-15 | the shape stores each uniquely named field's own rule under its name |
| Forms.Shape | apps/client/src/app/components/auth.tsx:14-16 | a schema exposes a shape exactly when it is not refined |
| Forms.Finish | apps/client/src/app/components/auth.tsx:51-52 | a parse succeeds exactly when it produced no issue |
| Forms.ParseObject | apps/client/src/app/components/validation.tsx:39-43 | the object parse; characterised by the Forms.ParseObject* lemmas |
| Forms.RuleFor | apps/client/src/app/components/auth.tsx:14-16 | the rule `shape?.[field]` finds; Auth.NoRuleNoChange and Forms.ShapeOfRule say which |
| Forms.Parse | apps/client/src/app/components/auth.tsx:51 | `schema.safeParse(values)`; Forms.PlainAccepts, Forms.RefinedAccepts and Forms.RefinementFails say when it succeeds |
| Text.TrimStart | apps/client/src/app/components/validation.tsx:3 | the result is a suffix of the input, everything dropped is whitespace, and it starts with a non-whitespace character unless empty |
| Text.TrimEnd | apps/client/src/app/components/validation.tsx:3 | the result is a prefix of the input, everything dropped is whitespace, and it ends with a non-whitespace character unless empty |
| Text.Trim | apps/client/src/app/components/validation.tsx:3 | `trim` gives a string no longer than its input with no whitespace at either end, empty exactly when the input is all whitespace |
| Text.TrimUntouched | apps/client/src/app/components/validation.tsx:33 | trimming a string without whitespace at its ends gives it back |
| Text.TrimIdempotent | apps/client/src/app/components/validation.tsx:33 | trimming twice is trimming once |
| Text.TrimPadded | apps/client/src/app/components/validation.tsx:33 | whitespace added around a string with non-blank ends is exactly what `trim` removes |
| Text.LowerAscii | libs/ui-kit/src/lib/components/navbar/navbar.tsx:83 | lower-casing keeps the length and maps each upper-case ASCII letter to its lower-case letter, every other character to itself |
| Validation.EmailAccepted | apps/client/src/app/components/validation.tsx:3 | an e-mail is accepted exactly when it is non-empty and matches the e-mail pattern, and its output is trimmed |
| Validation.EmailRule | apps/client/src/app/components/validation.tsx:3 | `emailRule`; Validation.EmailAccepted says what it accepts |
| Validation.UsernameRule | apps/client/src/app/components/validation.tsx:5-9 | `usernameRule`; Validation.UsernameAccepted says what it accepts |
| Validation.PasswordRule | apps/client/src/app/components/validation.tsx:11-17 | `passwordRule`; Validation.PasswordAccepted says what it accepts |
| Validation.NameRule | apps/client/src/app/components/validation.tsx:19-23 | `nameRule`; Validation.NameAccepted says what it accepts |
| Validation.BirthDateRule | apps/client/src/app/components/validation.tsx:25-28 | `birthDateRule`; Validation.BirthDateAccepted says what it accepts |
| Validation.EmailOrUsernameRule | apps/client/src/app/components/validation.tsx:30-36 | `emailOrUsernameRule`; Validation.EmailOrUsernameAccepted says what it accepts |
| Validation.RequiredPasswordRule | apps/client/src/app/components/validation.tsx:41 | the login password rule; Validation.LoginAccepts requires a non-empty string |
| Validation.OptionalBoolRule | apps/client/src/app/components/validation.tsx:42 | the remember-me rule; Validation.LoginAccepts allows absent or boolean |
| Validation.GenderRule | apps/client/src/app/components/validation.tsx:53-55 | the gender enumeration; Validation.SignupGenderRequired gives its message |
| Validation.PlainStringRule | apps/client/src/app/components/validation.tsx:59 | the confirmation rule; Validation.WrongTypeRejected says non-strings abort |
| Validation.LoginSchema | apps/client/src/app/components/validation.tsx:39-43 | `loginSchema`; Validation.LoginAccepts and Validation.LoginData |
| Validation.ForgotPasswordSchema | apps/client/src/app/components/validation.tsx:45-47 | `forgotPasswordSchema`; Validation.ForgotPasswordAccepts |
| Validation.SignupSchema | apps/client/src/app/components/validation.tsx:49-63 | `signupSchema`; Validation.SignupAccepts and Validation.SignupPasswordMismatch |
| Validation.UsernameAccepted | apps/client/src/app/components/validation.tsx:5-9 | a username is accepted exactly when it has at least 3 characters, all from `[a-zA-Z0-9_]` |
| Validation.WrongTypeRejected | apps/client/src/app/components/validation.tsx:3-36 | for every value that is not a string, each string rule aborts with the library's type message, 'Required' for a missing value and 'Expected string, received boolean' for a boolean; a string aborts the optional boolean |
| Validation.PasswordAccepted | apps/client/src/app/components/validation.tsx:11-17 | a password is accepted exactly when it has at least 8 characters, an upper-case letter, a lower-case letter, a digit and a character outside `[A-Za-z0-9]` |
| Validation.PasswordRuleMessages | apps/client/src/app/components/validation.tsx:11-17 | the password rule never reports 'Passwords do not match' |
| Validation.NameAccepted | apps/client/src/app/components/validation.tsx:19-23 | a name is accepted exactly when it has at least 2 characters, all ASCII letters or whitespace |
| Validation.BirthDateAccepted | apps/client/src/app/components/validation.tsx:25-28 | a birth date is accepted exactly when it is a valid date no later than the instant the schemas were built, and an invalid date aborts |
| Validation.EmailOrUsernameAccepted | apps/client/src/app/components/validation.tsx:30-36 | an e-mail-or-username is accepted exactly when it is non-empty and its trimmed text is an e-mail address or a username |
| Validation.ShortEntriesRejected | apps/client/src/app/components/validation.tsx:30-36 | an entry of fewer than 3 word characters, 'ab' among them, is rejected |
| Validation.ThreeCharsAccepted | apps/client/src/app/components/validation.tsx:30-36 | 'abc' is accepted as a username |
| Validation.PaddingIgnored | apps/client/src/app/components/validation.tsx:33-34 | whitespace around an entry does not change whether it is accepted |
| Validation.EmailOrUsernameBlank | apps/client/src/app/components/validation.tsx:30-36 | an empty entry reports the required message and then the refinement message; a blank entry reports only the refinement message |
| Validation.LoginAccepts | apps/client/src/app/components/validation.tsx:39-43 | login accepts exactly a valid e-mail-or-username, a non-empty password, and a remember-me flag that is absent or boolean |
| Validation.LoginData | apps/client/src/app/components/validation.tsx:39-43 | a successful login yields only the three fields, the e-mail-or-username trimmed and the password as typed |
| Validation.ForgotPasswordAccepts | apps/client/src/app/components/validation.tsx:45-47 | the forgot-password form is accepted exactly when its e-mail-or-username is |
| Validation.ForgotPasswordReadsOneField | apps/client/src/app/components/validation.tsx:45-47 | two forms that agree on the e-mail-or-username parse alike |
| Validation.SignupGenderRequired | apps/client/src/app/components/validation.tsx:53-55 | a gender other than male, female or other fails signup with 'Please select a gender' under `gender` |
| Validation.SignupAbortReports | apps/client/src/app/components/validation.tsx:49-59 | every signup field rule that aborts also reports a message |
| Validation.SignupCleanNotAborted | apps/client/src/app/components/validation.tsx:49-59 | a signup object with no field issue has no aborted field |
| Validation.SignupPasswordsReachRefinement | apps/client/src/app/components/validation.tsx:58-62 | the refinement compares the password and confirmation exactly as typed |
| Validation.SignupPasswordMismatch | apps/client/src/app/components/validation.tsx:60-63 | differing passwords, with no field aborted, fail signup with 'Passwords do not match' under `confirmPassword` as the last issue, never under `password` |
| Validation.SignupPasswordIssues | apps/client/src/app/components/validation.tsx:58 | no field issue under `password` says 'Passwords do not match' |
| Validation.SignupAccepts | apps/client/src/app/components/validation.tsx:49-63 | signup accepts exactly when every field rule passes and the two passwords are equal |
| Auth.Validated | apps/client/src/app/components/auth.tsx:11-26 | validating a field changes no other field's error; without a rule for the field nothing changes; with one the field has an error exactly when its rule fails, and the error is the rule's first message |
| Auth.FirstMessage | apps/client/src/app/components/auth.tsx:23 | the first issue's message, else 'Invalid value'; Auth.Validated shows the fallback is never used |
| Auth.ErrorsFromIssues | apps/client/src/app/components/auth.tsx:53-56 | the failed-submit error map has a key exactly for each non-empty path head among the issues |
| Auth.ErrorsFromIssuesLastWins | apps/client/src/app/components/auth.tsx:54-56 | the message under a field is that of the last issue under that field |
| Auth.AuthProps.constructor | apps/client/src/app/components/auth.tsx:5-9 | a new form has no values, errors or focus marks, is not loading and not submitted |
| Auth.AuthProps.FieldValidate | apps/client/src/app/components/auth.tsx:11-26 | the errors become the validated map for the field, and nothing else changes |
| Auth.AuthProps.HandleFieldBlur | apps/client/src/app/components/auth.tsx:28-31 | the field is marked focussed and its stored value is validated |
| Auth.AuthProps.HandleFieldChange | apps/client/src/app/components/auth.tsx:33-39 | the value is stored, and validated exactly when a schema is given and the field was focussed or the form submitted |
| Auth.AuthProps.HandleSubmit | apps/client/src/app/components/auth.tsx:41-71 | data is delivered exactly when the whole form parses; then the form resets; otherwise the errors are the issues' map, the values and focus marks stay and the form counts as submitted; loading always ends false |
| Auth.AuthProps.ResetForm | apps/client/src/app/components/auth.tsx:73-78 | values, errors and focus marks are emptied and the submitted flag cleared, the loading flag kept; the end state does not depend on the start state, so resetting twice is resetting once |
| Auth.NoRuleNoChange | apps/client/src/app/components/auth.tsx:12-16 | without a schema, or when the schema exposes no rule for the field, validation leaves the errors alone |
| Auth.SignupFieldValidationIsNoOp | apps/client/src/app/components/auth.tsx:14-16 | with the signup schema, blur and change validation never change the errors |
| Auth.ValidatedIdempotent | apps/client/src/app/components/auth.tsx:20-25 | validating the same value twice is validating it once |
| Auth.LoginFieldError | apps/client/src/app/components/auth.tsx:18-23 | in the login view the e-mail-or-username error is set exactly when the value is rejected, with the rule's first message |
| Auth.LaterIssueShown | apps/client/src/app/components/auth.tsx:54-56 | two issues under one field show the later message |
| Auth.SubmitShowsLastMessage | apps/client/src/app/components/auth.tsx:51-56 | a failed submit shows, under a uniquely named failing field, its rule's last message, unless the refinement files under the same name |
| Auth.EmptyIdentifierMessages | apps/client/src/app/components/auth.tsx:18-56 | for an empty login identifier, blur shows 'Email or Username is required' and a failed submit 'Enter a valid email or username' |
| Auth.SignupMismatchErrors | apps/client/src/app/components/auth.tsx:51-57 | a signup whose fields all pass but whose passwords differ shows exactly 'Passwords do not match' under `confirmPassword` |
| AuthCard.Order | libs/ui-kit/src/lib/components/authCard/authCard.tsx:44-48 | each view's position lies in -1..1 |
| AuthCard.Direction | libs/ui-kit/src/lib/components/authCard/authCard.tsx:114-115 | a view change slides forward (1) exactly when the target comes later in the view order, backward (-1) otherwise |
| AuthCard.StepDirection | libs/ui-kit/src/lib/components/authCard/authCard.tsx:116 | a step change slides forward exactly when the target step is greater |
| AuthCard.OrderStrict | libs/ui-kit/src/lib/components/authCard/authCard.tsx:44-48 | the view order is strict: forgot password, then login, then signup |
| AuthCard.DirectionReverses | libs/ui-kit/src/lib/components/authCard/authCard.tsx:114-115 | going between two different views slides one way there and the other way back |
| AuthCard.DirectionToSelf | libs/ui-kit/src/lib/components/authCard/authCard.tsx:114-115 | a transition to the view already shown slides backward |
| AuthCard.TitlesDistinct | libs/ui-kit/src/lib/components/authCard/authCard.tsx:261-265 | each view has its own title |
| AuthCard.Title | libs/ui-kit/src/lib/components/authCard/authCard.tsx:261-265 | the title per view; AuthCard.TitlesDistinct |
| AuthCard.AuthCard.constructor | libs/ui-kit/src/lib/components/authCard/authCard.tsx:78-92 | a new dialog is closed, on the login view at step 1, sliding forward, with nothing captured or pending |
| AuthCard.AuthCard.IsOpen | libs/ui-kit/src/lib/components/authCard/authCard.tsx:79 | the dialog is open as the `open` prop says when given, else as its internal state |
| AuthCard.AuthCard.SetIsOpen | libs/ui-kit/src/lib/components/authCard/authCard.tsx:80 | the open state is reported to the parent's callback when there is one, else stored internally |
| AuthCard.AuthCard.Transition | libs/ui-kit/src/lib/components/authCard/authCard.tsx:106-128 | with content and form mounted, the direction is set from the current view or step, the layout captured and the target queued; otherwise nothing changes |
| AuthCard.AuthCard.FadeOutComplete | libs/ui-kit/src/lib/components/authCard/authCard.tsx:129-135 | the oldest queued target is applied: a view change shows the view at step 1, a step change the step |
| AuthCard.AuthCard.FlipComplete | libs/ui-kit/src/lib/components/authCard/authCard.tsx:168-175 | the resize animation's completion forgets the captured layout and changes nothing else |
| AuthCard.AuthCard.CloseDialog | libs/ui-kit/src/lib/components/authCard/authCard.tsx:237-244 | without a timeline the dialog closes at once; with one the close waits for the reversed timeline |
| AuthCard.AuthCard.ReverseComplete | libs/ui-kit/src/lib/components/authCard/authCard.tsx:246-253 | a waiting close closes the dialog and resets it to login, step 1, forward, nothing captured |
| AuthCard.AuthCard.DialogOpenChange | libs/ui-kit/src/lib/components/authCard/authCard.tsx:270 | opening sets the open state; closing without a timeline closes at once and leaves the waiting mark alone, with one it marks the close as waiting; view, step, direction and queue stay |
| AuthCard.AuthCard.HandleSubmit | libs/ui-kit/src/lib/components/authCard/authCard.tsx:256-259 | submit reports the view being shown |
| SidePanel.VisibleLinks | libs/ui-kit/src/lib/components/navbar/sidePanel.tsx:119 | an authenticated user sees every group; otherwise exactly the unprotected groups, each as many times as it occurs in the table |
| SidePanel.VisibleLinksInOrder | libs/ui-kit/src/lib/components/navbar/sidePanel.tsx:119 | the visible groups keep the table's order |
| SidePanel.Links | libs/ui-kit/src/lib/components/navbar/sidePanel.tsx:269-276 | each item is rendered in order, active exactly when it is the current page |
| SidePanel.IsActive | libs/ui-kit/src/lib/components/navbar/sidePanel.tsx:273 | `pathname === item.href`; SidePanel.Links and Navigation.AtMostOneActive |
| SidePanel.HeaderFor | libs/ui-kit/src/lib/components/navbar/sidePanel.tsx:313-334 | a visitor gets the Login / Signup button, a signed-in user the profile link, active exactly on '/profile' |
| SidePanel.GroupEntries | libs/ui-kit/src/lib/components/navbar/sidePanel.tsx:266-281 | n visible groups render as 2n-1 entries |
| SidePanel.GroupEntriesLayout | libs/ui-kit/src/lib/components/navbar/sidePanel.tsx:266-281 | group i sits at entry 2i and a separator at every entry between two groups |
| SidePanel.GroupEntriesSeparators | libs/ui-kit/src/lib/components/navbar/sidePanel.tsx:279 | n visible groups are separated by n-1 separators |
| SidePanel.PanelSeparators | libs/ui-kit/src/lib/components/navbar/sidePanel.tsx:266-291 | the panel has one separator between each pair of groups and one before the header, and ends with the header |
| SidePanel.Panel | libs/ui-kit/src/lib/components/navbar/sidePanel.tsx:266-291 | the rendered panel; SidePanel.PanelSeparators and SidePanel.GroupEntriesLayout |
| SidePanel.SidePanel.constructor | libs/ui-kit/src/lib/components/navbar/sidePanel.tsx:99 | the auth dialog starts closed and no close waits |
| SidePanel.SidePanel.HandleClose | libs/ui-kit/src/lib/components/navbar/sidePanel.tsx:108-111 | without a timeline the panel closes at once; with one the close waits for the reversed timeline |
| SidePanel.SidePanel.ReverseComplete | libs/ui-kit/src/lib/components/navbar/sidePanel.tsx:109 | the reversed timeline runs the waiting close, if there is one, once; a later close replaces an earlier one rather than adding to it |
| SidePanel.SidePanel.HandleAuthOpen | libs/ui-kit/src/lib/components/navbar/sidePanel.tsx:114-117 | the auth dialog opens and the panel closes |
| SidePanel.SidePanel.AuthOpenChange | libs/ui-kit/src/lib/components/navbar/sidePanel.tsx:300-305 | the auth dialog's open change sets the panel's auth-open state |
| SidePanel.SidePanel.DialogOpenChange | libs/ui-kit/src/lib/components/navbar/sidePanel.tsx:244 | a close request closes the panel, an open request does nothing |
| SidePanel.SidePanel.SwipeUp | libs/ui-kit/src/lib/components/navbar/sidePanel.tsx:219-227 | on a touch device an upward drag of more than 10 pixels, each time it is reported, closes an open panel; anything else does nothing |
| Navbar.ToggleKeys | libs/ui-kit/src/lib/components/navbar/navbar.tsx:83 | the toggle key is 'b' or 'B' |
| Navbar.IsToggleChord | libs/ui-kit/src/lib/components/navbar/navbar.tsx:83 | Cmd or Ctrl with 'b' in either case; Navbar.ToggleKeys and Navbar.Navbar.KeyDown |
| Navbar.Navbar.constructor | libs/ui-kit/src/lib/components/navbar/navbar.tsx:51-55 | the menu starts closed and no swipe is under way |
| Navbar.Navbar.HandleToggle | libs/ui-kit/src/lib/components/navbar/navbar.tsx:72-78 | the menu flips, and the new state is reported when there is a callback |
| Navbar.Navbar.KeyDown | libs/ui-kit/src/lib/components/navbar/navbar.tsx:82-89 | Cmd/Ctrl+B flips the menu and is prevented; Escape closes an open menu; other keys do nothing; a report happens exactly when the menu changed and there is a callback |
| Navbar.Navbar.SwipeDown | libs/ui-kit/src/lib/components/navbar/navbar.tsx:104-109 | a swipe opens a closed menu unless one is under way, and marks one under way |
| Navbar.Navbar.Release | libs/ui-kit/src/lib/components/navbar/navbar.tsx:110 | releasing ends the swipe and leaves the menu |
| Navbar.Navbar.OnClose | libs/ui-kit/src/lib/components/navbar/navbar.tsx:164 | the panel's close shuts the menu without reporting |
| Navbar.Navbar.PanelClose | libs/ui-kit/src/lib/components/navbar/sidePanel.tsx:108-111 | the menu closes at once without a timeline, or once the timeline has reversed |
| Navbar.Navbar.PanelReverseComplete | libs/ui-kit/src/lib/components/navbar/sidePanel.tsx:109 | a waiting close shuts the menu when the timeline has reversed |
| Navbar.Navbar.PanelAuthOpen | libs/ui-kit/src/lib/components/navbar/sidePanel.tsx:114-117 | the auth dialog opens and the menu closes, now or after the reverse |
| Navigation.NavLinks | apps/client/src/app/components/navigation.tsx:12-29 | the link table has two groups |
| Navigation.OnlyUserProtected | apps/client/src/app/components/navigation.tsx:20-28 | only the 'User' group is protected |
| Navigation.VisibleNavLinks | apps/client/src/app/components/navigation.tsx:12-29 | a visitor sees only the 'Navigation' group, a signed-in user both |
| Navigation.AtMostOneActive | apps/client/src/app/components/navigation.tsx:12-29 | the links point to distinct pages, so at most one is active |
| Navigation.CurrentSchema | apps/client/src/app/components/navigation.tsx:44-51 | each view gets its own schema |
| Navigation.SchemaExposesRules | apps/client/src/app/components/navigation.tsx:44-51 | every view except signup exposes per-field rules |
| Navigation.Navigation.constructor | apps/client/src/app/components/navigation.tsx:31-42 | the navigation starts in the login view with an empty form |
| Navigation.Navigation.HandleViewChange | apps/client/src/app/components/navigation.tsx:74-78 | another view is recorded and resets the form; the current view changes nothing |
| Navigation.Navigation.OnFieldChange | apps/client/src/app/components/navigation.tsx:89 | a field change is forwarded with the current view's schema |
| Navigation.Navigation.OnFieldBlur | apps/client/src/app/components/navigation.tsx:90 | a blur is forwarded with the current view's schema |
| Navigation.Navigation.HandleAuthSubmit | apps/client/src/app/components/navigation.tsx:69-72 | the form is submitted against this component's own view, whatever view the dialog reports; the submit callback always returns |

## Left out

- Animations (GSAP timelines, Flip, SplitText, Observer set-up, the tooltip and the menu icon) are left out, and so is panel positioning. They are visual timing and floating-point geometry. Only their completions that change state are modelled.
- Async interleaving is left out: overlapping submits, and state changes while a submit awaits its callback. Each submit is one atomic step that ends with `isLoading` false.
- React's stale closures and batched updates are left out. Each handler reads the current state.
- `console.log` and `console.error` are left out.
- The output of `z.coerce.date()` is left out. The birth-date rule passes its input through, because its output is never read.
- String lengths count Unicode scalar values, not UTF-16 code units.
- Form values other than strings, booleans and undefined are left out.
- The form JSX, routing, Storybook, the theme and the browser hooks are left out.
- Auth.AuthProps.HandleSubmit: whether the submit callback returns or throws is not modelled. On success it runs once, its data is the returned `delivered`, and a throw is caught and logged, so the same final state follows either way.
- Navbar.Navbar.KeyDown: `toLowerCase` is modelled as ASCII lower-casing. No other character lower-cases to `b`.
- AuthCard.AuthCard.Transition: the view and step update happens at the end of the fade-out. Fade-outs in progress are kept as a queue, and each one applies its target in the order it started.
- The navbar's swipe observer is created whenever the navbar is mounted. Its `!useTouch` test reads a function, which is always truthy, so the observer does not depend on touch support. The model's swipe methods have no touch parameter.
- The error map is rendered by the login form only. The signup and forgot-password forms get no `errors` prop. Rendering is left out.
- Forms.Shape, Auth.SignupFieldValidationIsNoOp, Navigation.SchemaExposesRules and Validation.WrongTypeRejected hold for zod 3 only. Under zod 4 a refined object keeps its `.shape`, so the signup view would validate per field, and the default type messages differ.
