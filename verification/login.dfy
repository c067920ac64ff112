/**
 * The login dialog of the frontend (`LoginComponent`): the field rules of
 * its two forms, the password-match group validator of the sign-in form, and
 * the state the component keeps while requests are sent and answered.
 *
 * Values coming back from the server are JavaScript values; only the
 * distinctions the component's comparisons see are kept: `null`, absent
 * (`undefined`) and a string.
 */
module Login {

  /** A JSON field as JavaScript sees it. */
  datatype JsValue = Null | Undefined | Str(s: string)

  /** `!!v`: only a non-empty string is truthy. */
  predicate Truthy(v: JsValue)
  {
    v.Str? && v.s != ""
  }

  // ---------------------------------------------------------------------
  // Field rules
  // ---------------------------------------------------------------------

  datatype Field = Username | Password | Password2 | Email

  /** The fields of each form: login has two, sign-in four. */
  const LoginFields: seq<Field> := [Username, Password]
  const SigninFields: seq<Field> := [Username, Password, Password2, Email]

  /** The minimum length of the name and both password fields. */
  const MinLength: nat := 4

  /** Angular's `Validators.required` on a text input. */
  predicate Required(v: string)
  {
    v != ""
  }

  /**
   * JavaScript's `value.length`: the number of UTF-16 code units, where a
   * character outside the Basic Multilingual Plane takes a surrogate pair.
   */
  function Utf16Length(v: string): (n: nat)
    ensures |v| <= n <= 2 * |v|
    ensures n == |v| <==> forall i :: 0 <= i < |v| ==> v[i] as int <= 0xFFFF
  {
    if |v| == 0 then 0
    else
      assert forall i :: 1 <= i < |v| ==> v[i] == v[1..][i - 1];
      (if v[0] as int > 0xFFFF then 2 else 1) + Utf16Length(v[1..])
  }

  /** Two characters outside the Basic Multilingual Plane already make four code units. */
  lemma TwoAstralCharactersReachMinLength()
    ensures Utf16Length("\U{1F600}\U{1F600}") == 4
    ensures FieldValid(Password, "\U{1F600}\U{1F600}")
  {
  }

  /** `Validators.minLength(n)`: an empty value passes, it is `required`'s to report. */
  predicate HasMinLength(v: string, n: nat)
  {
    v == "" || Utf16Length(v) >= n
  }

  /**
   * Whether a field's own validators accept a value: every field is required,
   * and all but the e-mail also carry the minimum length. Together the two
   * rules mean: the e-mail is non-empty, every other field has at least four
   * UTF-16 code units.
   */
  function FieldValid(f: Field, v: string): (ok: bool)
    ensures f == Email ==> (ok <==> v != "")
    ensures f != Email ==> (ok <==> Utf16Length(v) >= MinLength)
  {
    Required(v) && (f == Email || HasMinLength(v, MinLength))
  }

  /** A form's fields all pass their own rules; `values` lists them in the form's field order. */
  predicate FormValid(fields: seq<Field>, values: seq<string>)
    requires |values| == |fields|
  {
    forall i :: 0 <= i < |fields| ==> FieldValid(fields[i], values[i])
  }

  /** The login form accepts exactly a name and a password of at least four code units. */
  lemma LoginFormRule(name: string, password: string)
    ensures FormValid(LoginFields, [name, password])
            <==> Utf16Length(name) >= MinLength && Utf16Length(password) >= MinLength
  {
    assert FieldValid(LoginFields[0], name) && FieldValid(LoginFields[1], password)
           ==> FormValid(LoginFields, [name, password]);
  }

  /** The sign-in form's own rules additionally need a second password of four code units and an e-mail. */
  lemma SigninFormRule(name: string, password: string, password2: string, email: string)
    ensures FormValid(SigninFields, [name, password, password2, email])
            <==> (Utf16Length(name) >= MinLength && Utf16Length(password) >= MinLength
                  && Utf16Length(password2) >= MinLength && email != "")
  {
    var vs := [name, password, password2, email];
    assert FieldValid(SigninFields[0], name) && FieldValid(SigninFields[1], password)
           && FieldValid(SigninFields[2], password2) && FieldValid(SigninFields[3], email)
           ==> FormValid(SigninFields, vs);
  }

  // ---------------------------------------------------------------------
  // The password-match validator
  // ---------------------------------------------------------------------

  /** The error keys a control can carry. */
  datatype ErrorKey = RequiredError | MinLengthError | MatchPassword

  /** A text control: its value, whether the user has left it, its current errors. */
  datatype Control = Control(value: string, touched: bool, errors: set<ErrorKey>)

  /** The two password controls of the sign-in form. */
  datatype Passwords = Passwords(password: Control, password2: Control)

  /** The group validator's outcome: the new `pwMatching` (also its return value) and the controls. */
  datatype Validation = Validation(pwMatching: bool, controls: Passwords)

  /**
   * `validate`: once either password field is touched, the passwords match
   * when they are equal and not empty, and the match decides both fields'
   * errors (`setErrors` replaces a control's errors as a whole). Before that
   * the previous `pwMatching` is returned and nothing changes.
   */
  function Validate(p: Passwords, pwMatching: bool): (r: Validation)
    ensures !p.password.touched && !p.password2.touched ==> r == Validation(pwMatching, p)
    ensures p.password.touched || p.password2.touched ==>
              (r.pwMatching <==> p.password.value == p.password2.value && p.password.value != "")
    ensures p.password.touched || p.password2.touched ==>
              r.controls.password.errors == r.controls.password2.errors
              && (r.controls.password.errors == {} <==> r.pwMatching)
              && (MatchPassword in r.controls.password.errors <==> !r.pwMatching)
    ensures (p.password.touched || p.password2.touched) && !r.pwMatching ==>
              r.controls.password.errors == {MatchPassword} && r.controls.password2.errors == {MatchPassword}
    ensures r.controls.password.value == p.password.value && r.controls.password2.value == p.password2.value
    ensures r.controls.password.touched == p.password.touched && r.controls.password2.touched == p.password2.touched
  {
    if p.password.touched || p.password2.touched then
      var matching := p.password.value == p.password2.value && p.password.value != "";
      var errors: set<ErrorKey> := if matching then {} else {MatchPassword};
      Validation(matching, Passwords(p.password.(errors := errors), p.password2.(errors := errors)))
    else
      Validation(pwMatching, p)
  }

  /** Two empty passwords never match, whatever they were before. */
  lemma EmptyPasswordsNeverMatch(p: Passwords, pwMatching: bool)
    requires p.password.touched && p.password.value == "" && p.password2.value == ""
    ensures !Validate(p, pwMatching).pwMatching
    ensures Validate(p, pwMatching).controls.password.errors == {MatchPassword}
  {
  }

  /** Validating again right away changes nothing: the validator is idempotent. */
  lemma ValidateIdempotent(p: Passwords, pwMatching: bool)
    ensures Validate(Validate(p, pwMatching).controls, Validate(p, pwMatching).pwMatching)
            == Validate(p, pwMatching)
  {
  }

  /** The match does not depend on which of the two fields holds which password. */
  lemma ValidateSymmetric(p: Passwords, pwMatching: bool)
    ensures Validate(Passwords(p.password2, p.password), pwMatching).pwMatching
            == Validate(p, pwMatching).pwMatching
  {
  }

  // ---------------------------------------------------------------------
  // Requests and responses
  // ---------------------------------------------------------------------

  /** The server's reply: a user object, or nothing at all. */
  datatype Reply = NoUser | User(userId: JsValue, token: JsValue)

  /** What `tokenService` holds. */
  datatype TokenStore = TokenStore(token: JsValue, userId: JsValue)

  /** The dialog: still open, or closed with `close()` or `close(loggedIn)`. */
  datatype Dialog = Open | Closed(result: DialogResult)
  datatype DialogResult = NoResult | LoggedIn(value: bool)

  /** The component's state and the parts of the services it writes. */
  datatype State = State(
    waiting: bool,
    pwMatching: bool,
    loginFailed: bool,
    signinFailed: bool,
    loggedIn: bool,
    user: Reply,
    store: TokenStore,
    dialog: Dialog)

  /** A fresh component: not waiting, passwords taken as matching, no failure shown, an empty user. */
  function Initial(loggedIn: bool, store: TokenStore): (s: State)
    ensures !s.waiting && s.pwMatching && !s.loginFailed && !s.signinFailed
    ensures s.dialog == Open && s.store == store
  {
    State(false, true, false, false, loggedIn, User(Undefined, Undefined), store, Open)
  }

  /** `us?.token` with `!!`: a missing reply counts as no token. */
  predicate HasToken(us: Reply)
  {
    us.User? && Truthy(us.token)
  }

  /** The reply names a user: `userId !== null`, which an absent `userId` also passes. */
  predicate Accepted(us: Reply)
  {
    us.User? && us.userId != Null
  }

  /**
   * `login(us)` (when `isLogin`) and `signin(us)`: record the reply, set
   * `loggedIn` from the token, stop waiting, then decide on `userId`. A
   * missing reply fails at reading `userId`, after the first three steps.
   * Only a login stores the token and the user id.
   */
  function Respond(s: State, us: Reply, isLogin: bool): (t: State)
    ensures t.user == us && t.loggedIn == HasToken(us) && !t.waiting
    ensures Accepted(us) ==> t.dialog == Closed(LoggedIn(HasToken(us)))
    ensures !Accepted(us) ==> t.dialog == s.dialog
    ensures isLogin ==> t.signinFailed == s.signinFailed
    ensures isLogin && us.User? ==> (t.loginFailed <==> us.userId == Null)
    ensures !isLogin ==> t.loginFailed == s.loginFailed && t.store == s.store
    ensures t.pwMatching == s.pwMatching
    ensures !isLogin && us.User? ==> (t.signinFailed <==> us.userId == Null)
    ensures us.NoUser? ==> t.loginFailed == s.loginFailed && t.signinFailed == s.signinFailed
    ensures t.store != s.store ==> isLogin && Accepted(us) && t.store == TokenStore(us.token, us.userId)
  {
    var s1 := s.(user := us, loggedIn := HasToken(us), waiting := false);
    if us.NoUser? then s1
    else if us.userId != Null then
      var s2 := s1.(dialog := Closed(LoggedIn(HasToken(us))));
      if isLogin then s2.(loginFailed := false, store := TokenStore(us.token, us.userId))
      else s2.(signinFailed := false)
    else if isLogin then s1.(loginFailed := true)
    else s1.(signinFailed := true)
  }

  /** What can happen to the dialog. */
  datatype Event =
    | LoginClick
    | SigninClick
    | LoginReply(us: Reply)
    | SigninReply(us: Reply)
    | RequestError
    | CancelClick
    | PasswordsEdited(p: Passwords)

  predicate IsClick(e: Event)
  {
    e.LoginClick? || e.SigninClick?
  }

  predicate IsReply(e: Event)
  {
    e.LoginReply? || e.SigninReply?
  }

  /**
   * One event. A click sends its request and starts waiting; a reply is
   * handled by `login` or `signin`; a failed request is only logged, so the
   * component keeps waiting; cancel closes the dialog without a result.
   * An edit of the sign-in form runs its group validator, which may update
   * `pwMatching`.
   */
  function Step(s: State, e: Event): (t: State)
    ensures IsClick(e) ==> t.waiting
    ensures IsReply(e) ==> !t.waiting
    ensures !IsClick(e) && !IsReply(e) ==> t.waiting == s.waiting
    ensures !e.LoginReply? ==> t.store == s.store
    ensures e.PasswordsEdited? ==> t.pwMatching == Validate(e.p, s.pwMatching).pwMatching
    ensures !e.PasswordsEdited? ==> t.pwMatching == s.pwMatching
  {
    match e
    case LoginClick => s.(waiting := true)
    case SigninClick => s.(waiting := true)
    case LoginReply(us) => Respond(s, us, true)
    case SigninReply(us) => Respond(s, us, false)
    case RequestError => s
    case CancelClick => s.(dialog := Closed(NoResult))
    case PasswordsEdited(p) => s.(pwMatching := Validate(p, s.pwMatching).pwMatching)
  }

  /**
   * The state after a sequence of events, taken in order: the last event
   * decides whether the component waits, and without any login reply the
   * token store is untouched.
   */
  function Run(s: State, es: seq<Event>): (t: State)
    ensures |es| == 0 ==> t == s
    ensures |es| > 0 && IsClick(es[|es| - 1]) ==> t.waiting
    ensures |es| > 0 && IsReply(es[|es| - 1]) ==> !t.waiting
    ensures (forall i :: 0 <= i < |es| ==> !es[i].LoginReply?) ==> t.store == s.store
  {
    if |es| == 0 then s
    else
      assert forall i :: 0 <= i < |es| - 1 ==> es[..|es| - 1][i] == es[i];
      Step(Run(s, es[..|es| - 1]), es[|es| - 1])
  }

  /** No reply after position i. */
  predicate QuietAfter(es: seq<Event>, i: int)
  {
    forall j :: 0 <= j < |es| && i < j ==> !IsReply(es[j])
  }

  /**
   * The component waits exactly when a click came after the last reply, or
   * it was waiting already and no reply came at all.
   */
  lemma {:induction false} WaitingAfterRun(s: State, es: seq<Event>)
    ensures Run(s, es).waiting <==>
              (exists i :: 0 <= i < |es| && IsClick(es[i]) && QuietAfter(es, i))
              || (s.waiting && QuietAfter(es, -1))
  {
    if |es| > 0 {
      var n := |es| - 1;
      var init := es[..n];
      WaitingAfterRun(s, init);
      assert forall j :: 0 <= j < n ==> init[j] == es[j];
      if IsClick(es[n]) {
        assert QuietAfter(es, n);
      } else if IsReply(es[n]) {
        assert !QuietAfter(es, -1);
        forall i | 0 <= i < |es| && IsClick(es[i])
          ensures !QuietAfter(es, i)
        {
          assert i < n;
        }
      } else {
        if exists i :: 0 <= i < |init| && IsClick(init[i]) && QuietAfter(init, i) {
          var i :| 0 <= i < |init| && IsClick(init[i]) && QuietAfter(init, i);
          assert IsClick(es[i]) && QuietAfter(es, i);
        }
        if exists i :: 0 <= i < |es| && IsClick(es[i]) && QuietAfter(es, i) {
          var i :| 0 <= i < |es| && IsClick(es[i]) && QuietAfter(es, i);
          assert i < n && IsClick(init[i]) && QuietAfter(init, i);
        }
        assert QuietAfter(es, -1) <==> QuietAfter(init, -1);
      }
    }
  }

  /** An edit that leaves both password fields untouched. */
  predicate UntouchedEdit(e: Event)
  {
    e.PasswordsEdited? && !e.p.password.touched && !e.p.password2.touched
  }

  /**
   * Until a password field is touched the validator returns the flag it
   * started from, so a fresh component reports matching passwords.
   */
  lemma {:induction false} MatchingUntilTouched(s: State, es: seq<Event>)
    requires forall i :: 0 <= i < |es| && es[i].PasswordsEdited? ==> UntouchedEdit(es[i])
    ensures Run(s, es).pwMatching == s.pwMatching
  {
    if |es| > 0 {
      var n := |es| - 1;
      assert forall j :: 0 <= j < n ==> es[..n][j] == es[j];
      MatchingUntilTouched(s, es[..n]);
    }
  }

  /** A login reply that names a user. */
  predicate SuccessfulLogin(e: Event)
  {
    e.LoginReply? && Accepted(e.us)
  }

  /**
   * The token store changes only through a successful login: without one
   * (in particular through any number of sign-ins) it keeps its contents.
   */
  lemma {:induction false} StoreOnlyFromLogin(s: State, es: seq<Event>)
    requires forall i :: 0 <= i < |es| ==> !SuccessfulLogin(es[i])
    ensures Run(s, es).store == s.store
  {
    if |es| > 0 {
      var n := |es| - 1;
      assert forall j :: 0 <= j < n ==> es[..n][j] == es[j];
      StoreOnlyFromLogin(s, es[..n]);
    }
  }

  /** After a successful login the store holds exactly that reply's token and user id. */
  lemma StoreAfterLogin(s: State, es: seq<Event>, us: Reply)
    requires Accepted(us)
    ensures Run(s, es + [LoginReply(us)]).store == TokenStore(us.token, us.userId)
    ensures Run(s, es + [LoginReply(us)]).dialog == Closed(LoggedIn(HasToken(us)))
  {
    assert (es + [LoginReply(us)])[..|es|] == es;
  }
}
