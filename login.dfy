/**
 * The login page: presence checks on the two fields, a first-match search
 * of the stored users for the exact (email, password) pair, and the
 * session slot or form reset that follows.
 */
module Login {

  import opened Wrappers
  import opened Storage
  import Signup

  /** The login form (the page's `User` interface). */
  datatype Credentials = Credentials(email: string, password: string)

  const EmptyCredentials := Credentials("", "")

  /** The two inputs, by their `name`. */
  datatype Field = EmailInput | PasswordInput

  /** The page's `FormErrors` object: both keys are optional, and an absent key is None. */
  datatype FormErrors = FormErrors(email: Option<string>, password: Option<string>)

  /**
   * `{}`. The page starts with `{email: undefined, password: undefined}`,
   * which renders exactly like `{}`, so both are this value.
   */
  const NoErrors := FormErrors(None, None)

  const EmailRequired := "Email is required."
  const PasswordRequired := "Password is required."

  /** The error object validateFields builds: a message for each empty field, nothing else. */
  function LoginErrors(form: Credentials): FormErrors
  {
    FormErrors(if form.email == "" then Some(EmailRequired) else None,
               if form.password == "" then Some(PasswordRequired) else None)
  }

  /**
   * There is no format check and no cross-field check: the error object is
   * empty exactly when both fields are non-empty, and each key is set
   * exactly when its own field is empty.
   */
  lemma LoginErrorsMeaning(form: Credentials)
    ensures LoginErrors(form) == NoErrors <==> form.email != "" && form.password != ""
    ensures LoginErrors(form).email.Some? <==> form.email == ""
    ensures LoginErrors(form).password.Some? <==> form.password == ""
  {
  }

  /** A stored user matches when both email and password are exactly (case-sensitively) equal. */
  predicate Matches(user: UserRecord, form: Credentials)
  {
    user.email == form.email && user.password == form.password
  }

  /** The index of the first matching user at or after `from`, or |users| when there is none. */
  function FirstMatchFrom(users: seq<UserRecord>, form: Credentials, from: nat): (k: nat)
    requires from <= |users|
    ensures from <= k <= |users|
    ensures forall j :: from <= j < k ==> !Matches(users[j], form)
    ensures k < |users| ==> Matches(users[k], form)
    decreases |users| - from
  {
    if from == |users| then from
    else if Matches(users[from], form) then from
    else FirstMatchFrom(users, form, from + 1)
  }

  /**
   * storedUsers.find: the first user whose credentials match, or None when
   * no user matches.
   */
  function FindUser(users: seq<UserRecord>, form: Credentials): (found: Option<UserRecord>)
    ensures found.None? <==> forall i :: 0 <= i < |users| ==> !Matches(users[i], form)
    ensures found.Some? ==> exists i :: && 0 <= i < |users| && users[i] == found.value
                                        && Matches(users[i], form)
                                        && forall j :: 0 <= j < i ==> !Matches(users[j], form)
  {
    var k := FirstMatchFrom(users, form, 0);
    if k < |users| then Some(users[k]) else None
  }

  /** What the page shows after a submit: field errors, the dashboard, or the generic mismatch notice. */
  datatype LoginOutcome = FieldsMissing | LoggedIn(user: UserRecord) | InvalidCredentials

  class LoginPage {
    var formData: Credentials
    var errors: FormErrors

    constructor ()
      ensures formData == EmptyCredentials && errors == NoErrors
    {
      formData := EmptyCredentials;
      errors := NoErrors;
    }

    /** handleChange: the named input's value replaces that field. */
    method HandleChange(f: Field, value: string)
      modifies this
      ensures formData == (match f
                           case EmailInput => old(formData).(email := value)
                           case PasswordInput => old(formData).(password := value))
      ensures errors == old(errors)
    {
      match f
      case EmailInput => formData := formData.(email := value);
      case PasswordInput => formData := formData.(password := value);
    }

    /** validateFields: fills a fresh error object, publishes it and reports whether it has no keys. */
    method ValidateFields() returns (ok: bool)
      modifies this
      ensures errors == LoginErrors(formData) && formData == old(formData)
      ensures ok <==> formData.email != "" && formData.password != ""
    {
      var newErrors := NoErrors;
      if formData.email == "" {
        newErrors := newErrors.(email := Some(EmailRequired));
      }
      if formData.password == "" {
        newErrors := newErrors.(password := Some(PasswordRequired));
      }
      errors := newErrors;
      ok := newErrors == NoErrors;
    }

    /**
     * handleSubmit: when both fields are present, searches the stored users;
     * a match fills the session slot, no match clears the form. The user
     * list is never written, and is not consulted when a field is missing.
     */
    method HandleSubmit(store: LocalStore) returns (outcome: LoginOutcome)
      modifies this, store
      ensures errors == LoginErrors(old(formData))
      ensures store.userData == old(store.userData)
      ensures LoginErrors(old(formData)) != NoErrors ==>
                && outcome == FieldsMissing
                && store.loggedUser == old(store.loggedUser)
                && formData == old(formData)
      ensures LoginErrors(old(formData)) == NoErrors ==>
                match FindUser(StoredUsers(old(store.userData)), old(formData))
                case Some(user) =>
                  && outcome == LoggedIn(user)
                  && store.loggedUser == Some(user)
                  && formData == old(formData)
                case None =>
                  && outcome == InvalidCredentials
                  && store.loggedUser == old(store.loggedUser)
                  && formData == EmptyCredentials
    {
      errors := NoErrors;
      var valid := ValidateFields();
      if valid {
        var storedUsers := StoredUsers(store.userData);
        var user := FindUser(storedUsers, formData);
        match user
        case Some(u) =>
          store.loggedUser := Some(u);
          outcome := LoggedIn(u);
        case None =>
          formData := EmptyCredentials;
          outcome := InvalidCredentials;
      } else {
        outcome := FieldsMissing;
      }
    }
  }

  /**
   * A user who has just signed up can log in with the same email and
   * password: the form passes the presence checks, and the search finds a
   * user with those credentials (the new record itself, unless an earlier
   * record has the same pair).
   */
  lemma SignupThenLogin(users: seq<UserRecord>, form: UserRecord)
    requires Signup.SignupRules(form)
    ensures LoginErrors(Credentials(form.email, form.password)) == NoErrors
    ensures FindUser(users + [form], Credentials(form.email, form.password)).Some?
    ensures (forall i :: 0 <= i < |users| ==> !Matches(users[i], Credentials(form.email, form.password))) ==>
              FindUser(users + [form], Credentials(form.email, form.password)) == Some(form)
  {
    var login := Credentials(form.email, form.password);
    var all := users + [form];
    assert Matches(all[|users|], login);
    if forall i :: 0 <= i < |users| ==> !Matches(users[i], login) {
      forall i | 0 <= i < |users| ensures !Matches(all[i], login) {
        assert all[i] == users[i];
      }
    }
  }
}
