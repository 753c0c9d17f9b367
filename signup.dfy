/**
 * The signup page: the two character patterns, the field-by-field validator
 * and the submit handler that appends a new user to the stored list.
 */
module Signup {

  import opened Wrappers
  import opened Storage

  // ---------------------------------------------------------------------
  // Character classes
  // ---------------------------------------------------------------------

  /** `\s` in an ECMAScript regular expression: the WhiteSpace and LineTerminator code points. */
  predicate IsSpace(c: char)
  {
    || c == '\t' || c == '\n' || c == '\U{000B}' || c == '\U{000C}' || c == '\r' || c == ' '
    || c == '\U{00A0}' || c == '\U{1680}' || ('\U{2000}' <= c <= '\U{200A}')
    || c == '\U{2028}' || c == '\U{2029}' || c == '\U{202F}' || c == '\U{205F}'
    || c == '\U{3000}' || c == '\U{FEFF}'
  }

  /** The class `[^\s@]` of the email pattern. */
  predicate IsEmailChar(c: char)
  {
    !IsSpace(c) && c != '@'
  }

  predicate AllEmailChars(s: string)
  {
    forall i :: 0 <= i < |s| ==> IsEmailChar(s[i])
  }

  // ---------------------------------------------------------------------
  // validateEmail: the pattern ^[^\s@]+@[^\s@]+\.[^\s@]+$
  // ---------------------------------------------------------------------

  /**
   * The shape the email pattern accepts: a non-empty local part of `[^\s@]`
   * characters, one '@', and a domain of `[^\s@]` characters holding a '.'
   * that is neither its first nor its last character.
   */
  ghost predicate DomainShape(d: string)
  {
    AllEmailChars(d) && exists k :: 0 < k < |d| - 1 && d[k] == '.'
  }

  /** The split of a candidate address at index i: `[^\s@]*` before, '@' at i, a domain after. */
  ghost predicate AtSplit(s: string, i: int)
  {
    0 <= i < |s| && s[i] == '@' && AllEmailChars(s[..i]) && DomainShape(s[i + 1..])
  }

  ghost predicate EmailShape(s: string)
  {
    exists i :: 0 < i && AtSplit(s, i)
  }

  /**
   * The email pattern compiled to a finite automaton, read left to right:
   * Local after the first local character, AfterAt after the '@', Domain
   * while no '.' past the first domain character has been read, AfterDot
   * right after such a '.', Complete once a character follows it.
   */
  datatype EmailState = Start | Local | AfterAt | Domain | AfterDot | Complete | Reject

  function EmailStep(q: EmailState, c: char): EmailState
  {
    match q
    case Start => if IsEmailChar(c) then Local else Reject
    case Local => if IsEmailChar(c) then Local else if c == '@' then AfterAt else Reject
    case AfterAt => if IsEmailChar(c) then Domain else Reject
    case Domain => if c == '.' then AfterDot else if IsEmailChar(c) then Domain else Reject
    case AfterDot => if IsEmailChar(c) then Complete else Reject
    case Complete => if IsEmailChar(c) then Complete else Reject
    case Reject => Reject
  }

  function EmailRun(q: EmailState, s: string): EmailState
    decreases |s|
  {
    if s == [] then q else EmailRun(EmailStep(q, s[0]), s[1..])
  }

  /** validateEmail (app/signup/page.tsx): runs the pattern's automaton over the whole string. */
  function ValidateEmail(email: string): bool
  {
    EmailRun(Start, email) == Complete
  }

  /** The automaton accepts exactly the strings of the pattern's shape. */
  lemma ValidateEmailSpec(email: string)
    ensures ValidateEmail(email) <==> EmailShape(email)
  {
    StartRun(email);
  }

  lemma AllEmailCharsCons(s: string)
    requires s != []
    ensures AllEmailChars(s) <==> IsEmailChar(s[0]) && AllEmailChars(s[1..])
  {
    if IsEmailChar(s[0]) && AllEmailChars(s[1..]) {
      forall i | 0 < i < |s| ensures IsEmailChar(s[i]) {
        assert s[i] == s[1..][i - 1];
      }
    }
  }

  lemma {:induction false} RejectRun(s: string)
    ensures EmailRun(Reject, s) == Reject
    decreases |s|
  {
    if s != [] {
      RejectRun(s[1..]);
    }
  }

  lemma {:induction false} CompleteRun(s: string)
    ensures EmailRun(Complete, s) == Complete <==> AllEmailChars(s)
    decreases |s|
  {
    if s != [] {
      AllEmailCharsCons(s);
      if IsEmailChar(s[0]) {
        CompleteRun(s[1..]);
      } else {
        RejectRun(s[1..]);
      }
    }
  }

  lemma AfterDotRun(s: string)
    ensures EmailRun(AfterDot, s) == Complete <==> |s| > 0 && AllEmailChars(s)
  {
    if s != [] {
      AllEmailCharsCons(s);
      if IsEmailChar(s[0]) {
        CompleteRun(s[1..]);
      } else {
        RejectRun(s[1..]);
      }
    }
  }

  lemma {:induction false} DomainRun(s: string)
    ensures EmailRun(Domain, s) == Complete <==>
            AllEmailChars(s) && exists k :: 0 <= k < |s| - 1 && s[k] == '.'
    decreases |s|
  {
    if s != [] {
      AllEmailCharsCons(s);
      var t := s[1..];
      if s[0] == '.' {
        AfterDotRun(t);
        if |s| > 1 {
          assert s[0] == '.';
        }
      } else if IsEmailChar(s[0]) {
        DomainRun(t);
        if exists k :: 0 <= k < |s| - 1 && s[k] == '.' {
          var k :| 0 <= k < |s| - 1 && s[k] == '.';
          assert k > 0 && t[k - 1] == '.';
        }
        if exists k :: 0 <= k < |t| - 1 && t[k] == '.' {
          var k :| 0 <= k < |t| - 1 && t[k] == '.';
          assert s[k + 1] == '.';
        }
      } else {
        RejectRun(t);
      }
    }
  }

  lemma AfterAtRun(s: string)
    ensures EmailRun(AfterAt, s) == Complete <==> DomainShape(s)
  {
    if s != [] {
      AllEmailCharsCons(s);
      var t := s[1..];
      if IsEmailChar(s[0]) {
        DomainRun(t);
        if exists k :: 0 < k < |s| - 1 && s[k] == '.' {
          var k :| 0 < k < |s| - 1 && s[k] == '.';
          assert t[k - 1] == '.';
        }
        if exists k :: 0 <= k < |t| - 1 && t[k] == '.' {
          var k :| 0 <= k < |t| - 1 && t[k] == '.';
          assert s[k + 1] == '.';
        }
      } else {
        RejectRun(t);
      }
    }
  }

  /** The body of the pattern after its first character: `[^\s@]*@` followed by a domain. */
  ghost predicate LocalTail(s: string)
  {
    exists i :: AtSplit(s, i)
  }

  lemma SplitShift(s: string, i: int)
    requires s != [] && 0 < i
    ensures AtSplit(s, i) <==> IsEmailChar(s[0]) && AtSplit(s[1..], i - 1)
  {
    var t := s[1..];
    if i < |s| {
      assert s[..i][1..] == t[..i - 1];
      AllEmailCharsCons(s[..i]);
      assert s[i] == t[i - 1] && s[i + 1..] == t[i..];
    }
  }

  /** One character of the local part consumed: either it is the '@', or it is a `[^\s@]` character and the rest still fits. */
  lemma LocalTailCons(s: string)
    requires s != []
    ensures LocalTail(s) <==> AtSplit(s, 0) || (IsEmailChar(s[0]) && LocalTail(s[1..]))
  {
    var t := s[1..];
    if LocalTail(s) && !AtSplit(s, 0) {
      var i :| AtSplit(s, i);
      SplitShift(s, i);
    }
    if IsEmailChar(s[0]) && LocalTail(t) {
      var j :| AtSplit(t, j);
      SplitShift(s, j + 1);
    }
  }

  lemma EmailShapeCons(s: string)
    requires s != []
    ensures EmailShape(s) <==> IsEmailChar(s[0]) && LocalTail(s[1..])
  {
    var t := s[1..];
    if EmailShape(s) {
      var i :| 0 < i && AtSplit(s, i);
      SplitShift(s, i);
    }
    if IsEmailChar(s[0]) && LocalTail(t) {
      var j :| AtSplit(t, j);
      SplitShift(s, j + 1);
    }
  }

  lemma {:induction false} LocalRun(s: string)
    ensures EmailRun(Local, s) == Complete <==> LocalTail(s)
    decreases |s|
  {
    if s != [] {
      var t := s[1..];
      LocalTailCons(s);
      assert AtSplit(s, 0) <==> s[0] == '@' && DomainShape(t) by {
        assert s[..0] == [];
      }
      if IsEmailChar(s[0]) {
        LocalRun(t);
      } else if s[0] == '@' {
        AfterAtRun(t);
      } else {
        RejectRun(t);
      }
    }
  }

  lemma StartRun(s: string)
    ensures EmailRun(Start, s) == Complete <==> EmailShape(s)
  {
    if s != [] {
      var t := s[1..];
      EmailShapeCons(s);
      if IsEmailChar(s[0]) {
        LocalRun(t);
      } else {
        RejectRun(t);
      }
    }
  }

  /**
   * What an accepted address looks like as a whole: exactly one '@', no
   * whitespace anywhere, something before the '@', and a '.' after it that
   * is neither first nor last in the domain.
   */
  lemma ValidEmailParts(email: string)
    requires ValidateEmail(email)
    ensures multiset(email)['@'] == 1
    ensures forall j :: 0 <= j < |email| ==> !IsSpace(email[j])
    ensures exists i :: 0 < i < |email| && email[i] == '@' && DomainShape(email[i + 1..])
  {
    ValidateEmailSpec(email);
    var i :| 0 < i && AtSplit(email, i);
    var local, domain := email[..i], email[i + 1..];
    assert email == local + ['@'] + domain;
    assert '@' !in local && '@' !in domain;
    calc {
      multiset(email)['@'];
      multiset(local)['@'] + multiset(['@'])['@'] + multiset(domain)['@'];
      1;
    }
    forall j | 0 <= j < |email| ensures !IsSpace(email[j]) {
      if j < i {
        assert email[j] == local[j];
      } else if j > i {
        assert email[j] == domain[j - i - 1];
      }
    }
  }

  // ---------------------------------------------------------------------
  // validatePassword:
  //   ^(?=.*[a-z])(?=.*[A-Z])(?=.*\d)(?=.*[@$!%*?&])[A-Za-z\d@$!%*?&]{8,}$
  // ---------------------------------------------------------------------

  predicate IsLower(c: char) { 'a' <= c <= 'z' }
  predicate IsUpper(c: char) { 'A' <= c <= 'Z' }
  predicate IsDigit(c: char) { '0' <= c <= '9' }
  predicate IsSymbol(c: char) { c in "@$!%*?&" }

  /** The class `[A-Za-z\d@$!%*?&]` every character must belong to. */
  predicate IsPasswordChar(c: char)
  {
    IsLower(c) || IsUpper(c) || IsDigit(c) || IsSymbol(c)
  }

  /** The password policy stated character by character. */
  ghost predicate PasswordPolicy(p: string)
  {
    && |p| >= 8
    && (forall i :: 0 <= i < |p| ==> IsPasswordChar(p[i]))
    && (exists i :: 0 <= i < |p| && IsLower(p[i]))
    && (exists i :: 0 <= i < |p| && IsUpper(p[i]))
    && (exists i :: 0 <= i < |p| && IsDigit(p[i]))
    && (exists i :: 0 <= i < |p| && IsSymbol(p[i]))
  }

  /** One lookahead `(?=.*[class])`: some character of p is in the class. */
  function SomeChar(p: string, inClass: char -> bool): (found: bool)
    ensures found <==> exists i :: 0 <= i < |p| && inClass(p[i])
    decreases |p|
  {
    if p == [] then false
    else if inClass(p[0]) then true
    else
      var rest := SomeChar(p[1..], inClass);
      assert rest ==> exists i :: 0 < i < |p| && p[i] == p[1..][i - 1] && inClass(p[i]);
      assert (exists i :: 0 < i < |p| && inClass(p[i])) ==> exists i :: 0 <= i < |p| - 1 && inClass(p[1..][i]);
      rest
  }

  /** The body `[class]{8,}` minus its length: every character of p is in the class. */
  function EveryChar(p: string, inClass: char -> bool): (all: bool)
    ensures all <==> forall i :: 0 <= i < |p| ==> inClass(p[i])
    decreases |p|
  {
    if p == [] then true
    else if !inClass(p[0]) then false
    else
      var rest := EveryChar(p[1..], inClass);
      assert forall i :: 0 < i < |p| ==> p[i] == p[1..][i - 1];
      rest
  }

  /** validatePassword (app/signup/page.tsx): the four lookaheads, then the length-at-least-8 body. */
  function ValidatePassword(password: string): bool
  {
    && SomeChar(password, IsLower)
    && SomeChar(password, IsUpper)
    && SomeChar(password, IsDigit)
    && SomeChar(password, IsSymbol)
    && |password| >= 8
    && EveryChar(password, IsPasswordChar)
  }

  /** The validator accepts exactly the passwords that satisfy every clause of the policy. */
  lemma ValidatePasswordSpec(password: string)
    ensures ValidatePassword(password) <==> PasswordPolicy(password)
  {
  }

  // ---------------------------------------------------------------------
  // validateFields: the error object
  // ---------------------------------------------------------------------

  /** The names of the form's inputs, which are also the keys of the error object. */
  datatype Field = Fullname | Email | Password | ConfirmPassword | Gender | Mobile

  /** The page's `Errors` object: every key is optional, and an absent key is None. */
  datatype Errors = Errors(
    fullname: Option<string>,
    email: Option<string>,
    password: Option<string>,
    confirmPassword: Option<string>,
    gender: Option<string>,
    mobile: Option<string>)

  /** `{}`: the object with no keys. */
  const NoErrors := Errors(None, None, None, None, None, None)

  const FullnameRequired := "Fullname is required"
  const EmailRequired := "Email is required"
  const EmailInvalid := "Invalid email address"
  const PasswordRequired := "Password is required"
  const PasswordWeak := "Password must be at least 8 characters, include 1 uppercase, 1 lowercase, 1 number, and 1 special character"
  const PasswordsDiffer := "Passwords do not match"
  const GenderRequired := "Gender is required"
  const MobileRequired := "Mobile number is required"

  /** The rule for one field: the message it gets, or None when it passes. */
  function FieldError(form: UserRecord, f: Field): Option<string>
  {
    match f
    case Fullname => if form.fullname == "" then Some(FullnameRequired) else None
    case Email =>
      if form.email == "" then Some(EmailRequired)
      else if !ValidateEmail(form.email) then Some(EmailInvalid)
      else None
    case Password =>
      if form.password == "" then Some(PasswordRequired)
      else if !ValidatePassword(form.password) then Some(PasswordWeak)
      else None
    case ConfirmPassword => if form.password != form.confirmPassword then Some(PasswordsDiffer) else None
    case Gender => if form.gender == "" then Some(GenderRequired) else None
    case Mobile => if form.mobile == "" then Some(MobileRequired) else None
  }

  /** The error object validateFields builds: each key holds its own field's rule. */
  function SignupErrors(form: UserRecord): Errors
  {
    Errors(FieldError(form, Fullname), FieldError(form, Email), FieldError(form, Password),
           FieldError(form, ConfirmPassword), FieldError(form, Gender), FieldError(form, Mobile))
  }

  /** Every signup rule, stated without the validators. */
  ghost predicate SignupRules(form: UserRecord)
  {
    && form.fullname != ""
    && EmailShape(form.email)
    && PasswordPolicy(form.password)
    && form.password == form.confirmPassword
    && form.gender != ""
    && form.mobile != ""
  }

  /**
   * What each key of the error object says, in terms of the patterns' shapes:
   * an empty field gets its "required" message and never the format message,
   * a non-empty email or password gets the format message exactly when it
   * does not have the pattern's shape, and confirmPassword is compared with
   * the password alone (two empty fields give no mismatch).
   */
  lemma SignupErrorsMeaning(form: UserRecord)
    ensures SignupErrors(form).fullname == (if form.fullname == "" then Some(FullnameRequired) else None)
    ensures SignupErrors(form).email ==
              (if form.email == "" then Some(EmailRequired)
               else if !EmailShape(form.email) then Some(EmailInvalid)
               else None)
    ensures SignupErrors(form).password ==
              (if form.password == "" then Some(PasswordRequired)
               else if !PasswordPolicy(form.password) then Some(PasswordWeak)
               else None)
    ensures SignupErrors(form).confirmPassword ==
              (if form.password != form.confirmPassword then Some(PasswordsDiffer) else None)
    ensures SignupErrors(form).gender == (if form.gender == "" then Some(GenderRequired) else None)
    ensures SignupErrors(form).mobile == (if form.mobile == "" then Some(MobileRequired) else None)
  {
    ValidateEmailSpec(form.email);
    ValidatePasswordSpec(form.password);
  }

  /** The error object has no keys exactly when every rule holds. */
  lemma SignupErrorsEmptyIff(form: UserRecord)
    ensures SignupErrors(form) == NoErrors <==> SignupRules(form)
  {
    SignupErrorsMeaning(form);
  }

  /** A field of the form replaced by an input's new value (handleChange). */
  function WithField(form: UserRecord, f: Field, value: string): UserRecord
  {
    match f
    case Fullname => form.(fullname := value)
    case Email => form.(email := value)
    case Password => form.(password := value)
    case ConfirmPassword => form.(confirmPassword := value)
    case Gender => form.(gender := value)
    case Mobile => form.(mobile := value)
  }

  /** handleChange writes the named input and leaves every other field as it was. */
  lemma WithFieldFrame(form: UserRecord, f: Field, value: string, g: Field)
    ensures FieldValue(WithField(form, f, value), f) == value
    ensures g != f ==> FieldValue(WithField(form, f, value), g) == FieldValue(form, g)
  {
  }

  /** The value the input named f shows. */
  function FieldValue(form: UserRecord, f: Field): string
  {
    match f
    case Fullname => form.fullname
    case Email => form.email
    case Password => form.password
    case ConfirmPassword => form.confirmPassword
    case Gender => form.gender
    case Mobile => form.mobile
  }

  // ---------------------------------------------------------------------
  // The page's state and its handlers
  // ---------------------------------------------------------------------

  class SignupPage {
    var formData: UserRecord
    var errors: Errors

    constructor ()
      ensures formData == EmptyForm && errors == NoErrors
    {
      formData := EmptyForm;
      errors := NoErrors;
    }

    /** handleChange: the named input's value replaces that field. */
    method HandleChange(f: Field, value: string)
      modifies this
      ensures formData == WithField(old(formData), f, value)
      ensures errors == old(errors)
    {
      formData := WithField(formData, f, value);
    }

    /**
     * validateFields: fills a fresh error object field by field, publishes
     * it as the page's errors and reports whether it has no keys.
     */
    method ValidateFields() returns (ok: bool)
      modifies this
      ensures errors == SignupErrors(formData) && formData == old(formData)
      ensures ok <==> SignupRules(formData)
    {
      var form := formData;
      var newErrors := NoErrors;
      if form.fullname == "" {
        newErrors := newErrors.(fullname := Some(FullnameRequired));
      }
      assert newErrors.fullname == FieldError(form, Fullname);
      if form.email == "" {
        newErrors := newErrors.(email := Some(EmailRequired));
      } else if !ValidateEmail(form.email) {
        newErrors := newErrors.(email := Some(EmailInvalid));
      }
      assert newErrors.email == FieldError(form, Email);
      if form.password == "" {
        newErrors := newErrors.(password := Some(PasswordRequired));
      } else if !ValidatePassword(form.password) {
        newErrors := newErrors.(password := Some(PasswordWeak));
      }
      assert newErrors.password == FieldError(form, Password);
      if form.password != form.confirmPassword {
        newErrors := newErrors.(confirmPassword := Some(PasswordsDiffer));
      }
      assert newErrors.confirmPassword == FieldError(form, ConfirmPassword);
      if form.gender == "" {
        newErrors := newErrors.(gender := Some(GenderRequired));
      }
      assert newErrors.gender == FieldError(form, Gender);
      if form.mobile == "" {
        newErrors := newErrors.(mobile := Some(MobileRequired));
      }
      assert newErrors.mobile == FieldError(form, Mobile);
      assert newErrors == SignupErrors(form);
      errors := newErrors;
      ok := newErrors == NoErrors;
      SignupErrorsEmptyIff(formData);
    }

    /**
     * handleSubmit: reads the stored list (absent reads as empty), validates,
     * and on success stores the list with the form appended, then clears the
     * form and the errors. On failure nothing is written to the store.
     */
    method HandleSubmit(store: LocalStore) returns (registered: bool)
      modifies this, store
      ensures registered <==> SignupRules(old(formData))
      ensures registered ==> && store.userData == Some(StoredUsers(old(store.userData)) + [old(formData)])
                             && formData == EmptyForm
                             && errors == NoErrors
      ensures !registered ==> && store.userData == old(store.userData)
                              && formData == old(formData)
                              && errors == SignupErrors(old(formData))
      ensures store.loggedUser == old(store.loggedUser)
    {
      var userDataArray := StoredUsers(store.userData);
      registered := ValidateFields();
      if registered {
        userDataArray := userDataArray + [formData];
        store.userData := Some(userDataArray);
        formData := EmptyForm;
        errors := NoErrors;
      }
    }
  }
}
