/** The pure part of the login form (src/app/login/page.tsx): the email regex,
    the per-field error messages and whether the form may be submitted. */
module LoginPage {
  import opened Wrappers
  import opened JsString

  /** `[^\s@]`: any character that is neither whitespace nor `@`. */
  predicate EmailChar(c: char) {
    !IsWhitespace(c) && c != '@'
  }

  /** `[^\s@]+`. */
  predicate OneOrMore(s: string) {
    |s| >= 1 && forall i :: 0 <= i < |s| ==> EmailChar(s[i])
  }

  /** `isValidEmail`: `/^[^\s@]+@[^\s@]+\.[^\s@]+$/.test(value)`, read as the
      concatenation of its five pieces. */
  predicate IsValidEmail(s: string) {
    exists at, dot :: 0 <= at < dot < |s| && s[at] == '@' && s[dot] == '.'
      && OneOrMore(s[..at]) && OneOrMore(s[at + 1..dot]) && OneOrMore(s[dot + 1..])
  }

  /** `s` has `@` at `k` and nowhere else. */
  predicate OnlyAtSignAt(s: string, k: nat) {
    k < |s| && s[k] == '@' && forall m :: 0 <= m < |s| && m != k ==> s[m] != '@'
  }

  /** The domain holds a `.` that is neither its first nor its last character. */
  predicate InnerDot(d: string) {
    exists j :: 0 < j < |d| - 1 && d[j] == '.'
  }

  /** What the regex demands, stated without it: no whitespace, exactly one `@`,
      a non-empty part before it, and a dot inside the part after it. */
  ghost predicate EmailShape(s: string) {
    && (forall i :: 0 <= i < |s| ==> !IsWhitespace(s[i]))
    && exists k :: 0 < k && OnlyAtSignAt(s, k) && InnerDot(s[k + 1..])
  }

  lemma ValidEmailHasShape(s: string)
    requires IsValidEmail(s)
    ensures EmailShape(s)
  {
    var at, dot :| 0 <= at < dot < |s| && s[at] == '@' && s[dot] == '.'
      && OneOrMore(s[..at]) && OneOrMore(s[at + 1..dot]) && OneOrMore(s[dot + 1..]);
    var local, host, tld := s[..at], s[at + 1..dot], s[dot + 1..];
    forall i | 0 <= i < |s| && i != at && i != dot ensures EmailChar(s[i]) {
      if i < at {
        assert s[i] == local[i];
      } else if i < dot {
        assert s[i] == host[i - at - 1];
      } else {
        assert s[i] == tld[i - dot - 1];
      }
    }
    assert !IsWhitespace('@') && !IsWhitespace('.');
    assert s[at + 1..][dot - at - 1] == '.';
    assert OnlyAtSignAt(s, at) && InnerDot(s[at + 1..]);
  }

  lemma ShapeIsValidEmail(s: string)
    requires EmailShape(s)
    ensures IsValidEmail(s)
  {
    var k :| 0 < k && OnlyAtSignAt(s, k) && InnerDot(s[k + 1..]);
    var j :| 0 < j < |s[k + 1..]| - 1 && s[k + 1..][j] == '.';
    var dot := k + 1 + j;
    assert s[dot] == '.';
    forall i | 0 <= i < |s| && i != k ensures EmailChar(s[i]) {
    }
    assert OneOrMore(s[..k]) by {
      forall i | 0 <= i < k ensures EmailChar(s[..k][i]) { assert s[..k][i] == s[i]; }
    }
    var host, tld := s[k + 1..dot], s[dot + 1..];
    assert OneOrMore(host) by {
      forall i | 0 <= i < |host| ensures EmailChar(host[i]) { assert host[i] == s[k + 1 + i]; }
    }
    assert OneOrMore(tld) by {
      forall i | 0 <= i < |tld| ensures EmailChar(tld[i]) { assert tld[i] == s[dot + 1 + i]; }
    }
  }

  /** The regex accepts exactly the strings of that shape. */
  lemma ValidEmailIff(s: string)
    ensures IsValidEmail(s) <==> EmailShape(s)
  {
    if IsValidEmail(s) { ValidEmailHasShape(s); }
    if EmailShape(s) { ShapeIsValidEmail(s); }
  }

  datatype LoginForm = LoginForm(email: string, password: string)

  /** The `errors` object: a field is absent (`None`) or holds its one message. */
  datatype FieldErrors = FieldErrors(email: Option<string>, password: Option<string>)

  const EmailRequired := "Informe seu email."
  const EmailInvalid := "Email inválido."
  const PasswordRequired := "Informe sua senha."
  const PasswordTooShort := "A senha deve ter pelo menos 8 caracteres."

  /** The `errors` memo (lines 22-33): blank fields first, then the email regex
      on the untrimmed email and the length of the untrimmed password. */
  function Errors(form: LoginForm): FieldErrors {
    FieldErrors(
      if Trim(form.email) == [] then Some(EmailRequired)
      else if !IsValidEmail(form.email) then Some(EmailInvalid)
      else None,
      if Trim(form.password) == [] then Some(PasswordRequired)
      else if Utf16Length(form.password) < 8 then Some(PasswordTooShort)
      else None)
  }

  /** `canSubmit`: no field error and no submission in flight. */
  function CanSubmit(form: LoginForm, isSubmitting: bool): bool {
    Errors(form) == FieldErrors(None, None) && !isSubmitting
  }

  /** The email message, case by case: "Informe seu email." exactly for a blank
      email, "Email inválido." exactly for a non-blank email the regex rejects. */
  lemma EmailErrorCases(form: LoginForm)
    ensures Errors(form).email == Some(EmailRequired) <==> AllWhitespace(form.email)
    ensures Errors(form).email == Some(EmailInvalid) <==> !AllWhitespace(form.email) && !IsValidEmail(form.email)
    ensures Errors(form).email.None? <==> IsValidEmail(form.email)
  {
    TrimEmptyIff(form.email);
    if IsValidEmail(form.email) {
      ValidEmailNotBlank(form.email);
    }
  }

  /** An email the regex accepts is not blank: it holds an `@`. */
  lemma ValidEmailNotBlank(s: string)
    requires IsValidEmail(s)
    ensures !AllWhitespace(s)
  {
    var at, dot :| 0 <= at < dot < |s| && s[at] == '@' && s[dot] == '.'
      && OneOrMore(s[..at]) && OneOrMore(s[at + 1..dot]) && OneOrMore(s[dot + 1..]);
    assert !IsWhitespace(s[at]);
  }

  /** The password message: blank takes priority over too short, which is
      measured on the untrimmed password. */
  lemma PasswordErrorCases(form: LoginForm)
    ensures Errors(form).password == Some(PasswordRequired) <==> AllWhitespace(form.password)
    ensures Errors(form).password == Some(PasswordTooShort) <==>
      !AllWhitespace(form.password) && Utf16Length(form.password) < 8
    ensures Errors(form).password.None? <==> !AllWhitespace(form.password) && Utf16Length(form.password) >= 8
  {
    TrimEmptyIff(form.password);
  }

  /** The submit button is enabled exactly for a regex-valid email, a non-blank
      password of at least 8 UTF-16 code units, and no submission in flight. */
  lemma CanSubmitIff(form: LoginForm, isSubmitting: bool)
    ensures CanSubmit(form, isSubmitting) <==>
      && EmailShape(form.email)
      && !AllWhitespace(form.password) && Utf16Length(form.password) >= 8
      && !isSubmitting
  {
    EmailErrorCases(form);
    PasswordErrorCases(form);
    ValidEmailIff(form.email);
  }
}
