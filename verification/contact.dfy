/** components/contact.tsx: the contact form. It holds three fields, checks
    them before sending (each must be non-blank, and the e-mail must match
    `^[^\s@]+@[^\s@]+\.[^\s@]+$`), hands them to the optional `onSubmit`
    callback, and reports the outcome. */
module Contact {
  import opened Wrappers
  import opened Text

  datatype Field = NameField | EmailField | MessageField

  datatype FormData = FormData(name: string, email: string, message: string)

  const EmptyForm: FormData := FormData("", "", "")

  const NameRequired: string := "Name is required"
  const EmailRequired: string := "Email is required"
  const InvalidEmail: string := "Please enter a valid email"
  const MessageRequired: string := "Message is required"
  const SendFailed: string := "Failed to send message"

  function ValueOf(data: FormData, field: Field): string {
    match field
    case NameField => data.name
    case EmailField => data.email
    case MessageField => data.message
  }

  /** `{ ...prev, [name]: value }`: one field replaced, the others kept. */
  function WithValue(data: FormData, field: Field, value: string): (r: FormData)
    ensures ValueOf(r, field) == value
    ensures forall other :: other != field ==> ValueOf(r, other) == ValueOf(data, other)
  {
    match field
    case NameField => data.(name := value)
    case EmailField => data.(email := value)
    case MessageField => data.(message := value)
  }

  /** Characters `[^\s@]` accepts. */
  predicate PlainChar(c: char) {
    c != '@' && !IsWhitespace(c)
  }

  /** `[^\s@]+`: a non-empty run of plain characters. */
  predicate PlainRun(x: string) {
    x != [] && forall k :: 0 <= k < |x| ==> PlainChar(x[k])
  }

  /** The strings `^[^\s@]+@[^\s@]+\.[^\s@]+$` matches: a local part, `@`,
      and a domain that splits at some `.` into two further runs (the first
      of which may itself contain dots). */
  ghost predicate EmailPattern(s: string) {
    exists a, b, c :: PlainRun(a) && PlainRun(b) && PlainRun(c) && s == a + "@" + b + "." + c
  }

  /** The pattern checked by one scan: one `@`, not first, with no
      whitespace anywhere, and a domain of at least three characters with a
      dot that is neither its first nor its last. */
  predicate ValidEmail(s: string) {
    var i := FirstIndexOf(s, '@');
    && 0 < i < |s|
    && (forall k :: 0 <= k < i ==> PlainChar(s[k]))
    && (forall k :: i < k < |s| ==> PlainChar(s[k]))
    && 3 <= |s| - (i + 1)
    && '.' in s[i + 2..|s| - 1]
  }

  lemma {:induction false} ValidEmailMatchesPattern(s: string)
    requires ValidEmail(s)
    ensures EmailPattern(s)
  {
    var i := FirstIndexOf(s, '@');
    var m :| 0 <= m < |s[i + 2..|s| - 1]| && s[i + 2..|s| - 1][m] == '.';
    var j := i + 2 + m;
    var a, b, c := s[..i], s[i + 1..j], s[j + 1..];
    assert s[j] == '.';
    assert PlainRun(a);
    assert PlainRun(b) by {
      forall k | 0 <= k < |b| ensures PlainChar(b[k]) {
        assert b[k] == s[i + 1 + k];
      }
    }
    assert PlainRun(c) by {
      forall k | 0 <= k < |c| ensures PlainChar(c[k]) {
        assert c[k] == s[j + 1 + k];
      }
    }
    assert s == a + "@" + b + "." + c;
  }

  lemma {:induction false} PatternPassesValidEmail(s: string, a: string, b: string, c: string)
    requires PlainRun(a) && PlainRun(b) && PlainRun(c) && s == a + "@" + b + "." + c
    ensures ValidEmail(s)
  {
    var rest := b + "." + c;
    assert s == a + ['@'] + rest;
    assert '@' !in a by {
      forall k | 0 <= k < |a| ensures a[k] != '@' {
        assert PlainChar(a[k]);
      }
    }
    FirstIndexAfterPrefix(a, '@', rest);
    var i := |a|;
    forall k | 0 <= k < i ensures PlainChar(s[k]) {
      assert s[k] == a[k];
    }
    forall k | i < k < |s| ensures PlainChar(s[k]) {
      assert s[k] == rest[k - i - 1];
      if k - i - 1 < |b| {
        assert rest[k - i - 1] == b[k - i - 1];
      } else if k - i - 1 > |b| {
        assert rest[k - i - 1] == c[k - i - 2 - |b|];
      }
    }
    assert s[i + 1 + |b|] == '.';
    assert s[i + 2..|s| - 1][|b| - 1] == '.';
  }

  /** The one-scan check accepts exactly the strings the pattern matches. */
  lemma ValidEmailIffPattern(s: string)
    ensures ValidEmail(s) <==> EmailPattern(s)
  {
    if ValidEmail(s) {
      ValidEmailMatchesPattern(s);
    }
    if EmailPattern(s) {
      var a, b, c :| PlainRun(a) && PlainRun(b) && PlainRun(c) && s == a + "@" + b + "." + c;
      PatternPassesValidEmail(s, a, b, c);
    }
  }

  /** The check of a required field: an error exactly when `value.trim()`
      is empty, which is exactly when the value is all whitespace. */
  function RequiredError(value: string, message: string): (e: Option<string>)
    ensures e.Some? <==> IsBlank(value)
    ensures e.Some? ==> e.value == message
  {
    TrimEmptyIffBlank(value);
    if Trim(value) == "" then Some(message) else None
  }

  /** The check of the e-mail: required when its trimmed value is empty;
      otherwise invalid when the value as typed (surrounding spaces
      included) does not match. */
  function EmailError(email: string): (e: Option<string>)
    ensures e.Some? <==> IsBlank(email) || !ValidEmail(email)
    ensures e.Some? ==> e.value == if IsBlank(email) then EmailRequired else InvalidEmail
  {
    TrimEmptyIffBlank(email);
    if Trim(email) == "" then Some(EmailRequired)
    else if !ValidEmail(email) then Some(InvalidEmail)
    else None
  }

  /** The `Partial<FormData>` of error texts: each field has an entry or not. */
  datatype FieldErrors = FieldErrors(name: Option<string>, email: Option<string>, message: Option<string>)

  /** `{}` */
  const NoErrors: FieldErrors := FieldErrors(None, None, None)

  function ErrorOf(errs: FieldErrors, field: Field): Option<string> {
    match field
    case NameField => errs.name
    case EmailField => errs.email
    case MessageField => errs.message
  }

  /** `{ ...prev, [name]: text }`: one entry set, the others kept. */
  function WithError(errs: FieldErrors, field: Field, text: string): (r: FieldErrors)
    ensures ErrorOf(r, field) == Some(text)
    ensures forall other :: other != field ==> ErrorOf(r, other) == ErrorOf(errs, other)
  {
    match field
    case NameField => errs.(name := Some(text))
    case EmailField => errs.(email := Some(text))
    case MessageField => errs.(message := Some(text))
  }

  /** `Object.keys(errors).length`: how many fields have an entry. */
  function KeyCount(errs: FieldErrors): (n: nat)
    ensures n <= 3
    ensures n == 0 <==> errs == NoErrors
  {
    (if errs.name.Some? then 1 else 0) + (if errs.email.Some? then 1 else 0) + (if errs.message.Some? then 1 else 0)
  }

  /** The form shows a field's error (red border and text) when its entry is
      a non-empty string. */
  predicate Shown(errs: FieldErrors, field: Field) {
    Truthy(ErrorOf(errs, field))
  }

  /** The errors `validateForm` records, one check per field. */
  function ErrorsFor(data: FormData): FieldErrors {
    FieldErrors(RequiredError(data.name, NameRequired), EmailError(data.email), RequiredError(data.message, MessageRequired))
  }

  /** What the recorded errors mean: a blank (all-whitespace) name or
      message is required; a blank e-mail is required, and a non-blank one
      that fails the check as typed (spaces included) is invalid. */
  lemma ErrorsForMeaning(data: FormData)
    ensures var errs := ErrorsFor(data);
      && (errs.name.Some? <==> IsBlank(data.name))
      && (errs.message.Some? <==> IsBlank(data.message))
      && (errs.email.Some? <==> IsBlank(data.email) || !ValidEmail(data.email))
      && (errs.name.Some? ==> errs.name.value == NameRequired)
      && (errs.message.Some? ==> errs.message.value == MessageRequired)
      && (errs.email.Some? ==> errs.email.value == if IsBlank(data.email) then EmailRequired else InvalidEmail)
  {
  }

  /** Every recorded error is a non-empty text, so it is shown. */
  lemma RecordedErrorsAreShown(data: FormData, field: Field)
    ensures ErrorOf(ErrorsFor(data), field).Some? ==> Shown(ErrorsFor(data), field)
  {
  }

  /** The form passes exactly when the name and message are not blank and
      the e-mail, as typed, matches the pattern. */
  lemma NoErrorsIff(data: FormData)
    ensures ErrorsFor(data) == NoErrors <==>
      !IsBlank(data.name) && !IsBlank(data.message) && EmailPattern(data.email)
  {
    ErrorsForMeaning(data);
    ValidEmailIffPattern(data.email);
  }

  /** An e-mail that matches the pattern is never blank. */
  lemma PatternIsNotBlank(s: string)
    requires EmailPattern(s)
    ensures !IsBlank(s)
  {
    var a, b, c :| PlainRun(a) && PlainRun(b) && PlainRun(c) && s == a + "@" + b + "." + c;
    assert s[0] == a[0];
  }

  /** The pattern is tried on the raw value: a leading space makes a
      matching address invalid, though the required-check trims it. */
  lemma {:induction false} LeadingSpaceIsInvalid(name: string, email: string, message: string)
    requires EmailPattern(email)
    ensures ErrorsFor(FormData(name, " " + email, message)).email == Some(InvalidEmail)
  {
    var padded := " " + email;
    PatternIsNotBlank(email);
    var k :| 0 <= k < |email| && !IsWhitespace(email[k]);
    assert padded[k + 1] == email[k];
    assert !IsBlank(padded);
    assert !ValidEmail(padded) by {
      if 0 < FirstIndexOf(padded, '@') {
        assert !PlainChar(padded[0]);
      }
    }
  }

  /** The body of `validateForm` up to `setErrors`: the object of errors,
      built one check at a time. */
  method CollectErrors(data: FormData) returns (newErrors: FieldErrors)
    ensures newErrors == ErrorsFor(data)
  {
    newErrors := NoErrors;
    if Trim(data.name) == "" {
      newErrors := newErrors.(name := Some(NameRequired));
    }
    if Trim(data.email) == "" {
      newErrors := newErrors.(email := Some(EmailRequired));
    } else if !ValidEmail(data.email) {
      newErrors := newErrors.(email := Some(InvalidEmail));
    }
    if Trim(data.message) == "" {
      newErrors := newErrors.(message := Some(MessageRequired));
    }
  }

  /** What `onSubmit` does when called: resolve, or reject with an error
      whose `message` may be missing or empty. */
  datatype SubmitOutcome = Resolved | Rejected(message: Option<string>)

  class ContactForm {
    var formData: FormData
    var errors: FieldErrors
    var isSubmitting: bool
    var submitSuccess: bool
    var submitError: Option<string>
    /** The values handed to `onSubmit`, call by call. */
    var submitted: seq<FormData>

    /** The initial state: the `useState` hooks of the component. */
    constructor ()
      ensures formData == EmptyForm && errors == NoErrors
      ensures !isSubmitting && !submitSuccess && submitError.None? && submitted == []
    {
      formData := EmptyForm;
      errors := NoErrors;
      isSubmitting := false;
      submitSuccess := false;
      submitError := None;
      submitted := [];
    }

    /** `validateForm`: records the errors of the current values and
        reports whether there were none. */
    method ValidateForm() returns (valid: bool)
      modifies this
      ensures errors == ErrorsFor(old(formData))
      ensures valid <==> errors == NoErrors
      ensures formData == old(formData) && isSubmitting == old(isSubmitting)
      ensures submitSuccess == old(submitSuccess) && submitError == old(submitError) && submitted == old(submitted)
    {
      var newErrors := CollectErrors(formData);
      errors := newErrors;
      valid := KeyCount(newErrors) == 0;
    }

    /** The sending part of `handleSubmit` (its `try` block), for a form that
        passed: `onSubmit` is absent (`None`) or ends as given. A sent form
        is cleared and marked successful; a rejection keeps the values and
        shows the error's message or a default. The errors are not touched. */
    method Send(onSubmit: Option<SubmitOutcome>)
      modifies this
      ensures !isSubmitting && errors == old(errors)
      ensures submitted == old(submitted) + (if onSubmit.Some? then [old(formData)] else [])
      ensures onSubmit == Some(Resolved) || onSubmit.None? ==>
        formData == EmptyForm && submitSuccess && submitError.None?
      ensures onSubmit.Some? && onSubmit.value.Rejected? ==>
        && formData == old(formData) && submitSuccess == old(submitSuccess)
        && submitError == Some(OrDefault(onSubmit.value.message, SendFailed))
    {
      isSubmitting := true;
      submitError := None;
      var outcome := Resolved;
      if onSubmit.Some? {
        submitted := submitted + [formData];
        outcome := onSubmit.value;
      }
      match outcome {
        case Resolved =>
          submitSuccess := true;
          formData := EmptyForm;
        case Rejected(message) =>
          submitError := Some(OrDefault(message, SendFailed));
      }
      isSubmitting := false;
    }

    /** `handleSubmit`: an invalid form is not sent and keeps its values and
        its status; a valid one is sent. */
    method HandleSubmit(onSubmit: Option<SubmitOutcome>)
      modifies this
      ensures errors == ErrorsFor(old(formData))
      ensures errors != NoErrors ==>
        && formData == old(formData) && submitted == old(submitted)
        && isSubmitting == old(isSubmitting) && submitSuccess == old(submitSuccess)
        && submitError == old(submitError)
      ensures errors == NoErrors ==>
        && !isSubmitting
        && submitted == old(submitted) + (if onSubmit.Some? then [old(formData)] else [])
        && (onSubmit == Some(Resolved) || onSubmit.None? ==>
              formData == EmptyForm && submitSuccess && submitError.None?)
        && (onSubmit.Some? && onSubmit.value.Rejected? ==>
              && formData == old(formData) && submitSuccess == old(submitSuccess)
              && submitError == Some(OrDefault(onSubmit.value.message, SendFailed)))
    {
      var valid := ValidateForm();
      if valid {
        Send(onSubmit);
      }
    }

    /** The timer set on success: three seconds later the notice goes away. */
    method SuccessTimeout()
      modifies this
      ensures !submitSuccess
      ensures formData == old(formData) && errors == old(errors) && isSubmitting == old(isSubmitting)
      ensures submitError == old(submitError) && submitted == old(submitted)
    {
      submitSuccess := false;
    }

    /** `handleChange`: sets the edited field and, when that field's error is
        shown, replaces it by an empty entry, which hides it; no other field
        or error changes. */
    method HandleChange(field: Field, value: string)
      modifies this
      ensures formData == WithValue(old(formData), field, value)
      ensures errors == if Shown(old(errors), field) then WithError(old(errors), field, "") else old(errors)
      ensures !Shown(errors, field)
      ensures forall other :: other != field ==> ValueOf(formData, other) == ValueOf(old(formData), other)
      ensures forall other :: other != field ==> ErrorOf(errors, other) == ErrorOf(old(errors), other)
      ensures isSubmitting == old(isSubmitting) && submitSuccess == old(submitSuccess)
      ensures submitError == old(submitError) && submitted == old(submitted)
    {
      formData := WithValue(formData, field, value);
      if Truthy(ErrorOf(errors, field)) {
        errors := WithError(errors, field, "");
      }
    }
  }
}
