/**
 * The input check of the signup handler. Four independent checks run, none stops the
 * others, and each one that fails appends its fixed message to the error list, in the
 * fixed order: required fields, email shape, password confirmation, password length.
 */
module SignupValidation {
  import opened Wrappers
  import EmailSyntax

  /** The four body fields the handler reads; each may be absent from the request. */
  datatype SignupForm = SignupForm(
    name: Option<string>,
    email: Option<string>,
    password: Option<string>,
    password2: Option<string>)

  const REQUIRED_MESSAGE: string := "Enter required fields"
  const EMAIL_MESSAGE: string := "Enter a valid email"
  const MATCH_MESSAGE: string := "Passwords must match"
  const LENGTH_MESSAGE: string := "Password must be at least 6 characters"
  const MIN_PASSWORD_LENGTH: nat := 6

  /** A string field counts as given when it is present and not empty: the handler's truthiness test. */
  predicate Given(field: Option<string>)
  {
    field.Some? && field.value != ""
  }

  /** The length JavaScript reports for a string: characters outside the Basic Multilingual
      Plane are stored as two UTF-16 code units. */
  function Utf16Length(s: string): (n: nat)
    ensures |s| <= n <= 2 * |s|
    ensures (forall k :: 0 <= k < |s| ==> s[k] as int <= 0xFFFF) ==> n == |s|
  {
    if s == [] then 0
    else (if s[|s| - 1] as int <= 0xFFFF then 1 else 2) + Utf16Length(s[..|s| - 1])
  }

  /** The checks, one per message. */
  datatype Check = Required | ValidEmail | PasswordsMatch | PasswordLength

  /** The order in which the handler runs the checks. */
  const CHECK_ORDER: seq<Check> := [Required, ValidEmail, PasswordsMatch, PasswordLength]

  function Rank(c: Check): nat
  {
    match c
    case Required => 0
    case ValidEmail => 1
    case PasswordsMatch => 2
    case PasswordLength => 3
  }

  function Message(c: Check): string
  {
    match c
    case Required => REQUIRED_MESSAGE
    case ValidEmail => EMAIL_MESSAGE
    case PasswordsMatch => MATCH_MESSAGE
    case PasswordLength => LENGTH_MESSAGE
  }

  /** The position of a message in the handler's fixed order; 4 for any other string. */
  function MessageRank(m: string): nat
  {
    if m == REQUIRED_MESSAGE then 0
    else if m == EMAIL_MESSAGE then 1
    else if m == MATCH_MESSAGE then 2
    else if m == LENGTH_MESSAGE then 3
    else 4
  }

  /** When check c rejects the form. Two absent passwords are equal; an absent and a
      present one are not. The email shape is checked only for a given email. */
  predicate Fails(c: Check, form: SignupForm)
  {
    match c
    case Required =>
      !Given(form.name) || !Given(form.email) || !Given(form.password) || !Given(form.password2)
    case ValidEmail =>
      Given(form.email) && !EmailSyntax.IsValidEmail(form.email.value)
    case PasswordsMatch =>
      form.password != form.password2
    case PasswordLength =>
      Given(form.password) && Utf16Length(form.password.value) < MIN_PASSWORD_LENGTH
  }

  /** The messages of the checks in `checks` that reject the form, in the order of `checks`. */
  function FailedMessages(checks: seq<Check>, form: SignupForm): seq<string>
  {
    if checks == [] then []
    else (if Fails(checks[0], form) then [Message(checks[0])] else [])
         + FailedMessages(checks[1..], form)
  }

  /** The error list the handler sends back; empty when the form is accepted. */
  function Errors(form: SignupForm): (r: seq<string>)
    ensures forall m :: m in r ==>
              m == REQUIRED_MESSAGE || m == EMAIL_MESSAGE || m == MATCH_MESSAGE || m == LENGTH_MESSAGE
  {
    FailedMessagesFrom(CHECK_ORDER, form);
    FailedMessages(CHECK_ORDER, form)
  }

  /** The handler's checks, run one after the other, each appending its message on failure. */
  method Validate(form: SignupForm) returns (errors: seq<string>)
    ensures errors == Errors(form)
  {
    errors := [];
    if !Given(form.name) || !Given(form.email) || !Given(form.password) || !Given(form.password2) {
      errors := errors + [REQUIRED_MESSAGE];
    }
    if Given(form.email) && !EmailSyntax.IsValidEmail(form.email.value) {
      errors := errors + [EMAIL_MESSAGE];
    }
    if form.password != form.password2 {
      errors := errors + [MATCH_MESSAGE];
    }
    if Given(form.password) && Utf16Length(form.password.value) < MIN_PASSWORD_LENGTH {
      errors := errors + [LENGTH_MESSAGE];
    }
    ErrorsByCheck(form);
  }

  /** The error list check by check. */
  lemma ErrorsByCheck(form: SignupForm)
    ensures Errors(form)
            == (if Fails(Required, form) then [REQUIRED_MESSAGE] else [])
             + (if Fails(ValidEmail, form) then [EMAIL_MESSAGE] else [])
             + (if Fails(PasswordsMatch, form) then [MATCH_MESSAGE] else [])
             + (if Fails(PasswordLength, form) then [LENGTH_MESSAGE] else [])
  {
    assert FailedMessages([PasswordLength], form)
        == (if Fails(PasswordLength, form) then [LENGTH_MESSAGE] else []) + FailedMessages([], form);
    assert FailedMessages([PasswordsMatch, PasswordLength], form)
        == (if Fails(PasswordsMatch, form) then [MATCH_MESSAGE] else []) + FailedMessages([PasswordLength], form);
    assert FailedMessages([ValidEmail, PasswordsMatch, PasswordLength], form)
        == (if Fails(ValidEmail, form) then [EMAIL_MESSAGE] else []) + FailedMessages([PasswordsMatch, PasswordLength], form);
  }

  // ---------------------------------------------------------------------------
  // Properties of the error list
  // ---------------------------------------------------------------------------

  lemma {:induction false} FailedMessagesMembers(checks: seq<Check>, form: SignupForm, c: Check)
    ensures Message(c) in FailedMessages(checks, form) <==> c in checks && Fails(c, form)
  {
    if checks != [] {
      FailedMessagesMembers(checks[1..], form, c);
      assert checks == [checks[0]] + checks[1..];
    }
  }

  /** The four messages are distinct, so a message's rank is its check's rank. */
  lemma MessageRankIsRank(c: Check)
    ensures MessageRank(Message(c)) == Rank(c)
  {
  }

  /** Messages appear in strictly increasing rank: none twice, none out of order. */
  predicate InFixedOrder(r: seq<string>)
  {
    forall i, j :: 0 <= i < j < |r| ==> MessageRank(r[i]) < MessageRank(r[j])
  }

  /** At most one message per check. */
  lemma {:induction false} FailedMessagesLength(checks: seq<Check>, form: SignupForm)
    ensures |FailedMessages(checks, form)| <= |checks|
  {
    if checks != [] { FailedMessagesLength(checks[1..], form); }
  }

  /** Every reported message is the message of one of the checks run. */
  lemma {:induction false} FailedMessagesFrom(checks: seq<Check>, form: SignupForm)
    ensures forall m :: m in FailedMessages(checks, form) ==>
              exists k :: 0 <= k < |checks| && m == Message(checks[k])
  {
    if checks != [] {
      FailedMessagesFrom(checks[1..], form);
      forall m | m in FailedMessages(checks[1..], form)
        ensures exists k :: 0 <= k < |checks| && m == Message(checks[k])
      {
        var k :| 0 <= k < |checks[1..]| && m == Message(checks[1..][k]);
        assert checks[k + 1] == checks[1..][k];
      }
    }
  }

  /** Checks run in increasing rank report their messages in increasing rank. */
  lemma {:induction false} FailedMessagesRanked(checks: seq<Check>, form: SignupForm)
    requires forall i, j :: 0 <= i < j < |checks| ==> Rank(checks[i]) < Rank(checks[j])
    ensures InFixedOrder(FailedMessages(checks, form))
  {
    if checks != [] {
      var tail := checks[1..];
      var rest := FailedMessages(tail, form);
      FailedMessagesRanked(tail, form);
      FailedMessagesFrom(tail, form);
      if Fails(checks[0], form) {
        var r := [Message(checks[0])] + rest;
        assert r == FailedMessages(checks, form);
        forall i, j | 0 <= i < j < |r| ensures MessageRank(r[i]) < MessageRank(r[j]) {
          if i == 0 {
            assert r[0] == Message(checks[0]);
            assert r[j] == rest[j - 1] && rest[j - 1] in rest;
            var k :| 0 <= k < |tail| && rest[j - 1] == Message(tail[k]);
            assert tail[k] == checks[k + 1];
            MessageRankIsRank(checks[0]);
            MessageRankIsRank(tail[k]);
            assert Rank(checks[0]) < Rank(checks[k + 1]);
          } else {
            assert r[i] == rest[i - 1] && r[j] == rest[j - 1];
          }
        }
      } else {
        assert rest == FailedMessages(checks, form);
      }
    }
  }

  /** Each message is in the list exactly when its check rejects the form. */
  lemma MessageIffFails(form: SignupForm, c: Check)
    ensures Message(c) in Errors(form) <==> Fails(c, form)
  {
    FailedMessagesMembers(CHECK_ORDER, form, c);
  }

  /** The list holds only the four messages, each at most once, in the fixed order,
      so never more than four. */
  lemma ErrorsInFixedOrder(form: SignupForm)
    ensures forall m :: m in Errors(form) ==> MessageRank(m) < 4
    ensures InFixedOrder(Errors(form))
    ensures |Errors(form)| <= 4
  {
    var r := Errors(form);
    FailedMessagesRanked(CHECK_ORDER, form);
    FailedMessagesFrom(CHECK_ORDER, form);
    FailedMessagesLength(CHECK_ORDER, form);
  }

  /** Any absent or empty field yields the required-fields message. */
  lemma MissingFieldReported(form: SignupForm)
    requires !Given(form.name) || !Given(form.email) || !Given(form.password) || !Given(form.password2)
    ensures REQUIRED_MESSAGE in Errors(form) && Errors(form) != []
  {
    MessageIffFails(form, Required);
  }

  /** The email message appears exactly when a given email fails the shape test; an absent
      or empty email never yields it, and a given email without `@` always does. */
  lemma EmailMessageIffRejected(form: SignupForm)
    ensures EMAIL_MESSAGE in Errors(form) <==>
              Given(form.email) && !EmailSyntax.EmailPattern(form.email.value)
    ensures Given(form.email) && '@' !in form.email.value ==> EMAIL_MESSAGE in Errors(form)
  {
    MessageIffFails(form, ValidEmail);
    if Given(form.email) {
      EmailSyntax.RecogniserIsPattern(form.email.value);
    }
  }

  /** The mismatch message appears exactly when the two password fields differ. */
  lemma MatchMessageIffDiffer(form: SignupForm)
    ensures MATCH_MESSAGE in Errors(form) <==> form.password != form.password2
  {
    MessageIffFails(form, PasswordsMatch);
  }

  /** The length message appears exactly when a given password is shorter than six. */
  lemma LengthMessageIffShort(form: SignupForm)
    ensures LENGTH_MESSAGE in Errors(form) <==>
              Given(form.password) && Utf16Length(form.password.value) < MIN_PASSWORD_LENGTH
  {
    MessageIffFails(form, PasswordLength);
  }

  /** An accepted form has all four fields given, a well-shaped email and equal passwords
      of at least six units. */
  lemma AcceptedFormIsComplete(form: SignupForm)
    requires Errors(form) == []
    ensures Given(form.name) && Given(form.email) && Given(form.password) && Given(form.password2)
    ensures EmailSyntax.EmailPattern(form.email.value)
    ensures form.password == form.password2
    ensures Utf16Length(form.password.value) >= MIN_PASSWORD_LENGTH
  {
    MessageIffFails(form, Required);
    MessageIffFails(form, ValidEmail);
    MessageIffFails(form, PasswordsMatch);
    MessageIffFails(form, PasswordLength);
    EmailSyntax.RecogniserIsPattern(form.email.value);
  }
}
