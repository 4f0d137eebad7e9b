/** The sign-up form: the e-mail pattern, the password-strength rule, and the
    submit handler whose checks run in a fixed order and stop at the first
    that fails. */
module Signup {
  import opened Wrappers
  import opened Text

  /** A character `[^\s@]` accepts. */
  predicate Plain(c: char) {
    c != '@' && !IsSpace(c)
  }

  /** A run `[^\s@]+` accepts: non-empty, no white space, no '@'. */
  predicate PlainRun(t: string) {
    |t| > 0 && forall k :: 0 <= k < |t| ==> Plain(t[k])
  }

  /** The pattern `/^[^\s@]+@[^\s@]+\.[^\s@]+$/`: the whole text splits into
      three plain runs joined by '@' and then by '.'. */
  ghost predicate MatchesEmailPattern(s: string) {
    exists a: string, b: string, c: string ::
      s == a + ['@'] + b + ['.'] + c && PlainRun(a) && PlainRun(b) && PlainRun(c)
  }

  /** Where the first '@' of `s` stands, `|s|` when there is none. */
  function AtIndex(s: string): (i: nat)
    ensures i <= |s| && (i < |s| ==> s[i] == '@') && '@' !in s[..i]
  {
    if s == [] then 0
    else if s[0] == '@' then 0
    else
      var i := 1 + AtIndex(s[1..]);
      assert s[..i] == [s[0]] + s[1..][..i - 1];
      i
  }

  /** A '.' with text on both of its sides. */
  predicate HasInnerDot(t: string) {
    |t| >= 3 && '.' in t[1..|t| - 1]
  }

  /** `isEmailValid(val)`: no white space, an '@' with text before it and no
      other '@' after it, and after it a '.' that has text on both of its
      sides. */
  predicate IsEmailValid(s: string) {
    var i := AtIndex(s);
    NoSpace(s) && 0 < i < |s| && '@' !in s[i + 1..] && HasInnerDot(s[i + 1..])
  }

  /** A valid address splits into the pattern's three runs at its '@' and
      at a '.' after it. */
  lemma ValidSplits(s: string)
    requires IsEmailValid(s)
    ensures MatchesEmailPattern(s)
  {
    var i := AtIndex(s);
    var t := s[i + 1..];
    var k :| 0 <= k < |t[1..|t| - 1]| && t[1..|t| - 1][k] == '.';
    var j := i + 2 + k;
    assert s[j] == '.';
    var a, b, c := s[..i], s[i + 1..j], s[j + 1..];
    assert s == a + ['@'] + b + ['.'] + c;
    assert PlainRun(a) by {
      forall q | 0 <= q < |a| ensures Plain(a[q]) { assert a[q] == s[q]; }
    }
    assert PlainRun(b) by {
      forall q | 0 <= q < |b| ensures Plain(b[q]) { assert b[q] == s[i + 1 + q] == t[q]; }
    }
    assert PlainRun(c) by {
      forall q | 0 <= q < |c| ensures Plain(c[q]) { assert c[q] == s[j + 1 + q] == t[j - i + q]; }
    }
  }

  /** Three runs joined by '@' and '.' pass the validator. */
  lemma JoinedValid(a: string, b: string, c: string)
    requires PlainRun(a) && PlainRun(b) && PlainRun(c)
    ensures IsEmailValid(a + ['@'] + b + ['.'] + c)
  {
    var s := a + ['@'] + b + ['.'] + c;
    var t := b + ['.'] + c;
    assert s == a + (['@'] + t);
    AtAfterPlain(a, t);
    assert s[|a| + 1..] == t;
    JoinedPlain(b, ['.'], c);
    assert t[1..|t| - 1][|b| - 1] == '.';
    JoinedPlain(a, ['@'] + b, ['.'] + c);
  }

  /** Joining texts whose characters are neither white space nor '@' outside
      of `mid` keeps them so, and `mid` adds only its own characters. */
  lemma JoinedPlain(x: string, mid: string, y: string)
    requires PlainRun(x) && PlainRun(y) && NoSpace(mid)
    ensures NoSpace(x + mid + y)
    ensures '@' !in mid ==> '@' !in x + mid + y
  {
    var s := x + mid + y;
    forall q | 0 <= q < |s| ensures !IsSpace(s[q]) && ('@' !in mid ==> s[q] != '@') {
      if q < |x| { assert s[q] == x[q]; }
      else if q < |x| + |mid| { assert s[q] == mid[q - |x|]; }
      else { assert s[q] == y[q - |x| - |mid|]; }
    }
  }

  /** Text without '@' in front of an '@' puts the first '@' right after it. */
  lemma {:induction false} AtAfterPlain(a: string, t: string)
    requires forall q :: 0 <= q < |a| ==> a[q] != '@'
    ensures AtIndex(a + (['@'] + t)) == |a|
    decreases |a|
  {
    if a != [] {
      AtAfterPlain(a[1..], t);
      assert (a + (['@'] + t))[1..] == a[1..] + (['@'] + t);
    }
  }

  /** The validator accepts exactly the texts the pattern matches. */
  lemma EmailValidIffPattern(s: string)
    ensures IsEmailValid(s) <==> MatchesEmailPattern(s)
  {
    if IsEmailValid(s) {
      ValidSplits(s);
    }
    if MatchesEmailPattern(s) {
      var a: string, b: string, c: string :|
        s == a + ['@'] + b + ['.'] + c && PlainRun(a) && PlainRun(b) && PlainRun(c);
      JoinedValid(a, b, c);
    }
  }

  /** An address that passes has no white space, so trimming leaves it as is. */
  lemma ValidEmailUntrimmed(s: string)
    requires IsEmailValid(s)
    ensures Trim(s) == s
  {
    TrimNoSpace(s);
  }

  predicate IsAsciiLetter(c: char) {
    'A' <= c <= 'Z' || 'a' <= c <= 'z'
  }

  /** `/[A-Za-z]/.test(s)`, scanning from the front. */
  predicate HasLetter(s: string) {
    s != [] && (IsAsciiLetter(s[0]) || HasLetter(s[1..]))
  }

  /** `/\d/.test(s)`: `\d` is the ASCII digits only. */
  predicate HasDigit(s: string) {
    s != [] && (IsDigit(s[0]) || HasDigit(s[1..]))
  }

  /** The scan finds a letter exactly when the text holds one. */
  lemma {:induction false} HasLetterSpec(s: string)
    ensures HasLetter(s) <==> exists k :: 0 <= k < |s| && IsAsciiLetter(s[k])
    decreases |s|
  {
    if s != [] {
      HasLetterSpec(s[1..]);
      assert forall k :: 1 <= k < |s| ==> s[k] == s[1..][k - 1];
    }
  }

  /** The scan finds a digit exactly when the text holds one. */
  lemma {:induction false} HasDigitSpec(s: string)
    ensures HasDigit(s) <==> exists k :: 0 <= k < |s| && IsDigit(s[k])
    decreases |s|
  {
    if s != [] {
      HasDigitSpec(s[1..]);
      assert forall k :: 1 <= k < |s| ==> s[k] == s[1..][k - 1];
    }
  }

  /** What `passwordStrength` reports. */
  datatype Strength = Strength(longEnough: bool, hasLetter: bool, hasDigit: bool, ok: bool)

  /** `passwordStrength(val)`. */
  function PasswordStrength(p: string): Strength {
    var longEnough := Utf16Length(p) >= 8;
    var hasLetter := HasLetter(p);
    var hasDigit := HasDigit(p);
    Strength(longEnough, hasLetter, hasDigit, longEnough && hasLetter && hasDigit)
  }

  /** A password is strong exactly when it has at least eight UTF-16 code
      units, an ASCII letter and a digit among them. */
  lemma PasswordStrengthSpec(p: string)
    ensures PasswordStrength(p).longEnough <==> Utf16Length(p) >= 8
    ensures PasswordStrength(p).ok <==>
      && Utf16Length(p) >= 8
      && (exists k :: 0 <= k < |p| && IsAsciiLetter(p[k]))
      && (exists k :: 0 <= k < |p| && IsDigit(p[k]))
  {
    HasLetterSpec(p);
    HasDigitSpec(p);
  }

  /** Eight characters with neither a letter nor a digit are not strong. */
  lemma SymbolsOnlyWeak(p: string)
    requires p == "########"
    ensures !PasswordStrength(p).ok && PasswordStrength(p).longEnough
  {
    HasLetterSpec(p);
  }

  /** The checks of `handleSubmit`, each with the message it shows. */
  datatype Check = NameMissing | EmailInvalid | PasswordWeak | PasswordsDiffer | TermsNotAccepted {
    function Message(): string {
      match this
      case NameMissing => "Please enter your name"
      case EmailInvalid => "Please enter a valid email"
      case PasswordWeak => "Password must be at least 8 chars, include letters and numbers"
      case PasswordsDiffer => "Passwords do not match"
      case TermsNotAccepted => "Please accept the terms"
    }
  }

  const SignupFailed := "Signup failed"

  /** The checks of `handleSubmit` in their order: the first that fails,
      None when all pass. */
  function FirstFailure(name: string, email: string, password: string, confirm: string, accepted: bool): Option<Check> {
    if Trim(name) == [] then Some(NameMissing)
    else if !IsEmailValid(email) then Some(EmailInvalid)
    else if !PasswordStrength(password).ok then Some(PasswordWeak)
    else if password != confirm then Some(PasswordsDiffer)
    else if !accepted then Some(TermsNotAccepted)
    else None
  }

  /** Each message is reported exactly when its check fails and every
      earlier check passes, and all pass only when every condition holds. */
  lemma FirstFailureSpec(name: string, email: string, password: string, confirm: string, accepted: bool)
    ensures var f := FirstFailure(name, email, password, confirm, accepted);
      && (f == Some(NameMissing) <==> AllSpace(name))
      && (f == Some(EmailInvalid) <==> !AllSpace(name) && !MatchesEmailPattern(email))
      && (f == Some(PasswordWeak) <==> !AllSpace(name) && MatchesEmailPattern(email) && !PasswordStrength(password).ok)
      && (f == Some(PasswordsDiffer) <==> !AllSpace(name) && MatchesEmailPattern(email) && PasswordStrength(password).ok && password != confirm)
      && (f == Some(TermsNotAccepted) <==> !AllSpace(name) && MatchesEmailPattern(email) && PasswordStrength(password).ok && password == confirm && !accepted)
      && (f == None <==> !AllSpace(name) && MatchesEmailPattern(email) && PasswordStrength(password).ok && password == confirm && accepted)
  {
    TrimEmptyIff(name);
    EmailValidIffPattern(email);
  }

  /** The guards of `handleSubmit`, each returning its message as soon as
      its check fails. */
  method Validate(name: string, email: string, password: string, confirm: string, accepted: bool) returns (failure: Option<Check>)
    ensures failure == FirstFailure(name, email, password, confirm, accepted)
  {
    if Trim(name) == [] {
      return Some(NameMissing);
    }
    if !IsEmailValid(email) {
      return Some(EmailInvalid);
    }
    var strength := PasswordStrength(password);
    if !strength.ok {
      return Some(PasswordWeak);
    }
    if password != confirm {
      return Some(PasswordsDiffer);
    }
    if !accepted {
      return Some(TermsNotAccepted);
    }
    return None;
  }

  /** What `signup` is called with. */
  datatype SignupRequest = SignupRequest(name: string, email: string, password: string)

  /** The form's state. */
  class SignupForm {
    var name: string
    var email: string
    var password: string
    var confirm: string
    var accepted: bool
    var error: string
    var loading: bool

    /** The empty form. */
    constructor()
      ensures name == "" && email == "" && password == "" && confirm == ""
      ensures !accepted && error == "" && !loading
    {
      name, email, password, confirm := "", "", "", "";
      accepted, error, loading := false, "", false;
    }

    /** The inputs' `onChange` handlers and the terms checkbox. */
    method SetFields(name': string, email': string, password': string, confirm': string, accepted': bool)
      modifies this
      ensures name == name' && email == email' && password == password' && confirm == confirm'
      ensures accepted == accepted' && error == old(error) && loading == old(loading)
    {
      name, email, password, confirm, accepted := name', email', password', confirm', accepted';
    }

    /** `handleSubmit`: clears the error, then either shows the first failed
      check's message or starts loading and asks for `signup` with the
      trimmed name and e-mail and the password as typed. */
    method HandleSubmit() returns (request: Option<SignupRequest>)
      modifies this
      ensures request.None? <==> FirstFailure(name, email, password, confirm, accepted).Some?
      ensures request.None? ==> error == FirstFailure(name, email, password, confirm, accepted).value.Message() && loading == old(loading)
      ensures request.Some? ==> request.value == SignupRequest(Trim(name), Trim(email), password) && error == "" && loading
      ensures name == old(name) && email == old(email) && password == old(password)
      ensures confirm == old(confirm) && accepted == old(accepted)
    {
      var failure := Validate(name, email, password, confirm, accepted);
      error := "";
      if failure.Some? {
        error := failure.value.Message();
        return None;
      }
      loading := true;
      request := Some(SignupRequest(Trim(name), Trim(email), password));
    }

    /** The end of the `signup` call: a failure's message (or "Signup
      failed" when it has none) becomes the error; loading stops either way. */
    method SignupSettled(failure: Option<string>)
      modifies this
      ensures failure.Some? && failure.value != "" ==> error == failure.value
      ensures failure.Some? && failure.value == "" ==> error == SignupFailed
      ensures failure.None? ==> error == old(error)
      ensures !loading
      ensures name == old(name) && email == old(email) && password == old(password)
      ensures confirm == old(confirm) && accepted == old(accepted)
    {
      if failure.Some? {
        error := if failure.value != "" then failure.value else SignupFailed;
      }
      loading := false;
    }
  }

  /** A request goes out only when every check passes; it carries a
      non-empty name that trimming no further changes, the e-mail exactly as
      typed, and the password exactly as typed, which is strong and confirmed. */
  lemma RequestOnlyWhenValid(name: string, email: string, password: string, confirm: string, accepted: bool)
    requires FirstFailure(name, email, password, confirm, accepted).None?
    ensures Trim(name) != [] && Trim(Trim(name)) == Trim(name)
    ensures Trim(email) == email
    ensures PasswordStrength(password).ok && password == confirm && accepted
  {
    PassedChecks(name, email, password, confirm, accepted);
    TrimIdempotent(name);
    ValidEmailUntrimmed(email);
  }

  lemma PassedChecks(name: string, email: string, password: string, confirm: string, accepted: bool)
    requires FirstFailure(name, email, password, confirm, accepted).None?
    ensures Trim(name) != [] && IsEmailValid(email)
    ensures PasswordStrength(password).ok && password == confirm && accepted
  {}

  /** A name of only white space never gets past the first check. */
  lemma BlankNameRejected(name: string, email: string, password: string, confirm: string, accepted: bool)
    requires AllSpace(name)
    ensures FirstFailure(name, email, password, confirm, accepted) == Some(NameMissing)
  {
    TrimEmptyIff(name);
  }
}
