/** The registration screen's `handleRegister`: a fixed chain of checks on the form,
    of which only the first failure is reported, and the request body sent when all
    of them pass. */
module AccountCreation {
  import opened Wrappers
  import opened Text
  import Json

  /** The form's state when the register button is pressed. */
  datatype Form = Form(username: string, email: string, password: string, confirmPassword: string,
                       name: string, gender: string, interests: string, personality: string,
                       why: string)

  /** The alerts of the check chain, in the order the checks run. */
  datatype RegistrationError =
    | EmptyUsername | InvalidEmail | EmptyPassword | PasswordMismatch | EmptyName | NoGender

  /** What pressing the button leads to: an alert and no request, or a POST of the
      payload to the register endpoint. */
  datatype Submission = Alert(error: RegistrationError) | Post(payload: Json.Object)

  /** A character of `[^\s@]`. */
  predicate Plain(c: char) {
    !IsSpace(c) && c != '@'
  }

  /** The language of `^[^\s@]+@[^\s@]+\.[^\s@]+$`: a non-empty local part, `@`, a
      non-empty text, `.`, a non-empty text, and neither white space nor a second `@`
      anywhere. */
  ghost predicate EmailPattern(s: string) {
    exists at, dot ::
      && 0 < at && at + 1 < dot < |s| - 1 && s[at] == '@' && s[dot] == '.'
      && (forall i :: 0 <= i < |s| && i != at ==> Plain(s[i]))
  }

  /** The index of the first occurrence of `c` in `s`. */
  function IndexOf(s: string, c: char): (r: Option<nat>)
    ensures r.Some? ==> r.value < |s| && s[r.value] == c && c !in s[..r.value]
    ensures r.None? ==> c !in s
  {
    if s == [] then None
    else if s[0] == c then Some(0)
    else
      match IndexOf(s[1..], c)
      case None => None
      case Some(i) =>
        assert s[..i + 1] == [s[0]] + s[1..][..i];
        Some(i + 1)
  }

  /** The email test, written as scans: no white space, a first `@` with text before
      it and no other `@` after it, and a `.` strictly inside the text after it. */
  predicate ValidEmail(s: string) {
    && (forall i | 0 <= i < |s| :: !IsSpace(s[i]))
    && match IndexOf(s, '@')
       case None => false
       case Some(at) =>
         var domain := s[at + 1..];
         && 0 < at && '@' !in domain && |domain| >= 3
         && '.' in domain[1..|domain| - 1]
  }

  /** An email the scan accepts matches the pattern. */
  lemma ScanMatchesPattern(s: string)
    requires ValidEmail(s)
    ensures EmailPattern(s)
  {
    var at := IndexOf(s, '@').value;
    var domain := s[at + 1..];
    var inner := domain[1..|domain| - 1];
    var k :| 0 <= k < |inner| && inner[k] == '.';
    var dot := at + 2 + k;
    assert s[dot] == '.';
    forall i | 0 <= i < |s| && i != at ensures Plain(s[i]) {
      if i < at {
        assert s[..at][i] == s[i];
      } else {
        assert domain[i - at - 1] == s[i];
      }
    }
  }

  /** An email matching the pattern is accepted by the scan. */
  lemma PatternPassesScan(s: string)
    requires EmailPattern(s)
    ensures ValidEmail(s)
  {
    var at, dot :| && 0 < at && at + 1 < dot < |s| - 1 && s[at] == '@' && s[dot] == '.'
                   && (forall i :: 0 <= i < |s| && i != at ==> Plain(s[i]));
    var found := IndexOf(s, '@');
    assert found.Some? by {
      assert s[at] in s;
    }
    assert found.value == at by {
      assert !Plain(s[found.value]);
    }
    var domain := s[at + 1..];
    assert '@' !in domain by {
      forall j | 0 <= j < |domain| ensures domain[j] != '@' {
        assert domain[j] == s[at + 1 + j];
      }
    }
    assert domain[1..|domain| - 1][dot - at - 2] == '.';
  }

  /** The scan accepts exactly the strings of the email pattern. */
  lemma ValidEmailIffPattern(s: string)
    ensures ValidEmail(s) <==> EmailPattern(s)
  {
    if ValidEmail(s) {
      ScanMatchesPattern(s);
    }
    if EmailPattern(s) {
      PatternPassesScan(s);
    }
  }

  /** Whether the check that raises `e` fails on the form. */
  ghost predicate Fails(f: Form, e: RegistrationError) {
    match e
    case EmptyUsername => f.username == ""
    case InvalidEmail => !EmailPattern(f.email)
    case EmptyPassword => Trim(f.password) == ""
    case PasswordMismatch => f.password != f.confirmPassword
    case EmptyName => Trim(f.name) == ""
    case NoGender => Trim(f.gender) == ""
  }

  /** The position of a check in the chain. */
  function Rank(e: RegistrationError): nat {
    match e
    case EmptyUsername => 0
    case InvalidEmail => 1
    case EmptyPassword => 2
    case PasswordMismatch => 3
    case EmptyName => 4
    case NoGender => 5
  }

  /** The request body: the nine fields the register endpoint reads, each as typed
      (only the checks trim), with the date of birth as formatted by the caller; the
      confirmation is never sent. */
  function Payload(f: Form, dateOfBirth: string): (p: Json.Object)
    ensures p.Keys == {"username", "email", "password", "name", "dateOfBirth_str", "gender",
                       "interests", "personality", "why"}
    ensures "confirmPassword" !in p
    ensures p["username"] == Json.Str(f.username) && p["password"] == Json.Str(f.password)
  {
    map["username" := Json.Str(f.username),
        "email" := Json.Str(f.email),
        "password" := Json.Str(f.password),
        "name" := Json.Str(f.name),
        "dateOfBirth_str" := Json.Str(dateOfBirth),
        "gender" := Json.Str(f.gender),
        "interests" := Json.Str(f.interests),
        "personality" := Json.Str(f.personality),
        "why" := Json.Str(f.why)]
  }

  /** `handleRegister`: the checks in order, the first failure ends in its alert;
      otherwise the payload is posted. */
  function HandleRegister(f: Form, dateOfBirth: string): (r: Submission)
    ensures r.Alert? ==> Fails(f, r.error)
    ensures r.Post? ==> r.payload == Payload(f, dateOfBirth)
  {
    ValidEmailIffPattern(f.email);
    if f.username == "" then Alert(EmptyUsername)
    else if !ValidEmail(f.email) then Alert(InvalidEmail)
    else if Trim(f.password) == "" then Alert(EmptyPassword)
    else if f.password != f.confirmPassword then Alert(PasswordMismatch)
    else if Trim(f.name) == "" then Alert(EmptyName)
    else if Trim(f.gender) == "" then Alert(NoGender)
    else Post(Payload(f, dateOfBirth))
  }

  /** An alert is raised exactly when some check fails, and it is the earliest failing
      check; without an alert the request carries the form's payload. */
  lemma FirstFailureReported(f: Form, dateOfBirth: string)
    ensures var r := HandleRegister(f, dateOfBirth);
      && (r.Alert? <==> exists e :: Fails(f, e))
      && (r.Alert? ==> Fails(f, r.error) && forall e :: Fails(f, e) ==> Rank(r.error) <= Rank(e))
      && (r.Post? ==> r.payload == Payload(f, dateOfBirth))
  {
    ValidEmailIffPattern(f.email);
    var r := HandleRegister(f, dateOfBirth);
    if r.Alert? {
      assert Fails(f, r.error);
      forall e | Fails(f, e) ensures Rank(r.error) <= Rank(e) {
        if Rank(e) < Rank(r.error) {
          match e
          case EmptyUsername =>
          case InvalidEmail =>
          case EmptyPassword =>
          case PasswordMismatch =>
          case EmptyName =>
          case NoGender =>
        }
      }
    } else {
      forall e ensures !Fails(f, e) {
        match e
        case EmptyUsername =>
        case InvalidEmail =>
        case EmptyPassword =>
        case PasswordMismatch =>
        case EmptyName =>
        case NoGender =>
      }
    }
  }

  /** The trimmed checks fail exactly on fields made only of white space; the username
      is not trimmed, so one made of spaces passes its check. */
  lemma BlankFieldsRejected(f: Form)
    ensures Fails(f, EmptyPassword) <==> Blank(f.password)
    ensures Fails(f, EmptyName) <==> Blank(f.name)
    ensures Fails(f, NoGender) <==> Blank(f.gender)
    ensures Fails(f, EmptyUsername) <==> f.username == []
  {
    TrimEmptyIffBlank(f.password);
    TrimEmptyIffBlank(f.name);
    TrimEmptyIffBlank(f.gender);
  }
}
