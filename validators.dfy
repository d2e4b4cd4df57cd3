/** The decision logic of the three field validators of the registration
    form (`validateName`, `validateEmail`, `validateEvent`): each maps the
    field's current value to a pass or to the first check that failed. */
module Validators {
  import opened Text

  /** The three tracked inputs of the form. */
  datatype Field = Name | Email | Event

  /** One `showError` call site per constructor: the check that failed. */
  datatype Failure =
    | NameRequired | NameTooShort | NameInvalidChars
    | EmailRequired | EmailInvalid
    | EventRequired

  datatype Outcome = Pass | Fail(failure: Failure)

  /** The field whose error slot a failure is reported in. */
  function FieldOf(e: Failure): (f: Field)
    ensures f == Name <==> e in {NameRequired, NameTooShort, NameInvalidChars}
    ensures f == Email <==> e in {EmailRequired, EmailInvalid}
  {
    match e
    case NameRequired | NameTooShort | NameInvalidChars => Name
    case EmailRequired | EmailInvalid => Email
    case EventRequired => Event
  }

  /** The fixed text written into the error slot for each failure. */
  function Message(e: Failure): (m: string)
    ensures m != []
  {
    match e
    case NameRequired => "Full name is required"
    case NameTooShort => "Name must be at least 2 characters long"
    case NameInvalidChars => "Name can only contain letters and spaces"
    case EmailRequired => "Email address is required"
    case EmailInvalid => "Please enter a valid email address"
    case EventRequired => "Please select an event"
  }

  /** Different failures show different texts, so the text in an error slot
      tells which check failed. */
  lemma MessageInjective(e1: Failure, e2: Failure)
    requires Message(e1) == Message(e2)
    ensures e1 == e2
  {
  }

  // ---------------------------------------------------------------------
  // Name

  /** The regular expression `^[a-zA-Z\s]+$`. */
  predicate MatchesNamePattern(s: string) {
    |s| > 0 && forall i :: 0 <= i < |s| ==> IsAsciiLetter(s[i]) || IsWhitespace(s[i])
  }

  /** Letters and whitespace lie in the Basic Multilingual Plane, so a string
      of them has as many UTF-16 code units as characters. */
  lemma {:induction false} NameCharsAreSingleUnits(s: string)
    requires forall i :: 0 <= i < |s| ==> IsAsciiLetter(s[i]) || IsWhitespace(s[i])
    ensures Utf16Length(s) == |s|
  {
    forall i | 0 <= i < |s| ensures s[i] as int < 0x1_0000 {
      if !IsAsciiLetter(s[i]) {
        WhitespaceIsSingleUnit(s[i], WhitespaceRanges);
      }
    }
  }

  lemma {:induction false} WhitespaceIsSingleUnit(c: char, rs: seq<(char, char)>)
    requires forall j :: 0 <= j < |rs| ==> rs[j].1 as int < 0x1_0000
    requires InRanges(c, rs)
    ensures c as int < 0x1_0000
  {
    if !(rs[0].0 <= c <= rs[0].1) {
      WhitespaceIsSingleUnit(c, rs[1..]);
    }
  }

  /** `validateName`: trim, then reject an empty value, then a value shorter
      than two UTF-16 code units, then one with a character outside letters
      and whitespace. */
  function CheckName(value: string): (r: Outcome)
    ensures r in {Pass, Fail(NameRequired), Fail(NameTooShort), Fail(NameInvalidChars)}
  {
    var name := Trim(value);
    if name == [] then Fail(NameRequired)
    else if Utf16Length(name) < 2 then Fail(NameTooShort)
    else if !MatchesNamePattern(name) then Fail(NameInvalidChars)
    else Pass
  }

  /** Each outcome of `CheckName` in terms of the raw input: required exactly
      when it is all whitespace; too short exactly when one character of the
      Basic Multilingual Plane remains after trimming; accepted exactly when
      at least two characters remain and all are letters or whitespace;
      refused for its characters otherwise. */
  lemma CheckNameSpec(value: string)
    ensures CheckName(value) == Fail(NameRequired) <==> AllWhitespace(value)
    ensures CheckName(value) == Fail(NameTooShort) <==>
      |Trim(value)| == 1 && Trim(value)[0] as int < 0x1_0000
    ensures CheckName(value) == Pass <==>
      && |Trim(value)| >= 2
      && forall i :: 0 <= i < |Trim(value)| ==>
           IsAsciiLetter(Trim(value)[i]) || IsWhitespace(Trim(value)[i])
    ensures CheckName(value) == Fail(NameInvalidChars) <==>
      && Utf16Length(Trim(value)) >= 2
      && exists i :: 0 <= i < |Trim(value)| &&
           !IsAsciiLetter(Trim(value)[i]) && !IsWhitespace(Trim(value)[i])
  {
    var name := Trim(value);
    if MatchesNamePattern(name) {
      NameCharsAreSingleUnits(name);
    }
  }

  // ---------------------------------------------------------------------
  // Email

  /** The regular-expression class `[^\s@]`. */
  predicate IsEmailChar(c: char) {
    !IsWhitespace(c) && c != '@'
  }

  /** The regular expression `[^\s@]+`, matched against the whole of `s`. */
  predicate EmailPart(s: string) {
    |s| > 0 && forall i :: 0 <= i < |s| ==> IsEmailChar(s[i])
  }

  /** What `^[^\s@]+@[^\s@]+\.[^\s@]+$` accepts: some choice of an '@' at
      `i` and a '.' at `k` splits `s` into three non-empty runs of
      characters that are neither whitespace nor '@'. */
  ghost predicate MatchesEmailPattern(s: string) {
    exists i, k ::
      && 0 < i && i + 1 < k && k + 1 < |s|
      && s[i] == '@' && s[k] == '.'
      && EmailPart(s[..i]) && EmailPart(s[i + 1..k]) && EmailPart(s[k + 1..])
  }

  /** Index of the first `c` in `s`, or `|s|` when there is none. */
  function IndexOf(s: string, c: char): (i: nat)
    ensures i <= |s|
    ensures i < |s| ==> s[i] == c
    ensures forall j :: 0 <= j < i ==> s[j] != c
  {
    if s == [] then 0
    else if s[0] == c then 0
    else 1 + IndexOf(s[1..], c)
  }

  /** A direct decision procedure for the e-mail shape: the local part runs
      up to the first '@', and everything after it is one run of e-mail
      characters with a '.' that is neither its first nor its last. */
  predicate EmailShape(s: string) {
    var at := IndexOf(s, '@');
    at < |s| && EmailPart(s[..at]) &&
    var domain := s[at + 1..];
    |domain| >= 3 && EmailPart(domain) && '.' in domain[1..|domain| - 1]
  }

  /** '.' is an ordinary e-mail character: it is neither '@' nor
      whitespace. */
  lemma DotIsEmailChar()
    ensures IsEmailChar('.')
  {
    InRangesExists('.', WhitespaceRanges);
  }

  lemma ShapeMatchesPattern(s: string)
    requires EmailShape(s)
    ensures MatchesEmailPattern(s)
  {
    var at := IndexOf(s, '@');
    var domain := s[at + 1..];
    var inner := domain[1..|domain| - 1];
    var m :| 0 <= m < |inner| && inner[m] == '.';
    var k := at + 2 + m;
    assert s[k] == '.';
    assert s[at + 1..k] == domain[..m + 1];
    assert s[k + 1..] == domain[m + 2..];
    assert EmailPart(s[at + 1..k]);
    assert EmailPart(s[k + 1..]);
  }

  lemma PatternHasShape(s: string, i: nat, k: nat)
    requires 0 < i && i + 1 < k && k + 1 < |s|
    requires s[i] == '@' && s[k] == '.'
    requires EmailPart(s[..i]) && EmailPart(s[i + 1..k]) && EmailPart(s[k + 1..])
    ensures EmailShape(s)
  {
    assert forall j :: 0 <= j < i ==> s[j] == s[..i][j];
    var at := IndexOf(s, '@');
    assert at == i;
    var domain := s[at + 1..];
    assert forall j :: 0 <= j < k - i - 1 ==> domain[j] == s[i + 1..k][j];
    assert forall j :: k - i <= j < |domain| ==> domain[j] == s[k + 1..][j - k + i];
    assert domain[k - i - 1] == s[k];
    DotIsEmailChar();
    assert EmailPart(domain);
    assert domain[1..|domain| - 1][k - i - 2] == '.';
  }

  /** The decision procedure accepts exactly what the regular expression
      matches. */
  lemma EmailShapeIsPattern(s: string)
    ensures EmailShape(s) <==> MatchesEmailPattern(s)
  {
    if EmailShape(s) {
      ShapeMatchesPattern(s);
    }
    if MatchesEmailPattern(s) {
      var i, k :|
        && 0 < i && i + 1 < k && k + 1 < |s|
        && s[i] == '@' && s[k] == '.'
        && EmailPart(s[..i]) && EmailPart(s[i + 1..k]) && EmailPart(s[k + 1..]);
      PatternHasShape(s, i, k);
    }
  }

  /** `validateEmail`: trim, then reject an empty value, then a value the
      e-mail regular expression does not match. */
  function CheckEmail(value: string): (r: Outcome)
    ensures r in {Pass, Fail(EmailRequired), Fail(EmailInvalid)}
  {
    var email := Trim(value);
    if email == [] then Fail(EmailRequired)
    else if !EmailShape(email) then Fail(EmailInvalid)
    else Pass
  }

  /** Each outcome of `CheckEmail` in terms of the raw input: required exactly
      when it is all whitespace; accepted exactly when the trimmed value
      matches the e-mail regular expression; invalid otherwise. */
  lemma CheckEmailSpec(value: string)
    ensures CheckEmail(value) == Fail(EmailRequired) <==> AllWhitespace(value)
    ensures CheckEmail(value) == Pass <==> MatchesEmailPattern(Trim(value))
    ensures CheckEmail(value) == Fail(EmailInvalid) <==>
      !AllWhitespace(value) && !MatchesEmailPattern(Trim(value))
  {
    EmailShapeIsPattern(Trim(value));
  }

  /** Every address built from three runs of e-mail characters, as
      `local@domain.tld`, is accepted, whatever whitespace pads it. */
  lemma {:induction false} ThreePartEmailAccepted(pad1: string, local: string, domain: string, tld: string, pad2: string)
    requires AllWhitespace(pad1) && AllWhitespace(pad2)
    requires EmailPart(local) && EmailPart(domain) && EmailPart(tld)
    ensures CheckEmail(pad1 + (local + "@" + domain + "." + tld) + pad2) == Pass
  {
    var s := local + "@" + domain + "." + tld;
    var i, k := |local|, |local| + 1 + |domain|;
    assert s[..i] == local;
    assert s[i + 1..k] == domain;
    assert s[k + 1..] == tld;
    PatternHasShape(s, i, k);
    assert s[0] == local[0] && s[|s| - 1] == tld[|tld| - 1];
    TrimPadded(pad1, s, pad2);
  }

  /** An accepted address holds exactly one '@': none of the three runs the
      pattern allows may contain one. */
  lemma AcceptedEmailHasOneAt(value: string)
    requires CheckEmail(value) == Pass
    ensures multiset(Trim(value))['@'] == 1
  {
    var s := Trim(value);
    var at := IndexOf(s, '@');
    var local, domain := s[..at], s[at + 1..];
    assert s == local + ['@'] + domain;
    assert '@' !in local;
    assert '@' !in domain;
    assert multiset(s) == multiset(local) + multiset{'@'} + multiset(domain);
  }

  // ---------------------------------------------------------------------
  // Event

  /** `validateEvent`: the raw selected value, not trimmed, must be
      non-empty. */
  function CheckEvent(value: string): (r: Outcome)
    ensures r in {Pass, Fail(EventRequired)}
    ensures r == Pass <==> |value| > 0
  {
    if value == [] then Fail(EventRequired) else Pass
  }

  // ---------------------------------------------------------------------
  // All three

  /** The validator for field `f`; a failure it reports belongs to `f`. */
  function Check(f: Field, value: string): (r: Outcome)
    ensures r.Fail? ==> FieldOf(r.failure) == f
  {
    match f
    case Name => CheckName(value)
    case Email => CheckEmail(value)
    case Event => CheckEvent(value)
  }
}
