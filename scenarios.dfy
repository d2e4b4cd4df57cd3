/** The validators on concrete and on families of inputs: the order of the
    name checks, the e-mail shapes accepted and refused, and the untrimmed
    event check. Concrete strings are passed as parameters fixed by a
    precondition. */
module Scenarios {
  import opened Text
  import opened Validators

  lemma EmptyNameIsRequired(value: string)
    requires value == "" || value == "   "
    ensures CheckName(value) == Fail(NameRequired)
  {
    SpaceIsWhitespace();
  }

  /** Checks run in order, so any single non-whitespace character, letter or
      not and padded or not, is reported as too short rather than as an
      invalid character. */
  lemma {:induction false} SingleCharacterIsTooShort(pre: string, c: char, post: string)
    requires AllWhitespace(pre) && AllWhitespace(post)
    requires !IsWhitespace(c) && c as int < 0x1_0000
    ensures CheckName(pre + [c] + post) == Fail(NameTooShort)
  {
    TrimPadded(pre, [c], post);
  }

  lemma ShortNameExamples(value: string)
    requires value == "A" || value == "1" || value == "  A  "
    ensures CheckName(value) == Fail(NameTooShort)
  {
    SpaceIsWhitespace();
    InRangesExists('A', WhitespaceRanges);
    InRangesExists('1', WhitespaceRanges);
    if value == "  A  " {
      assert value == "  " + ['A'] + "  ";
      SingleCharacterIsTooShort("  ", 'A', "  ");
    } else {
      assert value == [] + [value[0]] + [];
      SingleCharacterIsTooShort([], value[0], []);
    }
  }

  /** A lone character outside the Basic Multilingual Plane is two UTF-16
      code units long, so it passes the length check and is refused as an
      invalid character. */
  lemma {:induction false} AstralCharacterIsInvalid(c: char)
    requires c as int >= 0x1_0000
    ensures CheckName([c]) == Fail(NameInvalidChars)
  {
    InRangesExists(c, WhitespaceRanges);
    assert [c] == [] + [c] + [];
    TrimPadded([], [c], []);
  }

  lemma DigitInNameIsInvalid(value: string)
    requires value == "Jo3"
    ensures CheckName(value) == Fail(NameInvalidChars)
  {
    LetterIsNotWhitespace('J');
    InRangesExists('3', WhitespaceRanges);
    assert value == [] + value + [];
    TrimPadded([], value, []);
    assert value[2] == '3';
  }

  /** A first and a last name of letters, separated by one space and padded
      by spaces, is accepted: inner spaces are allowed, outer ones are
      trimmed. */
  lemma {:induction false} FullNamePasses(first: string, last: string)
    requires |first| > 0 && |last| > 0
    requires forall i :: 0 <= i < |first| ==> IsAsciiLetter(first[i])
    requires forall i :: 0 <= i < |last| ==> IsAsciiLetter(last[i])
    ensures CheckName(" " + first + " " + last + " ") == Pass
  {
    var pad, name := " ", first + " " + last;
    SpaceIsWhitespace();
    assert AllWhitespace(pad);
    LetterIsNotWhitespace(first[0]);
    LetterIsNotWhitespace(last[|last| - 1]);
    assert name[0] == first[0] && name[|name| - 1] == last[|last| - 1];
    assert " " + first + " " + last + " " == pad + name + pad;
    TrimPadded(pad, name, pad);
    forall i | 0 <= i < |name| ensures IsAsciiLetter(name[i]) || IsWhitespace(name[i]) {
      if i < |first| {
        assert name[i] == first[i];
      } else if i > |first| {
        assert name[i] == last[i - |first| - 1];
      }
    }
    NameCharsAreSingleUnits(name);
    assert MatchesNamePattern(name);
  }

  lemma EmptyEmailIsRequired(value: string)
    requires value == ""
    ensures CheckEmail(value) == Fail(EmailRequired)
  {
  }

  /** Without a '.' the address is refused. */
  lemma EmailWithoutDotIsInvalid(value: string)
    requires !AllWhitespace(value) && '.' !in Trim(value)
    ensures CheckEmail(value) == Fail(EmailInvalid)
  {
    CheckEmailSpec(value);
  }

  /** So `x@y`, as in "a@b", is refused for any two e-mail characters. */
  lemma AtWithoutDotExample(x: char, y: char)
    requires IsEmailChar(x) && IsEmailChar(y) && x != '.' && y != '.'
    ensures CheckEmail([x, '@', y]) == Fail(EmailInvalid)
  {
    var value := [x, '@', y];
    assert value == [] + value + [];
    TrimPadded([], value, []);
    EmailWithoutDotIsInvalid(value);
  }

  /** A value with two '@' after trimming is refused as invalid. */
  lemma DoubleAtIsInvalid(value: string)
    requires multiset(Trim(value))['@'] >= 2
    ensures CheckEmail(value) == Fail(EmailInvalid)
  {
    if CheckEmail(value) == Pass {
      AcceptedEmailHasOneAt(value);
    }
    assert Trim(value) != [];
  }

  /** The address "a@b.com" is accepted. */
  lemma ShortEmailPasses(value: string)
    requires value == "a@b.com"
    ensures CheckEmail(value) == Pass
  {
    var local, domain, tld := ['a'], ['b'], ['c', 'o', 'm'];
    LetterIsNotWhitespace('a');
    LetterIsNotWhitespace('b');
    LetterIsNotWhitespace('c');
    LetterIsNotWhitespace('o');
    LetterIsNotWhitespace('m');
    assert EmailPart(tld);
    assert [] + (local + "@" + domain + "." + tld) + [] == value;
    ThreePartEmailAccepted([], local, domain, tld, []);
  }

  /** The event value is not trimmed: a whitespace-only selection passes,
      where the same value is a missing name or e-mail. */
  lemma EventIsNotTrimmed(value: string)
    requires value != [] && AllWhitespace(value)
    ensures CheckEvent(value) == Pass
    ensures CheckName(value) == Fail(NameRequired)
    ensures CheckEmail(value) == Fail(EmailRequired)
  {
  }
}
