/**
 * The contact-form field validator run on blur: a required check, then an
 * e-mail format check, then a phone format check, each on the trimmed value.
 * The two regular expressions of the validator are written as hand-made
 * character-class predicates; each also has a reference predicate that reads
 * the regular expression literally, and a lemma proves the two agree.
 */
module Validation {
  import opened Text

  const RequiredMessage := "This field is required"
  const EmailMessage := "Please enter a valid email address"
  const PhoneMessage := "Please enter a valid phone number"

  /** Outcome of validating one field: pass, or fail with the message to display. */
  datatype Verdict = Pass | Fail(message: string)

  // ---------------------------------------------------------------------------
  // E-mail: /^[^\s@]+@[^\s@]+\.[^\s@]+$/

  /** The class `[^\s@]`. */
  predicate EmailChar(c: char) {
    !IsWhitespace(c) && c != '@'
  }

  predicate AllEmailChars(s: string) {
    forall i :: 0 <= i < |s| ==> EmailChar(s[i])
  }

  /**
   * The e-mail regular expression read literally: three non-empty runs of
   * `[^\s@]`, the first two separated by `@`, the last two by `.`.
   */
  ghost predicate EmailShape(s: string) {
    exists a, d :: 0 < a && a + 1 < d && d + 1 < |s| && s[a] == '@' && s[d] == '.' &&
      AllEmailChars(s[..a]) && AllEmailChars(s[a + 1..d]) && AllEmailChars(s[d + 1..])
  }

  /** Number of occurrences of `c` in `s`. */
  function Count(s: string, c: char): nat {
    if s == [] then 0 else (if s[0] == c then 1 else 0) + Count(s[1..], c)
  }

  /** Index of the first occurrence of `c` in `s`, or `|s|` when there is none. */
  function IndexOf(s: string, c: char): (k: nat)
    ensures k <= |s|
    ensures k < |s| ==> s[k] == c
    ensures forall j :: 0 <= j < k ==> s[j] != c
  {
    if s == [] then 0 else if s[0] == c then 0 else 1 + IndexOf(s[1..], c)
  }

  /** The domain part holds a `.` with at least one character on each side. */
  predicate HasInnerDot(domain: string) {
    |domain| >= 3 && '.' in domain[1..|domain| - 1]
  }

  /** A `.` at an inner position of the domain is an inner dot. */
  lemma InnerDotAt(domain: string, k: nat)
    requires 1 <= k < |domain| - 1 && domain[k] == '.'
    ensures HasInnerDot(domain)
  {
    assert domain[1..|domain| - 1][k - 1] == '.';
  }

  /**
   * The e-mail rule as stated in words: no whitespace, exactly one `@`, a
   * non-empty local part before it, and a domain after it with an inner dot.
   */
  predicate IsValidEmail(s: string) {
    NoWhitespace(s) && Count(s, '@') == 1 &&
    var a := IndexOf(s, '@');
    0 < a < |s| && HasInnerDot(s[a + 1..])
  }

  lemma {:induction false} CountZero(s: string, c: char)
    ensures Count(s, c) == 0 <==> forall j :: 0 <= j < |s| ==> s[j] != c
  {
    if s != [] {
      CountZero(s[1..], c);
      assert forall j :: 1 <= j < |s| ==> s[j] == s[1..][j - 1];
    }
  }

  /** A character that occurs once, at `a`, occurs nowhere else. */
  lemma {:induction false} CountOne(s: string, c: char, a: nat)
    requires a < |s| && s[a] == c
    ensures Count(s, c) == 1 <==> forall j :: 0 <= j < |s| && j != a ==> s[j] != c
  {
    if a == 0 {
      CountZero(s[1..], c);
      assert forall j :: 1 <= j < |s| ==> s[j] == s[1..][j - 1];
    } else {
      CountOne(s[1..], c, a - 1);
      CountZero(s[1..], c);
      assert forall j :: 1 <= j < |s| ==> s[j] == s[1..][j - 1];
    }
  }

  /** Every string the stated e-mail rule accepts matches the regular expression. */
  lemma EmailRuleSound(s: string)
    requires IsValidEmail(s)
    ensures EmailShape(s)
  {
    var a := IndexOf(s, '@');
    CountOne(s, '@', a);
    var dom := s[a + 1..];
    var k :| 0 <= k < |dom[1..|dom| - 1]| && dom[1..|dom| - 1][k] == '.';
    var d := a + 2 + k;
    assert s[d] == '.';
    assert AllEmailChars(s[..a]);
    assert AllEmailChars(s[a + 1..d]);
    assert AllEmailChars(s[d + 1..]);
  }

  /** Every string the regular expression matches is accepted by the stated e-mail rule. */
  lemma EmailRuleComplete(s: string, a: nat, d: nat)
    requires 0 < a && a + 1 < d && d + 1 < |s| && s[a] == '@' && s[d] == '.'
    requires AllEmailChars(s[..a]) && AllEmailChars(s[a + 1..d]) && AllEmailChars(s[d + 1..])
    ensures IsValidEmail(s)
  {
    forall j | 0 <= j < |s| && j != a ensures EmailChar(s[j]) {
      if j < a {
        assert s[j] == s[..a][j];
      } else if j < d {
        assert s[j] == s[a + 1..d][j - a - 1];
      } else if j > d {
        assert s[j] == s[d + 1..][j - d - 1];
      }
    }
    CountOne(s, '@', a);
    assert IndexOf(s, '@') == a;
    InnerDotAt(s[a + 1..], d - a - 1);
  }

  /** The stated e-mail rule accepts exactly what the regular expression matches. */
  lemma EmailRuleMatchesRegex(s: string)
    ensures IsValidEmail(s) <==> EmailShape(s)
  {
    if IsValidEmail(s) {
      EmailRuleSound(s);
    }
    if EmailShape(s) {
      var a, d :| 0 < a && a + 1 < d && d + 1 < |s| && s[a] == '@' && s[d] == '.' &&
        AllEmailChars(s[..a]) && AllEmailChars(s[a + 1..d]) && AllEmailChars(s[d + 1..]);
      EmailRuleComplete(s, a, d);
    }
  }

  // ---------------------------------------------------------------------------
  // Phone: /^[\+]?[0-9\s\-\(\)]{10,}$/

  /** The class `[0-9\s\-\(\)]`. */
  predicate PhoneChar(c: char) {
    ('0' <= c <= '9') || IsWhitespace(c) || c == '-' || c == '(' || c == ')'
  }

  predicate AllPhoneChars(s: string) {
    forall i :: 0 <= i < |s| ==> PhoneChar(s[i])
  }

  /** The phone regular expression read literally: an optional `+`, then ten or more class characters. */
  ghost predicate PhoneShape(s: string) {
    exists p :: 0 <= p <= 1 && p <= |s| && (p == 1 ==> s[0] == '+') &&
      |s| - p >= 10 && AllPhoneChars(s[p..])
  }

  /** The phone rule: a single optional leading `+`, then at least ten phone characters. */
  predicate IsValidPhone(s: string) {
    var body := if s != [] && s[0] == '+' then s[1..] else s;
    |body| >= 10 && AllPhoneChars(body)
  }

  /** The stated phone rule accepts exactly what the regular expression matches. */
  lemma PhoneRuleMatchesRegex(s: string)
    ensures IsValidPhone(s) <==> PhoneShape(s)
  {
    var p := if s != [] && s[0] == '+' then 1 else 0;
    if PhoneShape(s) {
      var q :| 0 <= q <= 1 && q <= |s| && (q == 1 ==> s[0] == '+') &&
        |s| - q >= 10 && AllPhoneChars(s[q..]);
      assert q == p;
    }
    if IsValidPhone(s) {
      assert p <= 1 && (p == 1 ==> s[0] == '+') && |s| - p >= 10 && AllPhoneChars(s[p..]);
    }
  }

  // ---------------------------------------------------------------------------
  // The validator

  /**
   * `validateField` on a field with the given `required` flag, `type`
   * attribute and raw value: the first failing rule decides the message.
   */
  function ValidateField(required: bool, kind: string, raw: string): (r: Verdict)
    ensures r == Fail(RequiredMessage) <==> required && Trim(raw) == ""
    ensures r == Fail(EmailMessage) ==> kind == "email" && Trim(raw) != "" && !IsValidEmail(Trim(raw))
    ensures r == Fail(PhoneMessage) ==> kind == "tel" && Trim(raw) != "" && !IsValidPhone(Trim(raw))
    ensures r.Fail? ==> r.message in {RequiredMessage, EmailMessage, PhoneMessage}
  {
    var value := Trim(raw);
    if required && value == "" then Fail(RequiredMessage)
    else if kind == "email" && value != "" && !IsValidEmail(value) then Fail(EmailMessage)
    else if kind == "tel" && value != "" && !IsValidPhone(value) then Fail(PhoneMessage)
    else Pass
  }

  /** The required check comes first: a blank required field fails with the required message whatever its type. */
  lemma RequiredCheckedFirst(kind: string, raw: string)
    ensures ValidateField(true, kind, raw) == Fail(RequiredMessage) <==> AllWhitespace(raw)
  {
    TrimEmptyIffAllWhitespace(raw);
  }

  /** A blank field that is not required always passes, whatever its type. */
  lemma BlankOptionalPasses(kind: string, raw: string)
    requires AllWhitespace(raw)
    ensures ValidateField(false, kind, raw) == Pass
  {
    TrimEmptyIffAllWhitespace(raw);
  }

  /** Fields other than e-mail and phone fields are only checked for presence. */
  lemma OtherTypesOnlyRequired(required: bool, kind: string, raw: string)
    requires kind != "email" && kind != "tel"
    ensures ValidateField(required, kind, raw) == (if required && AllWhitespace(raw) then Fail(RequiredMessage) else Pass)
  {
    TrimEmptyIffAllWhitespace(raw);
  }

  /** An e-mail field passes exactly when it is blank and optional or its trimmed value matches the regular expression. */
  lemma EmailFieldVerdict(required: bool, raw: string)
    ensures var v := ValidateField(required, "email", raw);
      && (v == Pass <==> (AllWhitespace(raw) && !required) || (!AllWhitespace(raw) && EmailShape(Trim(raw))))
      && (v.Fail? ==> v.message == (if AllWhitespace(raw) then RequiredMessage else EmailMessage))
  {
    TrimEmptyIffAllWhitespace(raw);
    EmailRuleMatchesRegex(Trim(raw));
  }

  /** A phone field passes exactly when it is blank and optional or its trimmed value matches the regular expression. */
  lemma PhoneFieldVerdict(required: bool, raw: string)
    ensures var v := ValidateField(required, "tel", raw);
      && (v == Pass <==> (AllWhitespace(raw) && !required) || (!AllWhitespace(raw) && PhoneShape(Trim(raw))))
      && (v.Fail? ==> v.message == (if AllWhitespace(raw) then RequiredMessage else PhoneMessage))
  {
    TrimEmptyIffAllWhitespace(raw);
    PhoneRuleMatchesRegex(Trim(raw));
  }

  /** Surrounding whitespace never changes the verdict. */
  lemma VerdictIgnoresSurroundingWhitespace(required: bool, kind: string, raw: string)
    ensures ValidateField(required, kind, Trim(raw)) == ValidateField(required, kind, raw)
  {
    TrimIdempotent(raw);
    SameTrimSameVerdict(required, kind, Trim(raw), raw);
  }

  lemma SameTrimSameVerdict(required: bool, kind: string, a: string, b: string)
    requires Trim(a) == Trim(b)
    ensures ValidateField(required, kind, a) == ValidateField(required, kind, b)
  {
  }

  // ---------------------------------------------------------------------------
  // Concrete inputs

  lemma ExampleEmailPasses(s: string)
    requires s == "user@example.com"
    ensures ValidateField(true, "email", s) == Pass
  {
    TrimOfTrimmed(s);
    assert s[..4] == "user";
    assert s[5..12] == "example";
    assert s[13..] == "com";
    EmailRuleComplete(s, 4, 12);
    TrimmedValidEmailPasses(s);
  }

  lemma TrimmedValidEmailPasses(s: string)
    requires s != [] && Trim(s) == s && IsValidEmail(s)
    ensures ValidateField(true, "email", s) == Pass
  {
  }

  lemma ExampleEmailWithoutDomainFails(s: string)
    requires s == "user@"
    ensures ValidateField(true, "email", s) == Fail(EmailMessage)
  {
    TrimOfTrimmed(s);
    assert s[4] == '@' && forall j :: 0 <= j < 4 ==> s[j] != '@';
    assert IndexOf(s, '@') == 4;
  }

  lemma ExampleShortPhoneFails(s: string)
    requires s == "123"
    ensures ValidateField(true, "tel", s) == Fail(PhoneMessage)
  {
    TrimOfTrimmed(s);
  }

  lemma ExamplePhonePasses(s: string)
    requires s == "+1 (555) 123-4567"
    ensures ValidateField(true, "tel", s) == Pass
  {
    TrimOfTrimmed(s);
    assert AllPhoneChars(s[1..]);
  }

  /** No digit is needed: ten hyphens make a valid phone number. */
  lemma ExampleTenHyphensPass(s: string)
    requires s == "----------"
    ensures ValidateField(true, "tel", s) == Pass
  {
    TrimOfTrimmed(s);
  }
}
