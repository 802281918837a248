/**
 * Contact-form validation (validateForm in js/main.js): every field is
 * checked on every submit, and the errors come back as a map from field to
 * its Swedish message. Whitespace is JavaScript's: the characters that
 * String.prototype.trim strips are exactly those the regular-expression
 * class `\s` matches.
 */
module ContactForm {

  import opened Wrappers

  /** The fields of the form that can carry an error. */
  datatype Field = Name | Email | Message | Consent

  /** The submitted form: three text fields and the consent checkbox, whose
      value is absent when it is unchecked. */
  datatype FormData = FormData(name: string, email: string, message: string, consent: Option<string>)

  const NameRequired: string := "Namn är obligatoriskt."
  const EmailRequired: string := "E-post är obligatoriskt."
  const EmailInvalid: string := "Ange en giltig e-postadress."
  const MessageRequired: string := "Meddelande är obligatoriskt."
  const MessageTooShort: string := "Meddelandet måste vara minst 10 tecken långt."
  const ConsentRequired: string := "Du måste godkänna behandlingen av personuppgifter."

  /** Shortest accepted message, in characters after trimming. */
  const MinMessageLength: nat := 10

  /** ECMAScript WhiteSpace and LineTerminator characters. */
  predicate IsSpace(c: char) {
    || c == '\t' || c == '\n' || c == '\U{000B}' || c == '\U{000C}' || c == '\r'
    || c == ' ' || c == '\U{00A0}' || c == '\U{1680}'
    || ('\U{2000}' <= c <= '\U{200A}')
    || c == '\U{2028}' || c == '\U{2029}' || c == '\U{202F}' || c == '\U{205F}'
    || c == '\U{3000}' || c == '\U{FEFF}'
  }

  /** Drops leading whitespace. */
  function TrimStart(s: string): (r: string)
    ensures |r| <= |s|
  {
    if s != [] && IsSpace(s[0]) then TrimStart(s[1..]) else s
  }

  /** Drops trailing whitespace. */
  function TrimEnd(s: string): (r: string)
    ensures |r| <= |s|
  {
    if s != [] && IsSpace(s[|s| - 1]) then TrimEnd(s[..|s| - 1]) else s
  }

  /** String.prototype.trim. */
  function Trim(s: string): string {
    TrimEnd(TrimStart(s))
  }

  /** TrimStart removes exactly the leading run of whitespace: what it drops
      is whitespace and what it keeps is a suffix that does not start with any. */
  lemma {:induction false} TrimStartStrips(s: string)
    ensures TrimStart(s) == s[|s| - |TrimStart(s)|..]
    ensures forall i | 0 <= i < |s| - |TrimStart(s)| :: IsSpace(s[i])
    ensures TrimStart(s) == [] || !IsSpace(TrimStart(s)[0])
    decreases |s|
  {
    if s != [] && IsSpace(s[0]) {
      TrimStartStrips(s[1..]);
      assert forall i | 1 <= i < |s| - |TrimStart(s)| :: s[i] == s[1..][i - 1];
    }
  }

  /** TrimEnd removes exactly the trailing run of whitespace. */
  lemma {:induction false} TrimEndStrips(s: string)
    ensures TrimEnd(s) == s[..|TrimEnd(s)|]
    ensures forall i | |TrimEnd(s)| <= i < |s| :: IsSpace(s[i])
    ensures TrimEnd(s) == [] || !IsSpace(TrimEnd(s)[|TrimEnd(s)| - 1])
    decreases |s|
  {
    if s != [] && IsSpace(s[|s| - 1]) {
      var s' := s[..|s| - 1];
      TrimEndStrips(s');
      assert forall i | |TrimEnd(s)| <= i < |s| - 1 :: s[i] == s'[i];
    }
  }

  /** A string without whitespace at either end is left as it is. */
  lemma TrimKeepsTrimmed(s: string)
    requires s == [] || (!IsSpace(s[0]) && !IsSpace(s[|s| - 1]))
    ensures Trim(s) == s
  {
  }

  /** A string is blank after trimming exactly when it is all whitespace. */
  lemma TrimEmptyIff(s: string)
    ensures Trim(s) == [] <==> forall i | 0 <= i < |s| :: IsSpace(s[i])
  {
    var t := TrimStart(s);
    TrimStartStrips(s);
    TrimEndStrips(t);
  }

  /** The trimmed string has no whitespace at either end, and trimming it
      again changes nothing. */
  lemma TrimIsIdempotent(s: string)
    ensures Trim(s) == [] || (!IsSpace(Trim(s)[0]) && !IsSpace(Trim(s)[|Trim(s)| - 1]))
    ensures Trim(Trim(s)) == Trim(s)
  {
    var t := TrimStart(s);
    var r := TrimEnd(t);
    TrimStartStrips(s);
    TrimEndStrips(t);
    if r != [] {
      assert r[0] == t[0];
    }
    TrimKeepsTrimmed(r);
  }

  /** A character of the regular expression class `[^\s@]`. */
  predicate IsAddressChar(c: char) {
    !IsSpace(c) && c != '@'
  }

  /** Matches `[^\s@]+`. */
  predicate IsAddressPart(s: string) {
    |s| > 0 && forall i | 0 <= i < |s| :: IsAddressChar(s[i])
  }

  /** Matches `^[^\s@]+@[^\s@]+\.[^\s@]+$`: the string splits at an `@`
      (position i) and a later `.` (position j) into three such parts. */
  ghost predicate MatchesEmailPattern(s: string) {
    exists i, j | 0 <= i < j < |s| ::
      s[i] == '@' && s[j] == '.' && IsAddressPart(s[..i]) && IsAddressPart(s[i + 1..j]) && IsAddressPart(s[j + 1..])
  }

  /** The e-mail check as a structural predicate: no whitespace, exactly one
      `@` with a non-empty local part before it, and a `.` in the domain that
      is neither its first nor its last character. */
  predicate IsValidEmail(s: string) {
    && (forall i | 0 <= i < |s| :: !IsSpace(s[i]))
    && exists k | 0 < k < |s| ::
         && s[k] == '@'
         && (forall m | 0 <= m < |s| && s[m] == '@' :: m == k)
         && exists p | k + 1 < p < |s| - 1 :: s[p] == '.'
  }

  /** Every string the structural check accepts matches the pattern. */
  lemma ValidEmailMatchesPattern(s: string)
    requires IsValidEmail(s)
    ensures MatchesEmailPattern(s)
  {
    var k :| 0 < k < |s| && s[k] == '@' && (forall m | 0 <= m < |s| && s[m] == '@' :: m == k)
             && exists p | k + 1 < p < |s| - 1 :: s[p] == '.';
    var p :| k + 1 < p < |s| - 1 && s[p] == '.';
    assert IsAddressPart(s[..k]) by {
      forall m | 0 <= m < k ensures IsAddressChar(s[..k][m]) {
        assert s[..k][m] == s[m];
      }
    }
    var domain, tld := s[k + 1..p], s[p + 1..];
    assert IsAddressPart(domain) by {
      forall m | 0 <= m < |domain| ensures IsAddressChar(domain[m]) {
        assert domain[m] == s[k + 1 + m];
      }
    }
    assert IsAddressPart(tld) by {
      forall m | 0 <= m < |tld| ensures IsAddressChar(tld[m]) {
        assert tld[m] == s[p + 1 + m];
      }
    }
  }

  /** Every string the pattern matches passes the structural check. */
  lemma PatternMatchIsValidEmail(s: string)
    requires MatchesEmailPattern(s)
    ensures IsValidEmail(s)
  {
    var i, j :| 0 <= i < j < |s| && s[i] == '@' && s[j] == '.'
                && IsAddressPart(s[..i]) && IsAddressPart(s[i + 1..j]) && IsAddressPart(s[j + 1..]);
    forall m | 0 <= m < |s| && m != i ensures IsAddressChar(s[m]) {
      if m < i {
        assert s[..i][m] == s[m];
      } else if m < j {
        assert s[i + 1..j][m - i - 1] == s[m];
      } else if m > j {
        assert s[j + 1..][m - j - 1] == s[m];
      }
    }
    assert i + 1 < j < |s| - 1 && s[j] == '.';
  }

  /** The structural check accepts exactly the strings the pattern matches. */
  lemma EmailCheckMatchesPattern(s: string)
    ensures IsValidEmail(s) <==> MatchesEmailPattern(s)
  {
    if IsValidEmail(s) {
      ValidEmailMatchesPattern(s);
    }
    if MatchesEmailPattern(s) {
      PatternMatchIsValidEmail(s);
    }
  }

  /** A ticked consent checkbox: `formData.get('consent')` is a non-empty value. */
  predicate Consented(consent: Option<string>) {
    consent.Some? && consent.value != ""
  }

  /** validateForm: the error map of a submitted form. */
  function ValidateForm(form: FormData): (errors: map<Field, string>)
    ensures Name in errors <==> Trim(form.name) == ""
    ensures Email in errors <==> !IsValidEmail(Trim(form.email))
    ensures Message in errors <==> |Trim(form.message)| < MinMessageLength
    ensures Consent in errors <==> !Consented(form.consent)
    ensures Name in errors ==> errors[Name] == NameRequired
    ensures Email in errors ==> errors[Email] == if Trim(form.email) == "" then EmailRequired else EmailInvalid
    ensures Message in errors ==> errors[Message] == if Trim(form.message) == "" then MessageRequired else MessageTooShort
    ensures Consent in errors ==> errors[Consent] == ConsentRequired
    ensures errors == map[] <==>
      Trim(form.name) != "" && IsValidEmail(Trim(form.email)) && |Trim(form.message)| >= MinMessageLength && Consented(form.consent)
  {
    var name := Trim(form.name);
    var email := Trim(form.email);
    var message := Trim(form.message);
    var errors: map<Field, string> := map[];
    var errors := if name == "" then errors[Name := NameRequired] else errors;
    var errors :=
      if email == "" then errors[Email := EmailRequired]
      else if !IsValidEmail(email) then errors[Email := EmailInvalid]
      else errors;
    var errors :=
      if message == "" then errors[Message := MessageRequired]
      else if |message| < MinMessageLength then errors[Message := MessageTooShort]
      else errors;
    var errors := if !Consented(form.consent) then errors[Consent := ConsentRequired] else errors;
    assert errors == map[] <==> errors.Keys == {};
    errors
  }

  /** Validation is not fail-fast: one bad field does not hide another's error. */
  lemma EveryFieldReported()
    ensures ValidateForm(FormData("", "bad", "short", None)) ==
      map[Name := NameRequired, Email := EmailInvalid, Message := MessageTooShort, Consent := ConsentRequired]
  {
    var form := FormData("", "bad", "short", None);
    TrimKeepsTrimmed(form.name);
    TrimKeepsTrimmed(form.email);
    TrimKeepsTrimmed(form.message);
    assert !IsValidEmail("bad");
    assert ValidateForm(form).Keys == {Name, Email, Message, Consent};
  }

  /** A well-formed submission has no errors. */
  lemma WellFormedFormAccepted()
    ensures ValidateForm(FormData("Anna", "anna@example.se", "Hej, jag undrar", Some("on"))) == map[]
  {
    var form := FormData("Anna", "anna@example.se", "Hej, jag undrar", Some("on"));
    TrimKeepsTrimmed(form.name);
    TrimKeepsTrimmed(form.email);
    TrimKeepsTrimmed(form.message);
    ExampleAddressIsValid(form.email);
  }

  lemma ExampleAddressIsValid(email: string)
    requires email == "anna@example.se"
    ensures IsValidEmail(email)
  {
    assert email[4] == '@' && email[12] == '.';
    assert forall m | 0 <= m < |email| && email[m] == '@' :: m == 4;
  }

}
