/** The two field validators of customers/forms.py. A field that was not
    posted reads as the empty string. */
module Forms {
  import opened Common

  datatype FormError = PhoneNeedsDigits | EmailBadDomain

  predicate HasDigit(s: string) {
    exists i :: 0 <= i < |s| && IsDigit(s[i])
  }

  /** `clean_phone`: strip the value; it must contain a digit. */
  function CleanPhone(input: string): (r: Result<string, FormError>)
    ensures r.Ok? <==> HasDigit(Trim(input))
    ensures r.Ok? ==> r.value == Trim(input)
    ensures r.Err? ==> r.error == PhoneNeedsDigits
  {
    var p := Trim(input);
    if !HasDigit(p) then Err(PhoneNeedsDigits) else Ok(p)
  }

  /** The domain endings `clean_email` accepts, compared case-sensitively. */
  predicate AcceptedEnding(e: string) {
    EndsWith(e, ".com") || EndsWith(e, ".net") || EndsWith(e, ".org")
  }

  /** `clean_email`: strip the value; an empty value is accepted, any other
      must end in `.com`, `.net` or `.org`. */
  function CleanEmail(input: string): (r: Result<string, FormError>)
    ensures r.Ok? <==> Trim(input) == [] || AcceptedEnding(Trim(input))
    ensures r.Ok? ==> r.value == Trim(input)
    ensures r.Err? ==> r.error == EmailBadDomain
  {
    var e := Trim(input);
    if e != [] && !AcceptedEnding(e) then Err(EmailBadDomain) else Ok(e)
  }

  /** A phone that has a digit only in its surrounding whitespace cannot
      exist: digits are never stripped, so a raw digit survives cleaning. */
  lemma PhoneDigitSurvivesStrip(input: string, i: nat)
    requires i < |input| && IsDigit(input[i])
    ensures CleanPhone(input).Ok?
  {
    var k := LeadingSpaces(input);
    var t := Trim(input);
    assert k <= i < k + |t|;
    assert t[i - k] == input[i];
  }

  /** Cleaning an accepted phone again changes nothing. */
  lemma CleanPhoneIdempotent(input: string)
    requires CleanPhone(input).Ok?
    ensures CleanPhone(CleanPhone(input).value) == CleanPhone(input)
  {
    TrimIdempotent(input);
  }

  /** Cleaning an accepted email again changes nothing. */
  lemma CleanEmailIdempotent(input: string)
    requires CleanEmail(input).Ok?
    ensures CleanEmail(CleanEmail(input).value) == CleanEmail(input)
  {
    TrimIdempotent(input);
  }

  /** The ending check is case-sensitive: an upper-case ending is refused. */
  lemma UpperCaseDomainRefused()
    ensures CleanEmail("a@b.COM").Err?
  {
    var e := "a@b.COM";
    TrimOfTrimmed(e);
    assert e[|e| - 4..] == ".COM";
  }
}
