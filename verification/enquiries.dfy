/** The two enquiry services: the strict one behind the enquiry route, which
    spells out its own e-mail and ten-digit mobile patterns, and the contact-us
    one, which coerces the mobile number to text, treats the e-mail as optional
    and normalises the paging parameters of the enquiry listing.
    A failed database write or read is a parameter. */
module Enquiries {
  import opened Common
  import opened Strings
  import opened Validation

  const REQUIRED_ALL: string := "All fields (name, mobile, email, message) are required"
  const REQUIRED_CONTACT: string := "All fields name, mobile, message are required"
  const INVALID_EMAIL: string := "Invalid email format"
  const INVALID_MOBILE: string := "Mobile number must be 10 digits"
  const CREATE_FAILED: string := "Failed to create enquiry"
  const LIMIT_RANGE: string := "Limit must be between 1 and 100"
  const FETCH_FAILED: string := "Failed to fetch enquiries"

  /** An enquiry as submitted: any field may be missing. */
  datatype EnquiryData = EnquiryData(name: Option<string>, mobile: Option<string>, email: Option<string>, message: Option<string>)

  /** The stored row. */
  datatype Enquiry = Enquiry(name: string, mobile: string, email: string, message: string)

  function ServerError<T>(message: string): Result<T> {
    Failure(RestError(INTERNAL_SERVER_ERROR, message))
  }

  // ---------------------------------------------------------------------
  // The strict service's patterns
  // ---------------------------------------------------------------------

  /** A character of the class `[^\s@]`. */
  predicate Plain(c: char) { !IsSpace(c) && c != '@' }

  predicate AllPlain(s: string) { forall k :: 0 <= k < |s| ==> Plain(s[k]) }

  /** A match of `[^\s@]+`. */
  predicate Word(s: string) { |s| > 0 && AllPlain(s) }

  function EmailOf(local: string, domain: string, tld: string): string {
    local + "@" + domain + "." + tld
  }

  /** The language of `^[^\s@]+@[^\s@]+\.[^\s@]+$`, read off the pattern. */
  ghost predicate EmailShape(s: string) {
    exists local, domain, tld :: s == EmailOf(local, domain, tld) && Word(local) && Word(domain) && Word(tld)
  }

  /** What follows the `@`: plain characters with a dot that is neither first nor last. */
  predicate DomainPart(d: string) {
    AllPlain(d) && exists k :: 1 <= k < |d| - 1 && d[k] == '.'
  }

  /** A scan deciding the e-mail pattern: text before the first `@`, then a domain part. */
  predicate IsEmail(s: string) {
    match IndexOf(s, '@')
    case None => false
    case Some(at) => 0 < at && AllPlain(s[..at]) && DomainPart(s[at + 1..])
  }

  /** The scan accepts exactly the strings the pattern matches. */
  lemma IsEmailIffShape(s: string)
    ensures IsEmail(s) <==> EmailShape(s)
  {
    if IsEmail(s) {
      var at := IndexOf(s, '@').value;
      var d := s[at + 1..];
      var k :| 1 <= k < |d| - 1 && d[k] == '.';
      var local, domain, tld := s[..at], d[..k], d[k + 1..];
      assert d == domain + "." + tld;
      assert s == s[..at] + "@" + d;
      assert s == EmailOf(local, domain, tld);
      assert Word(local) && Word(domain) && Word(tld);
    }
    if EmailShape(s) {
      var local, domain, tld :| s == EmailOf(local, domain, tld) && Word(local) && Word(domain) && Word(tld);
      ShapeIsEmail(s, local, domain, tld);
    }
  }

  lemma ShapeIsEmail(s: string, local: string, domain: string, tld: string)
    requires s == EmailOf(local, domain, tld) && Word(local) && Word(domain) && Word(tld)
    ensures IsEmail(s)
  {
    var at := |local|;
    var d := domain + "." + tld;
    assert s == local + "@" + d;
    assert s[..at] == local;
    assert s[at] == '@';
    IndexOfFirst(s, '@', at);
    assert s[at + 1..] == d;
    assert d[|domain|] == '.';
    assert AllPlain(d) by {
      forall k | 0 <= k < |d|
        ensures Plain(d[k])
      {
        if k < |domain| {
          assert d[k] == domain[k];
        } else if k > |domain| {
          assert d[k] == tld[k - |domain| - 1];
        }
      }
    }
    assert DomainPart(d);
  }

  /** `/^\d{10}$/` */
  predicate IsTenDigits(s: string) { |s| == 10 && AllDigits(s) }

  // ---------------------------------------------------------------------
  // The strict service
  // ---------------------------------------------------------------------

  /** `createEnquiry` of the enquiry service: required fields, then the
      e-mail pattern, then the mobile pattern; a failed insert is reported as
      a server error while the validation errors pass through unchanged. */
  function CreateEnquiry(d: EnquiryData, writeFails: bool): (r: Result<Enquiry>)
    ensures (Blank(d.name) || Blank(d.mobile) || Blank(d.email) || Blank(d.message)) ==> r == BadRequest(REQUIRED_ALL)
    ensures r.Success? <==>
      (d.name.Some? && d.mobile.Some? && d.email.Some? && d.message.Some? && |d.name.value| > 0 && |d.message.value| > 0
       && EmailShape(d.email.value) && IsTenDigits(d.mobile.value) && !writeFails)
    ensures r.Success? ==> r.value == Enquiry(d.name.value, d.mobile.value, d.email.value, d.message.value)
    ensures r.Failure? && r.error.status == INTERNAL_SERVER_ERROR ==> writeFails && r.error.message == CREATE_FAILED
    ensures r.Failure? ==> r.error.status in {BAD_REQUEST, INTERNAL_SERVER_ERROR}
  {
    IsEmailIffShape(if d.email.Some? then d.email.value else "");
    if Blank(d.name) || Blank(d.mobile) || Blank(d.email) || Blank(d.message) then BadRequest(REQUIRED_ALL)
    else if !IsEmail(d.email.value) then BadRequest(INVALID_EMAIL)
    else if !IsTenDigits(d.mobile.value) then BadRequest(INVALID_MOBILE)
    else if writeFails then ServerError(CREATE_FAILED)
    else Success(Enquiry(d.name.value, d.mobile.value, d.email.value, d.message.value))
  }

  /** The e-mail is checked before the mobile number: a submission wrong in
      both is told about its e-mail. */
  lemma EmailCheckedBeforeMobile(d: EnquiryData, writeFails: bool)
    requires !Blank(d.name) && !Blank(d.mobile) && !Blank(d.email) && !Blank(d.message)
    requires !EmailShape(d.email.value)
    ensures CreateEnquiry(d, writeFails) == BadRequest(INVALID_EMAIL)
  {
    IsEmailIffShape(d.email.value);
  }

  /** A mobile number is refused for its shape only once the e-mail passes. */
  lemma MobileCheckedAfterEmail(d: EnquiryData, writeFails: bool)
    requires !Blank(d.name) && !Blank(d.mobile) && !Blank(d.email) && !Blank(d.message)
    requires EmailShape(d.email.value) && !IsTenDigits(d.mobile.value)
    ensures CreateEnquiry(d, writeFails) == BadRequest(INVALID_MOBILE)
  {
    IsEmailIffShape(d.email.value);
  }

  // ---------------------------------------------------------------------
  // The contact-us service
  // ---------------------------------------------------------------------

  /** The mobile field as it arrives in a request body. A number is a
      non-negative whole number, as a phone number sent unquoted would be. */
  datatype MobileInput = MobileUndefined | MobileNull | MobileText(text: string) | MobileNumber(n: nat)

  /** `String(mobile)` */
  function MobileString(m: MobileInput): (r: string)
    ensures m.MobileText? ==> r == m.text
    ensures |r| == 0 <==> m == MobileText("")
  {
    match m
    case MobileUndefined => "undefined"
    case MobileNull => "null"
    case MobileText(s) => s
    case MobileNumber(n) => NatToString(n)
  }

  datatype ContactData = ContactData(name: Option<string>, mobile: MobileInput, email: Option<string>, message: Option<string>)

  /** The stored contact-us row: the e-mail stays optional. */
  datatype ContactEnquiry = ContactEnquiry(name: string, mobile: string, email: Option<string>, message: string)

  /** `createEnquiry` of the contact-us service. The mobile number is turned
      into text first, so only the empty text counts as a missing mobile; an
      e-mail is checked only when one is given. The patterns are parameters. */
  function CreateContactEnquiry(d: ContactData, isMobile: string -> bool, isEmail: string -> bool, writeFails: bool): (r: Result<ContactEnquiry>)
    ensures (Blank(d.name) || d.mobile == MobileText("") || Blank(d.message)) <==> r == BadRequest(REQUIRED_CONTACT)
    ensures r.Success? <==>
      (!Blank(d.name) && !Blank(d.message) && |MobileString(d.mobile)| > 0
       && (Blank(d.email) || isEmail(d.email.value)) && isMobile(MobileString(d.mobile)) && !writeFails)
    ensures r.Success? ==> r.value == ContactEnquiry(d.name.value, MobileString(d.mobile), d.email, d.message.value)
    ensures r == BadRequest(INVALID_EMAIL) ==> !Blank(d.email) && !isEmail(d.email.value)
    ensures r.Failure? && r.error.status == INTERNAL_SERVER_ERROR ==> writeFails && r.error.message == CREATE_FAILED
  {
    var mobile := MobileString(d.mobile);
    if Blank(d.name) || |mobile| == 0 || Blank(d.message) then BadRequest(REQUIRED_CONTACT)
    else if !Blank(d.email) && !isEmail(d.email.value) then BadRequest(INVALID_EMAIL)
    else if !isMobile(mobile) then BadRequest(INVALID_MOBILE)
    else if writeFails then ServerError(CREATE_FAILED)
    else Success(ContactEnquiry(d.name.value, mobile, d.email, d.message.value))
  }

  /** A missing mobile number gets past the required-fields check as the
      text "undefined" and is judged by the mobile pattern alone. */
  lemma UndefinedMobileIsJudgedByPattern(name: string, message: string, isMobile: string -> bool, isEmail: string -> bool)
    requires |name| > 0 && |message| > 0
    ensures CreateContactEnquiry(ContactData(Some(name), MobileUndefined, None, Some(message)), isMobile, isEmail, false)
            == if isMobile("undefined") then Success(ContactEnquiry(name, "undefined", None, message)) else BadRequest(INVALID_MOBILE)
  {
  }

  // ---------------------------------------------------------------------
  // Listing enquiries
  // ---------------------------------------------------------------------

  /** The normalised query: page size and number of rows skipped. */
  datatype EnquiryQuery = EnquiryQuery(take: real, skip: JsNumber)

  /** `limit || 10` */
  function TakeOf(limit: Option<JsNumber>): JsNumber {
    if limit.Some? && limit.value.Truthy() then limit.value else Finite(10.0)
  }

  /** `Math.max(offset || 0, 0)` */
  function SkipOf(offset: Option<JsNumber>): (r: JsNumber)
    ensures r == Finite(0.0) || (r.Truthy() && !r.AtMostZero())
  {
    if offset.None? || !offset.value.Truthy() then Finite(0.0)
    else match offset.value
      case Finite(v) => Finite(Max(v, 0.0))
      case NaN => Finite(0.0)
      case Infinity(pos) => if pos then offset.value else Finite(0.0)
  }

  /** The listing with the choice of what the catch-all handler does with an
      error it threw itself: rethrow it, or replace it by a server error. */
  function FetchWith(limit: Option<JsNumber>, offset: Option<JsNumber>, queryFails: bool, passRestErrors: bool): Result<EnquiryQuery> {
    var take := TakeOf(limit);
    if !take.Finite? || take.r < 1.0 || take.r > 100.0 then
      if passRestErrors then BadRequest(LIMIT_RANGE) else ServerError(FETCH_FAILED)
    else if queryFails then ServerError(FETCH_FAILED)
    else Success(EnquiryQuery(take.r, SkipOf(offset)))
  }

  /** A limit the listing accepts: absent, falsy, or a number from 1 to 100. */
  predicate LimitAccepted(limit: Option<JsNumber>) {
    limit.None? || !limit.value.Truthy() || (limit.value.Finite? && 1.0 <= limit.value.r <= 100.0)
  }

  /** `fetchAllEnquiries` as written: its catch block turns every error,
      the out-of-range limit included, into the same server error. */
  function FetchAllEnquiries(limit: Option<JsNumber>, offset: Option<JsNumber>, queryFails: bool): (r: Result<EnquiryQuery>)
    ensures r.Failure? ==> r.error == RestError(INTERNAL_SERVER_ERROR, FETCH_FAILED)
    ensures r.Success? <==> LimitAccepted(limit) && !queryFails
    ensures r.Success? ==> 1.0 <= r.value.take <= 100.0
    ensures r.Success? && limit.Some? && limit.value.Truthy() ==> limit.value == Finite(r.value.take)
    ensures r.Success? && (limit.None? || !limit.value.Truthy()) ==> r.value.take == 10.0
    ensures r.Success? ==> !r.value.skip.NaN? && !(r.value.skip.Finite? && r.value.skip.r < 0.0)
    ensures r.Success? && offset.Some? && offset.value.Finite? && offset.value.r >= 0.0 ==> r.value.skip == offset.value
  {
    FetchWith(limit, offset, queryFails, false)
  }

  /** The listing with the limit error passed through, as the other enquiry
      handlers do with the errors they throw themselves. */
  function FetchAllEnquiriesChecked(limit: Option<JsNumber>, offset: Option<JsNumber>, queryFails: bool): (r: Result<EnquiryQuery>)
    ensures !LimitAccepted(limit) <==> r == BadRequest(LIMIT_RANGE)
    ensures LimitAccepted(limit) ==> r == FetchAllEnquiries(limit, offset, queryFails)
  {
    FetchWith(limit, offset, queryFails, true)
  }

  /** A limit of 500 is answered with a server error, never with the
      "between 1 and 100" message the service composes for it. */
  lemma LimitErrorIsHidden(offset: Option<JsNumber>, queryFails: bool)
    ensures FetchAllEnquiries(Some(Finite(500.0)), offset, queryFails) == ServerError(FETCH_FAILED)
    ensures FetchAllEnquiriesChecked(Some(Finite(500.0)), offset, queryFails) == BadRequest(LIMIT_RANGE)
  {
  }
}
