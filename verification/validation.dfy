/** `validateAddress` and `validateCustomer`
    (src/utils/validation-utils.ts:8-66): checks in a fixed order, the first
    failing one throws a BAD_REQUEST with its own message. A field that may
    be absent in the request body is an `Option<string>`; `!field` is true
    for an absent or empty string. The mobile and email regular expressions
    live in a module that is not part of this model, so they are parameters. */
module Validation {
  import opened Common
  import opened Strings

  const MIN_USER_NAME_LENGTH: int := 3
  const MIN_ADDRESS_LINE_LENGTH: int := 5

  const ADDRESS_LINE_MESSAGE: string := "Address Line 1 must be at least 5 characters long"
  const CITY_MESSAGE: string := "City is required"
  const DISTRICT_MESSAGE: string := "District is required"
  const PIN_CODE_MESSAGE: string := "Pin code must be a 6-digit number"
  const NAME_MESSAGE: string := "Customer name must be at least 3 characters long"
  const MOBILE_MESSAGE: string := "Customer mobile must be a valid 10-digit number"
  const EMAIL_MESSAGE: string := "Customer email is not valid"

  datatype Address = Address(addressLine1: Option<string>, city: Option<string>, district: Option<string>, pinCode: Option<string>)

  datatype Customer = Customer(name: Option<string>, mobile: Option<string>, email: Option<string>)

  /** `!field`: absent or the empty string. */
  predicate Blank(s: Option<string>) { s.None? || |s.value| == 0 }

  /** `/^\d{6}$/` */
  predicate IsPinCode(s: string) { |s| == 6 && AllDigits(s) }

  /** Holds some character other than white space. */
  ghost predicate HasText(s: Option<string>) {
    s.Some? && exists i :: 0 <= i < |s.value| && !IsSpace(s.value[i])
  }

  /** How many UTF-16 code units a character takes: two for one outside
      the Basic Multilingual Plane, one otherwise. */
  function CodeUnits(c: char): nat {
    if c as int < 0x1_0000 then 1 else 2
  }

  /** JavaScript's `s.length`: the number of UTF-16 code units. It lies
      between the number of characters and twice that, and equals the
      number of characters when every character is in the Basic
      Multilingual Plane. */
  function Utf16Length(s: string): (n: nat)
    ensures |s| <= n <= 2 * |s|
    ensures (forall i :: 0 <= i < |s| ==> s[i] as int < 0x1_0000) ==> n == |s|
    ensures (exists i :: 0 <= i < |s| && s[i] as int >= 0x1_0000) ==> n > |s|
  {
    if |s| == 0 then 0
    else
      var n := Utf16Length(s[..|s| - 1]) + CodeUnits(s[|s| - 1]);
      assert forall i :: 0 <= i < |s| - 1 ==> s[..|s| - 1][i] == s[i];
      n
  }

  /** The length of a concatenation is the sum of the lengths. */
  lemma {:induction false} Utf16LengthAppend(a: string, b: string)
    ensures Utf16Length(a + b) == Utf16Length(a) + Utf16Length(b)
    decreases |b|
  {
    if |b| == 0 {
      assert a + b == a;
    } else {
      assert (a + b)[..|a + b| - 1] == a + b[..|b| - 1];
      Utf16LengthAppend(a, b[..|b| - 1]);
    }
  }

  ghost predicate LineOk(a: Address) {
    a.addressLine1.Some? && Utf16Length(a.addressLine1.value) >= MIN_ADDRESS_LINE_LENGTH
  }

  ghost predicate PinOk(a: Address) {
    a.pinCode.Some? && IsPinCode(a.pinCode.value)
  }

  /** `!s || s.trim().length === 0` */
  predicate MissingText(s: Option<string>) {
    Blank(s) || |Trim(s.value)| == 0
  }

  lemma MissingTextIffNoText(s: Option<string>)
    ensures MissingText(s) <==> !HasText(s)
  {
    if s.Some? {
      TrimEmptyIffAllSpace(s.value);
    }
  }

  function ValidationError(message: string): Check {
    Fail(RestError(BAD_REQUEST, message))
  }

  /** `validateAddress`: passes exactly for an address whose first line has
      at least five characters, whose city and district hold some text, and
      whose pin code is six digits; otherwise the first failing check names
      the error. */
  function ValidateAddress(a: Address): (r: Check)
    ensures r.Pass? <==> LineOk(a) && HasText(a.city) && HasText(a.district) && PinOk(a)
    ensures !LineOk(a) ==> r == ValidationError(ADDRESS_LINE_MESSAGE)
    ensures LineOk(a) && !HasText(a.city) ==> r == ValidationError(CITY_MESSAGE)
    ensures LineOk(a) && HasText(a.city) && !HasText(a.district) ==> r == ValidationError(DISTRICT_MESSAGE)
    ensures LineOk(a) && HasText(a.city) && HasText(a.district) && !PinOk(a) ==> r == ValidationError(PIN_CODE_MESSAGE)
  {
    MissingTextIffNoText(a.city);
    MissingTextIffNoText(a.district);
    if Blank(a.addressLine1) || Utf16Length(a.addressLine1.value) < MIN_ADDRESS_LINE_LENGTH then ValidationError(ADDRESS_LINE_MESSAGE)
    else if MissingText(a.city) then ValidationError(CITY_MESSAGE)
    else if MissingText(a.district) then ValidationError(DISTRICT_MESSAGE)
    else if Blank(a.pinCode) || !IsPinCode(a.pinCode.value) then ValidationError(PIN_CODE_MESSAGE)
    else Pass
  }

  ghost predicate NameOk(c: Customer) {
    c.name.Some? && Utf16Length(Trim(c.name.value)) >= MIN_USER_NAME_LENGTH
  }

  ghost predicate MobileOk(c: Customer, isMobile: string -> bool) {
    c.mobile.Some? && |c.mobile.value| > 0 && isMobile(c.mobile.value)
  }

  /** An email is optional; when given it must match. */
  ghost predicate EmailOk(c: Customer, isEmail: string -> bool) {
    c.email.Some? && |c.email.value| > 0 ==> isEmail(c.email.value)
  }

  /** `validateCustomer`: passes exactly for a customer whose trimmed name
      has at least three characters, whose mobile number matches, and whose
      email, if given, matches; otherwise the first failing check names the
      error. */
  function ValidateCustomer(c: Customer, isMobile: string -> bool, isEmail: string -> bool): (r: Check)
    ensures r.Pass? <==> NameOk(c) && MobileOk(c, isMobile) && EmailOk(c, isEmail)
    ensures !NameOk(c) ==> r == ValidationError(NAME_MESSAGE)
    ensures NameOk(c) && !MobileOk(c, isMobile) ==> r == ValidationError(MOBILE_MESSAGE)
    ensures NameOk(c) && MobileOk(c, isMobile) && !EmailOk(c, isEmail) ==> r == ValidationError(EMAIL_MESSAGE)
  {
    if Blank(c.name) || Utf16Length(Trim(c.name.value)) < MIN_USER_NAME_LENGTH then ValidationError(NAME_MESSAGE)
    else if Blank(c.mobile) || !isMobile(c.mobile.value) then ValidationError(MOBILE_MESSAGE)
    else if !Blank(c.email) && !isEmail(c.email.value) then ValidationError(EMAIL_MESSAGE)
    else Pass
  }

  /** The name length is counted in UTF-16 code units, as JavaScript's
      `.length` counts it: two characters outside the Basic Multilingual
      Plane make four code units, enough for a name. */
  lemma AstralNameIsLongEnough()
    ensures var name := "\U{1F600}\U{1F600}";
      && |name| == 2
      && NameOk(Customer(Some(name), None, None))
  {
    var name := "\U{1F600}\U{1F600}";
    assert Trim(name) == name by {
      assert !IsSpace(name[0]) && !IsSpace(name[1]);
    }
    assert Utf16Length(name) == 4 by {
      assert name[..1] == "\U{1F600}";
      assert name[..1][..0] == "";
    }
  }
}
