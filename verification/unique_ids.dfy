/** Readable unique ids (src/utils/unique-field-utils.ts): the base-32
    encoder over an alphabet without look-alike characters, the
    per-millisecond sequence counters, and the assembly of cart and order
    ids. The clock, the random characters and the date codes (calendar
    arithmetic on the timestamp) are parameters. */
module UniqueIds {
  import opened Common
  import opened Strings

  /** `READABLE_ALPHABET`: no I, O, 0 or 1. */
  const ALPHABET: string := "ABCDEFGHJKLMNPQRSTUVWXYZ23456789"

  const BASE: nat := 32

  /** Where a character sits in the alphabet, computed from its code. */
  function Position(c: char): int {
    if 'A' <= c <= 'H' then c as int - 'A' as int
    else if 'J' <= c <= 'N' then c as int - 'A' as int - 1
    else if 'P' <= c <= 'Z' then c as int - 'A' as int - 2
    else c as int - '2' as int + 24
  }

  lemma PositionsInOrder()
    ensures forall i :: 0 <= i < |ALPHABET| ==> Position(ALPHABET[i]) == i
  {
  }

  /** The alphabet has 32 distinct characters, none of them a look-alike
      (I, O, 0, 1), a lower-case letter or the id separator `-`. */
  lemma AlphabetFacts()
    ensures |ALPHABET| == BASE
    ensures forall i, j :: 0 <= i < j < |ALPHABET| ==> ALPHABET[i] != ALPHABET[j]
    ensures 'I' !in ALPHABET && 'O' !in ALPHABET && '0' !in ALPHABET && '1' !in ALPHABET
    ensures forall i :: 0 <= i < |ALPHABET| ==> UpperChar(ALPHABET[i]) == ALPHABET[i] && ALPHABET[i] != '-'
  {
    PositionsInOrder();
    forall i | 0 <= i < |ALPHABET| ensures ('A' <= ALPHABET[i] <= 'Z' || '2' <= ALPHABET[i] <= '9') && ALPHABET[i] !in "IO01" {
    }
  }

  /** The position of an alphabet character. */
  function DigitOf(c: char): (d: nat)
    requires c in ALPHABET
    ensures d < BASE && ALPHABET[d] == c
  {
    AlphabetFacts();
    IndexOf(ALPHABET, c).value
  }

  /** The base-32 digits of `n`, most significant first; none for 0. */
  function Digits(n: nat): (r: string)
    ensures forall i :: 0 <= i < |r| ==> r[i] in ALPHABET
  {
    AlphabetFacts();
    if n == 0 then "" else Digits(n / BASE) + [ALPHABET[n % BASE]]
  }

  /** Reading base-32 digits back as a number. */
  function Decode(s: string): nat
    requires forall i :: 0 <= i < |s| ==> s[i] in ALPHABET
  {
    if |s| == 0 then 0 else Decode(s[..|s| - 1]) * BASE + DigitOf(s[|s| - 1])
  }

  /** Digits of a positive number are non-empty, start with a non-zero digit
      (not `A`), and decode back to the number. */
  lemma {:induction false} DigitsRoundTrip(n: nat)
    requires n > 0
    ensures |Digits(n)| >= 1 && Digits(n)[0] != ALPHABET[0]
    ensures Decode(Digits(n)) == n
  {
    AlphabetFacts();
    var d := Digits(n);
    assert d[..|d| - 1] == Digits(n / BASE);
    assert DigitOf(d[|d| - 1]) == n % BASE;
    if n / BASE > 0 {
      DigitsRoundTrip(n / BASE);
    } else {
      assert d == [ALPHABET[n % BASE]];
      assert n % BASE != 0;
    }
  }

  /** `encodeNumberWithAlphabet` on a number as a value: `A` for a
      non-finite or non-positive number, otherwise the digits of its floor
      (none when the floor is 0). */
  function Encode(value: JsNumber): (r: string)
    ensures !value.IsFiniteNumber() || value.AtMostZero() ==> r == [ALPHABET[0]]
    ensures forall i :: 0 <= i < |r| ==> r[i] in ALPHABET
  {
    if !value.IsFiniteNumber() || value.AtMostZero() then [ALPHABET[0]] else Digits(value.r.Floor)
  }

  /** `encodeNumberWithAlphabet`, loop and all. A number of at least 1 gets
      a non-empty encoding that does not start with `A` and decodes to its
      floor; a number strictly between 0 and 1 gets the empty string. */
  method EncodeNumberWithAlphabet(value: JsNumber) returns (encoded: string)
    ensures !value.IsFiniteNumber() || value.AtMostZero() ==> encoded == "A"
    ensures value.Finite? && value.r >= 1.0 ==>
      && |encoded| >= 1 && encoded[0] != 'A'
      && (forall i :: 0 <= i < |encoded| ==> encoded[i] in ALPHABET)
      && Decode(encoded) == value.r.Floor
    ensures value.Finite? && 0.0 < value.r < 1.0 ==> encoded == ""
  {
    if !value.IsFiniteNumber() || value.AtMostZero() {
      return [ALPHABET[0]];
    }
    var n := FloorOfPositive(value.r);
    var remaining: nat := n;
    encoded := "";
    while remaining > 0
      invariant Digits(remaining) + encoded == Digits(n)
      decreases remaining
    {
      var index := remaining % BASE;
      DigitsStep(remaining, encoded);
      encoded := [ALPHABET[index]] + encoded;
      remaining := remaining / BASE;
    }
    assert encoded == Digits(n);
    if n > 0 {
      DigitsRoundTrip(n);
    }
  }

  /** One turn of the encoder's loop: the last digit moves from the number
      to the front of the text. */
  lemma DigitsStep(remaining: nat, encoded: string)
    requires remaining > 0
    ensures Digits(remaining / BASE) + ([ALPHABET[remaining % BASE]] + encoded) == Digits(remaining) + encoded
  {
    var c := [ALPHABET[remaining % BASE]];
    assert Digits(remaining) == Digits(remaining / BASE) + c;
    AppendAssoc(Digits(remaining / BASE), c, encoded);
  }

  /** The floor of a positive number: at least 1 from 1 on, 0 below. */
  function FloorOfPositive(x: real): (n: nat)
    requires x > 0.0
    ensures n == x.Floor
    ensures x >= 1.0 <==> n >= 1
  {
    x.Floor
  }

  /** The encoding of a whole number, as the id builders use it. */
  function EncodeInt(n: int): (r: string)
    ensures |r| >= 1
    ensures forall i :: 0 <= i < |r| ==> r[i] in ALPHABET
  {
    if n <= 0 then [ALPHABET[0]]
    else
      DigitsRoundTrip(n);
      Digits(n)
  }

  // ---------------------------------------------------------------------
  // per-millisecond sequence
  // ---------------------------------------------------------------------

  /** `lastTimestampFor…` and `perMsSequenceFor…`. */
  datatype Counter = Counter(last: int, sequence: nat)

  /** Both counters start at 0. */
  const INITIAL_COUNTER: Counter := Counter(0, 0)

  /** A call at `now`: the same millisecond as the last call increments the
      sequence, a different one restarts it at 0 and records `now`. */
  function Tick(c: Counter, now: int): (r: Counter)
    ensures r.last == now
    ensures r.sequence == if now == c.last then c.sequence + 1 else 0
  {
    if now == c.last then Counter(c.last, c.sequence + 1) else Counter(now, 0)
  }

  function TickAll(c: Counter, nows: seq<int>): Counter
    decreases |nows|
  {
    if |nows| == 0 then c else TickAll(Tick(c, nows[0]), nows[1..])
  }

  /** `k` calls within one millisecond number themselves consecutively:
      the `k`-th call after a call in another millisecond gets `k - 1`. */
  lemma {:induction false} CallsInOneMillisecondAreNumbered(c: Counter, now: int, nows: seq<int>)
    requires |nows| > 0 && forall i :: 0 <= i < |nows| ==> nows[i] == now
    ensures TickAll(c, nows).last == now
    ensures TickAll(c, nows).sequence == if c.last == now then c.sequence + |nows| else |nows| - 1
    decreases |nows|
  {
    if |nows| > 1 {
      CallsInOneMillisecondAreNumbered(Tick(c, now), now, nows[1..]);
    }
  }

  /** The cart and the order counters. */
  datatype IdCounters = IdCounters(cart: Counter, order: Counter)

  /** The random part of an id: `randomReadable(2)`. */
  predicate RandomPart(rand: string) {
    |rand| == 2 && forall i :: 0 <= i < 2 ==> rand[i] in ALPHABET
  }

  /** `${timePart}${seqPart}${randPart}`: the last six characters of the
      encoded clock, the encoded sequence number and the random part. */
  function Suffix(now: int, sequence: nat, rand: string): (r: string)
    requires RandomPart(rand)
    ensures |r| >= 4
    ensures forall i :: 0 <= i < |r| ==> r[i] in ALPHABET
    ensures EndsWith(r, rand)
  {
    var r := Last(EncodeInt(now), 6) + EncodeInt(sequence) + rand;
    assert r[|r| - 2..] == rand;
    r
  }

  // ---------------------------------------------------------------------
  // id assembly
  // ---------------------------------------------------------------------

  function UpperAll(parts: seq<string>): (r: seq<string>)
    ensures |r| == |parts|
    ensures forall k :: 0 <= k < |parts| ==> r[k] == ToUpper(parts[k])
  {
    if |parts| == 0 then [] else [ToUpper(parts[0])] + UpperAll(parts[1..])
  }

  /** Upper-casing a joined string upper-cases each piece. */
  lemma {:induction false} ToUpperJoin(parts: seq<string>)
    requires |parts| >= 1
    ensures ToUpper(Join(parts, '-')) == Join(UpperAll(parts), '-')
  {
    if |parts| > 1 {
      ToUpperJoin(parts[1..]);
      assert UpperAll(parts)[1..] == UpperAll(parts[1..]);
      ToUpperAppend(parts[0] + ['-'], Join(parts[1..], '-'));
      ToUpperAppend(parts[0], ['-']);
    }
  }

  lemma ToUpperAppend(a: string, b: string)
    ensures ToUpper(a + b) == ToUpper(a) + ToUpper(b)
  {
  }

  /** `Number.isInteger(q) ? String(Math.trunc(q)) : String(q).replace(/\./g, "P")`.
      `numberText` is `String` on a number that is not whole. */
  function QuantityText(quantity: real, numberText: real -> string): string {
    if quantity.Floor as real == quantity then IntToString(quantity.Floor)
    else ReplaceChar(numberText(quantity), '.', 'P')
  }

  /** The pieces of a cart id before upper-casing. */
  function CartIdParts(dateCode: string, productIdSum: int, quantity: real, numberText: real -> string, suffix: string): seq<string> {
    ["C", dateCode, "P" + NatToString(if productIdSum < 0 then -productIdSum else productIdSum),
     "Q" + QuantityText(quantity, numberText), suffix]
  }

  /** `generateCartUniqueId(productIdSum, quantity)` at `now`: advances the
      cart counter only, and builds
      `C-<date>-P<|productIdSum|>-Q<quantity>-<suffix>` in upper case. */
  function CartUniqueId(counters: IdCounters, now: int, dateCode: string, productIdSum: int, quantity: real,
                        numberText: real -> string, rand: string): (r: (IdCounters, string))
    requires RandomPart(rand)
    ensures r.0.order == counters.order
    ensures r.0.cart == Tick(counters.cart, now)
    ensures StartsWith(r.1, "C-")
    ensures EndsWith(r.1, Suffix(now, r.0.cart.sequence, rand))
  {
    var next := Tick(counters.cart, now);
    var suffix := Suffix(now, next.sequence, rand);
    var parts := CartIdParts(dateCode, productIdSum, quantity, numberText, suffix);
    var id := ToUpper(Join(parts, '-'));
    UpperIdShape(parts, 'C', suffix);
    (IdCounters(next, counters.order), id)
  }

  /** An id upper-cased from pieces led by the one-letter kind and ended by
      a suffix already in upper case starts with the kind and a `-` and
      ends with the suffix unchanged. */
  lemma UpperIdShape(parts: seq<string>, kind: char, last: string)
    requires |parts| >= 2 && parts[0] == [kind] && 'A' <= kind <= 'Z' && parts[|parts| - 1] == last
    requires forall i :: 0 <= i < |last| ==> last[i] in ALPHABET
    ensures StartsWith(ToUpper(Join(parts, '-')), [kind, '-'])
    ensures EndsWith(ToUpper(Join(parts, '-')), last)
  {
    UpperAllEnds(parts, kind, last);
    UpperJoinShape(parts, kind, last);
  }

  lemma UpperJoinShape(parts: seq<string>, kind: char, last: string)
    requires |parts| >= 2 && UpperAll(parts)[0] == [kind] && UpperAll(parts)[|parts| - 1] == last
    ensures StartsWith(ToUpper(Join(parts, '-')), [kind, '-'])
    ensures EndsWith(ToUpper(Join(parts, '-')), last)
  {
    ToUpperJoin(parts);
    JoinShape(UpperAll(parts), kind, last);
  }

  lemma UpperAllEnds(parts: seq<string>, kind: char, last: string)
    requires |parts| >= 2 && parts[0] == [kind] && 'A' <= kind <= 'Z' && parts[|parts| - 1] == last
    requires forall i :: 0 <= i < |last| ==> last[i] in ALPHABET
    ensures UpperAll(parts)[0] == [kind] && UpperAll(parts)[|parts| - 1] == last
  {
    assert ToUpper([kind])[0] == UpperChar(kind) == kind;
    UpperKeepsAlphabetText(last);
  }

  lemma JoinShape(pieces: seq<string>, kind: char, last: string)
    requires |pieces| >= 2 && pieces[0] == [kind] && pieces[|pieces| - 1] == last
    ensures StartsWith(Join(pieces, '-'), [kind, '-'])
    ensures EndsWith(Join(pieces, '-'), last)
  {
    JoinEnds(pieces);
    assert pieces[0] + "-" == [kind, '-'];
  }

  /** Text made of alphabet characters is already upper case. */
  lemma UpperKeepsAlphabetText(s: string)
    requires forall i :: 0 <= i < |s| ==> s[i] in ALPHABET
    ensures ToUpper(s) == s
  {
    AlphabetFacts();
    forall i | 0 <= i < |s| ensures ToUpper(s)[i] == s[i] {
      assert s[i] in ALPHABET;
      var j :| 0 <= j < |ALPHABET| && ALPHABET[j] == s[i];
    }
  }

  /** A join starts with its first piece and a separator (when there are
      more) and ends with its last piece. */
  lemma {:induction false} JoinEnds(parts: seq<string>)
    requires |parts| >= 1
    ensures EndsWith(Join(parts, '-'), parts[|parts| - 1])
    ensures |parts| > 1 ==> StartsWith(Join(parts, '-'), parts[0] + "-")
  {
    if |parts| > 1 {
      JoinEnds(parts[1..]);
      var j := Join(parts, '-');
      assert j == (parts[0] + "-") + Join(parts[1..], '-');
      assert j[..|parts[0] + "-"|] == parts[0] + "-";
      var t := Join(parts[1..], '-');
      assert j[|j| - |t|..] == t;
    }
  }

  /** With a date code and quantity text free of `-`, the cart id splits
      back into its upper-cased pieces. */
  lemma CartIdSplits(counters: IdCounters, now: int, dateCode: string, productIdSum: int, quantity: real,
                     numberText: real -> string, rand: string)
    requires RandomPart(rand)
    requires '-' !in dateCode && '-' !in QuantityText(quantity, numberText)
    ensures var r := CartUniqueId(counters, now, dateCode, productIdSum, quantity, numberText, rand);
      Split(r.1, '-') == UpperAll(CartIdParts(dateCode, productIdSum, quantity, numberText, Suffix(now, r.0.cart.sequence, rand)))
  {
    var next := Tick(counters.cart, now);
    var suffix := Suffix(now, next.sequence, rand);
    var parts := CartIdParts(dateCode, productIdSum, quantity, numberText, suffix);
    ToUpperJoin(parts);
    CartIdPartsHaveNoDash(dateCode, productIdSum, quantity, numberText, suffix);
    UpperAllKeepsNoDash(parts);
    SplitJoin(UpperAll(parts), '-');
  }

  lemma CartIdPartsHaveNoDash(dateCode: string, productIdSum: int, quantity: real, numberText: real -> string, suffix: string)
    requires '-' !in dateCode && '-' !in QuantityText(quantity, numberText)
    requires forall i :: 0 <= i < |suffix| ==> suffix[i] in ALPHABET
    ensures var parts := CartIdParts(dateCode, productIdSum, quantity, numberText, suffix);
      forall k :: 0 <= k < |parts| ==> '-' !in parts[k]
  {
    var digits := NatToString(if productIdSum < 0 then -productIdSum else productIdSum);
    assert '-' !in digits by {
      forall i | 0 <= i < |digits| ensures digits[i] != '-' {
        assert IsDigit(digits[i]);
      }
    }
    assert '-' !in suffix by {
      AlphabetFacts();
    }
    var parts := CartIdParts(dateCode, productIdSum, quantity, numberText, suffix);
    assert '-' !in parts[2] by {
      assert parts[2] == "P" + digits;
    }
    assert '-' !in parts[3] by {
      assert parts[3] == "Q" + QuantityText(quantity, numberText);
    }
  }

  /** Upper-casing never introduces a `-`. */
  lemma UpperAllKeepsNoDash(parts: seq<string>)
    requires forall k :: 0 <= k < |parts| ==> '-' !in parts[k]
    ensures forall k :: 0 <= k < |parts| ==> '-' !in UpperAll(parts)[k]
  {
    var upper := UpperAll(parts);
    forall k | 0 <= k < |upper| ensures '-' !in upper[k] {
      assert forall i :: 0 <= i < |parts[k]| ==> upper[k][i] == UpperChar(parts[k][i]);
    }
  }

  /** The pieces of an order id before upper-casing. */
  function OrderIdParts(dateCode: string, deliveryDateCode: string, source: string, suffix: string): seq<string> {
    ["O", dateCode, deliveryDateCode, Last(source, 4), suffix]
  }

  /** `generateOrderUniqueId(cartUniqueId, maxDateRequired)` at `now`:
      advances the order counter only, and builds
      `O-<date>-<delivery date>-<last 4 of cart id>-<suffix>` in upper case. */
  function OrderUniqueId(counters: IdCounters, now: int, dateCode: string, deliveryDateCode: string,
                         cartUniqueId: string, rand: string): (r: (IdCounters, string))
    requires RandomPart(rand)
    ensures r.0.cart == counters.cart
    ensures r.0.order == Tick(counters.order, now)
    ensures StartsWith(r.1, "O-")
    ensures EndsWith(r.1, Suffix(now, r.0.order.sequence, rand))
  {
    var next := Tick(counters.order, now);
    var suffix := Suffix(now, next.sequence, rand);
    var parts := OrderIdParts(dateCode, deliveryDateCode, cartUniqueId, suffix);
    var id := ToUpper(Join(parts, '-'));
    UpperIdShape(parts, 'O', suffix);
    (IdCounters(counters.cart, next), id)
  }

  /** The short cart id inside an order id is the tail of the cart id's own
      suffix: the last four of its time, sequence and random characters. */
  lemma OrderIdCarriesCartSuffix(counters: IdCounters, now: int, dateCode: string, productIdSum: int, quantity: real,
                                 numberText: real -> string, rand: string)
    requires RandomPart(rand)
    ensures var r := CartUniqueId(counters, now, dateCode, productIdSum, quantity, numberText, rand);
      Last(r.1, 4) == Last(Suffix(now, r.0.cart.sequence, rand), 4)
  {
    var r := CartUniqueId(counters, now, dateCode, productIdSum, quantity, numberText, rand);
    LastOfEnding(r.1, Suffix(now, r.0.cart.sequence, rand), 4);
  }


  /** With date codes and a source tail free of `-`, the order id splits
      back into its upper-cased pieces: the fourth piece is the last four
      characters of the text the id was built from (a cart id, or for an
      admin order the customer's mobile number). */
  lemma OrderIdSplits(counters: IdCounters, now: int, dateCode: string, deliveryDateCode: string,
                      source: string, rand: string)
    requires RandomPart(rand)
    requires '-' !in dateCode && '-' !in deliveryDateCode && '-' !in Last(source, 4)
    ensures var r := OrderUniqueId(counters, now, dateCode, deliveryDateCode, source, rand);
      && Split(r.1, '-') == UpperAll(OrderIdParts(dateCode, deliveryDateCode, source, Suffix(now, r.0.order.sequence, rand)))
      && 3 < |Split(r.1, '-')| && Split(r.1, '-')[3] == ToUpper(Last(source, 4))
  {
    var next := Tick(counters.order, now);
    var suffix := Suffix(now, next.sequence, rand);
    var parts := OrderIdParts(dateCode, deliveryDateCode, source, suffix);
    ToUpperJoin(parts);
    assert '-' !in suffix by {
      AlphabetFacts();
    }
    UpperAllKeepsNoDash(parts);
    SplitJoin(UpperAll(parts), '-');
  }

  /** What a caller sees of a generated order id: only the order counter
      advances, the id starts with `O-`, and its fourth piece is the
      upper-cased tail of the source text. */
  lemma OrderIdNamesSource(counters: IdCounters, now: int, dateCode: string, deliveryDateCode: string,
                           source: string, rand: string)
    requires RandomPart(rand)
    requires '-' !in dateCode && '-' !in deliveryDateCode && '-' !in Last(source, 4)
    ensures var r := OrderUniqueId(counters, now, dateCode, deliveryDateCode, source, rand);
      && r.0.cart == counters.cart
      && r.0.order == Tick(counters.order, now)
      && StartsWith(r.1, "O-")
      && 3 < |Split(r.1, '-')| && Split(r.1, '-')[3] == ToUpper(Last(source, 4))
  {
    OrderIdSplits(counters, now, dateCode, deliveryDateCode, source, rand);
  }
}
