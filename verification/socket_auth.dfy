/** The pure parts of the chat socket server: which browser origins may
    connect, and which access token a connection or a chat message carries.
    The token is read from the `accessToken` cookie and otherwise from the
    handshake's `auth.token`; checking the token itself is not modelled. */
module SocketAuth {
  import opened Common
  import opened Strings

  const TOKEN_COOKIE: string := "accessToken="
  const AUTH_REQUIRED: string := "Authentication required"
  const VERCEL_SUFFIX: string := ".vercel.app"

  // ---------------------------------------------------------------------
  // CORS
  // ---------------------------------------------------------------------

  /** `ALLOWED_ORIGINS ? ALLOWED_ORIGINS.split(',') : []` */
  function AllowedOrigins(env: Option<string>): seq<string> {
    if env.Some? && |env.value| > 0 then Split(env.value, ',') else []
  }

  /** The origin callback: no origin (or an empty one), a listed origin, or
      any host under `.vercel.app`. Without the setting only the first and
      the last are let through, and since the list is cut at commas, an
      origin holding a comma is never a listed one. */
  function OriginAllowed(origin: Option<string>, env: Option<string>): (r: bool)
    ensures origin.Some? && EndsWith(origin.value, VERCEL_SUFFIX) ==> r
    ensures (env.None? || |env.value| == 0) ==>
      (r <==> origin.None? || |origin.value| == 0 || EndsWith(origin.value, VERCEL_SUFFIX))
    ensures origin.Some? && ',' in origin.value && !EndsWith(origin.value, VERCEL_SUFFIX) ==> !r
  {
    origin.None? || |origin.value| == 0 || origin.value in AllowedOrigins(env) || EndsWith(origin.value, VERCEL_SUFFIX)
  }

  /** With the setting written as a comma-separated list of origins, an
      origin is allowed exactly when it is empty, one of the list, or a
      Vercel host. */
  lemma OriginAllowedIff(sites: seq<string>, origin: string)
    requires |sites| >= 1
    requires forall k :: 0 <= k < |sites| ==> ',' !in sites[k]
    ensures OriginAllowed(Some(origin), Some(Join(sites, ',')))
        <==> |origin| == 0 || origin in sites || EndsWith(origin, VERCEL_SUFFIX)
  {
    var env := Join(sites, ',');
    SplitJoin(sites, ',');
    if |env| == 0 {
      assert Split(env, ',') == [env];
      assert sites == [""];
    }
  }

  // ---------------------------------------------------------------------
  // Token extraction
  // ---------------------------------------------------------------------

  /** `s.split(c)[0]`: the text before the first `c`, or all of `s`. */
  function UpTo(s: string, c: char): (r: string)
    ensures c !in r && StartsWith(s, r)
    ensures c !in s ==> r == s
  {
    match IndexOf(s, c)
    case None => s
    case Some(k) => s[..k]
  }

  function TrimAll(parts: seq<string>): (r: seq<string>)
    ensures |r| == |parts|
    ensures forall k :: 0 <= k < |parts| ==> r[k] == Trim(parts[k])
  {
    seq(|parts|, k requires 0 <= k < |parts| => Trim(parts[k]))
  }

  /** The position of the first piece that starts with `accessToken=`. */
  function FindTokenCookie(pieces: seq<string>): (r: Option<nat>)
    ensures r.None? <==> forall j :: 0 <= j < |pieces| ==> !StartsWith(pieces[j], TOKEN_COOKIE)
    ensures r.Some? ==> r.value < |pieces| && StartsWith(pieces[r.value], TOKEN_COOKIE)
                        && forall j :: 0 <= j < r.value ==> !StartsWith(pieces[j], TOKEN_COOKIE)
  {
    if |pieces| == 0 then None
    else if StartsWith(pieces[0], TOKEN_COOKIE) then Some(0)
    else match FindTokenCookie(pieces[1..])
      case None => None
      case Some(i) => Some(i + 1)
  }

  /** For a piece `accessToken=...`, `piece.split('=')[1]` is the text after
      the first `=` up to the next one. */
  lemma SecondField(piece: string)
    requires StartsWith(piece, TOKEN_COOKIE)
    ensures |Split(piece, '=')| >= 2
    ensures Split(piece, '=')[1] == UpTo(piece[|TOKEN_COOKIE|..], '=')
  {
    var n := |TOKEN_COOKIE| - 1;
    assert piece[n] == '=';
    assert piece[..n] == "accessToken";
    IndexOfFirst(piece, '=', n);
  }

  /** The value of the `accessToken` cookie in a `Cookie` header, if the
      header is present and non-empty and one of its `;`-separated, trimmed
      pieces starts with `accessToken=`. */
  function CookieToken(cookies: Option<string>): (r: Option<string>)
    ensures (cookies.None? || |cookies.value| == 0) ==> r.None?
    ensures r.Some? ==> '=' !in r.value
    ensures r.Some? <==> cookies.Some? && |cookies.value| > 0 && FindTokenCookie(TrimAll(Split(cookies.value, ';'))).Some?
    ensures r.Some? ==> var pieces := TrimAll(Split(cookies.value, ';'));
                        r.value == UpTo(pieces[FindTokenCookie(pieces).value][|TOKEN_COOKIE|..], '=')
  {
    if cookies.None? || |cookies.value| == 0 then None
    else
      var pieces := TrimAll(Split(cookies.value, ';'));
      match FindTokenCookie(pieces)
      case None => None
      case Some(i) =>
        SecondField(pieces[i]);
        Some(Split(pieces[i], '=')[1])
  }

  lemma {:induction false} FirstTokenCookie(pieces: seq<string>, i: nat)
    requires i < |pieces| && StartsWith(pieces[i], TOKEN_COOKIE)
    requires forall j :: 0 <= j < i ==> !StartsWith(pieces[j], TOKEN_COOKIE)
    ensures FindTokenCookie(pieces) == Some(i)
    decreases i
  {
    if i > 0 {
      var rest := pieces[1..];
      assert !StartsWith(pieces[0], TOKEN_COOKIE);
      assert forall j :: 0 <= j < i - 1 ==> rest[j] == pieces[j + 1];
      FirstTokenCookie(rest, i - 1);
    }
  }

  lemma {:induction false} JoinHoldsPart(parts: seq<string>, sep: char, i: nat)
    requires i < |parts|
    ensures |Join(parts, sep)| >= |parts[i]|
    decreases |parts|
  {
    if |parts| > 1 && i > 0 {
      JoinHoldsPart(parts[1..], sep, i - 1);
    }
  }

  lemma HeaderPieces(parts: seq<string>, i: nat)
    requires i < |parts| && |parts[i]| > 0
    requires forall k :: 0 <= k < |parts| ==> ';' !in parts[k]
    ensures |Join(parts, ';')| > 0
    ensures TrimAll(Split(Join(parts, ';'), ';')) == TrimAll(parts)
  {
    JoinHoldsPart(parts, ';', i);
    SplitJoin(parts, ';');
  }

  lemma CookieTokenAt(cookies: string, pieces: seq<string>, i: nat, w: string)
    requires |cookies| > 0 && TrimAll(Split(cookies, ';')) == pieces
    requires FindTokenCookie(pieces) == Some(i) && i < |pieces| && pieces[i] == TOKEN_COOKIE + w
    ensures CookieToken(Some(cookies)) == Some(UpTo(w, '='))
  {
    DropPrefix(TOKEN_COOKIE, w);
  }

  lemma DropPrefix(p: string, w: string)
    ensures (p + w)[|p|..] == w
  {
  }

  /** The trimmed pieces of a header whose `i`-th piece is the first
      `accessToken` cookie. */
  lemma TokenPieceFound(parts: seq<string>, i: nat, w: string)
    requires i < |parts|
    requires Trim(parts[i]) == TOKEN_COOKIE + w
    requires forall j :: 0 <= j < i ==> !StartsWith(Trim(parts[j]), TOKEN_COOKIE)
    ensures |parts[i]| > 0
    ensures FindTokenCookie(TrimAll(parts)) == Some(i) && TrimAll(parts)[i] == TOKEN_COOKIE + w
  {
    assert |Trim(parts[i])| <= |TrimStart(parts[i])| <= |parts[i]|;
    var pieces := TrimAll(parts);
    assert StartsWith(pieces[i], TOKEN_COOKIE) by {
      assert pieces[i] == TOKEN_COOKIE + w;
    }
    FirstTokenCookie(pieces, i);
  }

  /** Reading back a header written as `;`-separated cookies: the first
      cookie named `accessToken` gives its value up to the first `=` in it,
      which is the whole value when it holds none. */
  lemma CookieTokenOfHeader(parts: seq<string>, i: nat, w: string)
    requires i < |parts|
    requires forall k :: 0 <= k < |parts| ==> ';' !in parts[k]
    requires Trim(parts[i]) == TOKEN_COOKIE + w
    requires forall j :: 0 <= j < i ==> !StartsWith(Trim(parts[j]), TOKEN_COOKIE)
    ensures CookieToken(Some(Join(parts, ';'))) == Some(UpTo(w, '='))
    ensures '=' !in w ==> CookieToken(Some(Join(parts, ';'))) == Some(w)
  {
    TokenPieceFound(parts, i, w);
    HeaderPieces(parts, i);
    CookieTokenAt(Join(parts, ';'), TrimAll(parts), i, w);
  }

  /** A token ending in base64 padding loses the padding: the value is cut
      at its first `=`. */
  lemma PaddingIsCut(v: string)
    requires '=' !in v && ';' !in v
    ensures CookieToken(Some(TOKEN_COOKIE + v + "==")) == Some(v)
  {
    var w := v + "==";
    var piece := TOKEN_COOKIE + w;
    assert piece == TOKEN_COOKIE + v + "==";
    assert Trim(piece) == piece by {
      assert TrimStart(piece) == piece by {
        assert piece[0] == 'a';
      }
      assert piece[|piece| - 1] == '=';
    }
    assert ';' !in piece;
    assert Join([piece], ';') == piece;
    assert UpTo(w, '=') == v by {
      assert w[..|v|] == v;
      IndexOfFirst(w, '=', |v|);
    }
    CookieTokenOfHeader([piece], 0, w);
  }

  /** The outcome of the connection middleware. */
  datatype Admission = Admit(token: string) | Refuse(reason: string)

  /** The connection middleware: the cookie token, or else the handshake's
      `auth.token`; a connection with neither is refused. */
  function ConnectionToken(cookies: Option<string>, auth: Option<string>): (r: Admission)
    ensures r.Refuse? ==> r.reason == AUTH_REQUIRED
    ensures r.Admit? <==> (CookieToken(cookies).Some? && |CookieToken(cookies).value| > 0) || (auth.Some? && |auth.value| > 0)
    ensures r.Admit? ==> |r.token| > 0
    ensures r.Admit? && CookieToken(cookies).Some? && |CookieToken(cookies).value| > 0 ==> r.token == CookieToken(cookies).value
    ensures r.Admit? && !(CookieToken(cookies).Some? && |CookieToken(cookies).value| > 0) ==> r.token == auth.value
  {
    var fromCookie := CookieToken(cookies);
    var token := if fromCookie.Some? && |fromCookie.value| > 0 then fromCookie else auth;
    if token.None? || |token.value| == 0 then Refuse(AUTH_REQUIRED) else Admit(token.value)
  }

  /** The token forwarded with a chat message: the same choice, with the
      empty text instead of a refusal. */
  function MessageToken(cookies: Option<string>, auth: Option<string>): (r: string)
    ensures ConnectionToken(cookies, auth).Refuse? <==> r == ""
    ensures ConnectionToken(cookies, auth).Admit? ==> r == ConnectionToken(cookies, auth).token
  {
    var fromCookie := CookieToken(cookies);
    var userToken := if fromCookie.Some? then fromCookie.value else "";
    if |userToken| > 0 then userToken
    else if auth.Some? && |auth.value| > 0 then auth.value
    else ""
  }
}
