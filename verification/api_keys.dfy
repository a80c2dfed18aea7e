/** The agent API keys: a table keyed by the key text, with a creation and
    an expiry time and an active flag. Every operation is a transition of the
    table; the clock (`now`) and the random bytes of a new key are parameters. */
module ApiKeys {
  import opened Common
  import opened Domain
  import opened Hex
  import opened Strings

  const KEY_PREFIX: string := "ila_"
  const KEY_BYTES: nat := 32
  const KEY_LIFETIME_MS: int := 30 * DAY_MS

  /** One stored key. */
  datatype KeyRow = KeyRow(name: Option<string>, createdAt: int, expiresAt: int, isActive: bool)

  type Keys = map<string, KeyRow>

  /** The `ApiKey` object handed to callers; an empty name reads as absent. */
  datatype ApiKey = ApiKey(key: string, name: Option<string>, createdAt: int, expiresAt: int, isActive: bool)

  function View(key: string, row: KeyRow): ApiKey {
    ApiKey(key, if row.name == Some("") then None else row.name, row.createdAt, row.expiresAt, row.isActive)
  }

  /** Only `key`'s row may have changed. */
  predicate OthersUnchanged(before: Keys, after: Keys, key: string) {
    forall k :: k in before && k != key ==> k in after && after[k] == before[k]
  }

  // ---------------------------------------------------------------------
  // generateApiKey
  // ---------------------------------------------------------------------

  function KeyText(bytes: seq<Byte>): string { KEY_PREFIX + ToHex(bytes) }

  /** A generated key and the table holding it. */
  datatype Generated = Generated(keys: Keys, apiKey: ApiKey)

  /** `generateApiKey`: an active key `ila_<hex>` that expires thirty days
      after `now`. The insert fails on the unique key column when the text is
      already taken, which is `None` here. */
  function GenerateApiKey(keys: Keys, now: int, bytes: seq<Byte>, name: Option<string>): (r: Option<Generated>)
    ensures r.None? <==> KeyText(bytes) in keys
    ensures r.Some? ==> var key := r.value.apiKey.key;
      StartsWith(key, KEY_PREFIX) && |key| == |KEY_PREFIX| + 2 * |bytes|
      && key[|KEY_PREFIX|..] == ToHex(bytes)
      && key !in keys && r.value.keys.Keys == keys.Keys + {key}
      && OthersUnchanged(keys, r.value.keys, key)
      && r.value.keys[key].isActive && r.value.keys[key].expiresAt == now + KEY_LIFETIME_MS
      && r.value.apiKey == View(key, r.value.keys[key])
  {
    var key := KeyText(bytes);
    if key in keys then None
    else
      var row := KeyRow(name, now, now + KEY_LIFETIME_MS, true);
      assert key[|KEY_PREFIX|..] == ToHex(bytes);
      Some(Generated(keys[key := row], View(key, row)))
  }

  /** Keys drawn from `crypto.randomBytes(32)` are 68 characters long, and
      different random bytes give different keys. */
  lemma KeyTextShape(bytes: seq<Byte>, other: seq<Byte>)
    requires |bytes| == KEY_BYTES
    ensures |KeyText(bytes)| == 68
    ensures KeyText(bytes) == KeyText(other) ==> bytes == other
  {
    if KeyText(bytes) == KeyText(other) {
      assert ToHex(bytes) == KeyText(bytes)[4..] == KeyText(other)[4..] == ToHex(other);
      ToHexInjective(bytes, other);
    }
  }

  // ---------------------------------------------------------------------
  // validateApiKey
  // ---------------------------------------------------------------------

  /** The answer of a validation and the table after it. */
  datatype Validation = Validation(keys: Keys, valid: bool)

  /** `validateApiKey`: an unknown or inactive key is refused; an active key
      past its expiry is deactivated and refused; any other key is accepted. */
  function ValidateApiKey(keys: Keys, key: string, now: int): (r: Validation)
    ensures r.valid <==> key in keys && keys[key].isActive && now <= keys[key].expiresAt
    ensures r.keys.Keys == keys.Keys && OthersUnchanged(keys, r.keys, key)
    ensures key in keys ==> r.keys[key] == keys[key].(isActive := keys[key].isActive && now <= keys[key].expiresAt)
  {
    if key !in keys then Validation(keys, false)
    else
      var row := keys[key];
      if !row.isActive then Validation(keys, false)
      else if now > row.expiresAt then Validation(keys[key := row.(isActive := false)], false)
      else Validation(keys, true)
  }

  /** A new key validates from its creation until its expiry, inclusive. */
  lemma NewKeyValidatesForThirtyDays(keys: Keys, now: int, bytes: seq<Byte>, name: Option<string>, t: int)
    requires GenerateApiKey(keys, now, bytes, name).Some?
    requires now <= t <= now + KEY_LIFETIME_MS
    ensures var g := GenerateApiKey(keys, now, bytes, name).value;
            ValidateApiKey(g.keys, g.apiKey.key, t).valid
  {
  }

  // ---------------------------------------------------------------------
  // cleanupExpiredKeys
  // ---------------------------------------------------------------------

  predicate ExpiredActive(row: KeyRow, now: int) { row.isActive && row.expiresAt < now }

  /** `cleanupExpiredKeys`: every active key whose expiry is before `now`
      is deactivated; nothing else changes. */
  function CleanupExpiredKeys(keys: Keys, now: int): (r: Keys)
    ensures r.Keys == keys.Keys
    ensures forall k :: k in keys ==> r[k] == if ExpiredActive(keys[k], now) then keys[k].(isActive := false) else keys[k]
  {
    map k | k in keys :: if ExpiredActive(keys[k], now) then keys[k].(isActive := false) else keys[k]
  }

  /** Cleaning up never changes which keys validate, and a second cleanup
      at the same time changes nothing. */
  lemma CleanupKeepsValidity(keys: Keys, now: int, key: string)
    ensures ValidateApiKey(CleanupExpiredKeys(keys, now), key, now).valid == ValidateApiKey(keys, key, now).valid
    ensures CleanupExpiredKeys(CleanupExpiredKeys(keys, now), now) == CleanupExpiredKeys(keys, now)
  {
    var once := CleanupExpiredKeys(keys, now);
    var twice := CleanupExpiredKeys(once, now);
    assert forall k :: k in twice ==> twice[k] == once[k];
  }

  // ---------------------------------------------------------------------
  // revokeApiKey
  // ---------------------------------------------------------------------

  /** `revokeApiKey`: the key is deactivated; the answer is whether a row
      matched, which holds for a key already inactive too. */
  function RevokeApiKey(keys: Keys, key: string): (r: Validation)
    ensures r.valid <==> key in keys
    ensures r.keys.Keys == keys.Keys && OthersUnchanged(keys, r.keys, key)
    ensures key in keys ==> r.keys[key] == keys[key].(isActive := false)
  {
    if key in keys then Validation(keys[key := keys[key].(isActive := false)], true)
    else Validation(keys, false)
  }

  /** A revoked key never validates again. */
  lemma RevokedKeyIsRefused(keys: Keys, key: string, now: int)
    ensures !ValidateApiKey(RevokeApiKey(keys, key).keys, key, now).valid
  {
  }

  // ---------------------------------------------------------------------
  // refreshApiKey
  // ---------------------------------------------------------------------

  /** The new key, if any, and the table after the refresh. */
  datatype Refreshed = Refreshed(keys: Keys, apiKey: Option<ApiKey>)

  /** `refreshApiKey`: validate the old key (which deactivates it when it
      has expired), and only if it was valid revoke it and generate a new one.
      A failed insert is caught and answered with `null`, after the old key
      has already been revoked. */
  function RefreshApiKey(keys: Keys, oldKey: string, now: int, bytes: seq<Byte>, name: Option<string>): (r: Refreshed)
    ensures !ValidateApiKey(keys, oldKey, now).valid ==> r == Refreshed(ValidateApiKey(keys, oldKey, now).keys, None)
    ensures ValidateApiKey(keys, oldKey, now).valid ==> oldKey in r.keys && !r.keys[oldKey].isActive
    ensures r.apiKey.Some? ==>
      (ValidateApiKey(keys, oldKey, now).valid
       && GenerateApiKey(RevokeApiKey(keys, oldKey).keys, now, bytes, name).Some?
       && r.apiKey.value.key != oldKey && r.apiKey.value.isActive)
    ensures ValidateApiKey(keys, oldKey, now).valid && GenerateApiKey(RevokeApiKey(keys, oldKey).keys, now, bytes, name).Some?
      ==> var g := GenerateApiKey(RevokeApiKey(keys, oldKey).keys, now, bytes, name).value;
          r.apiKey == Some(g.apiKey) && r.keys == g.keys
    ensures ValidateApiKey(keys, oldKey, now).valid && GenerateApiKey(RevokeApiKey(keys, oldKey).keys, now, bytes, name).None?
      ==> r == Refreshed(RevokeApiKey(keys, oldKey).keys, None)
  {
    var checked := ValidateApiKey(keys, oldKey, now);
    if !checked.valid then Refreshed(checked.keys, None)
    else
      var revoked := RevokeApiKey(checked.keys, oldKey).keys;
      match GenerateApiKey(revoked, now, bytes, name)
      case None => Refreshed(revoked, None)
      case Some(g) => Refreshed(g.keys, Some(g.apiKey))
  }

  /** A refresh of a valid key with fresh random bytes swaps the keys: the
      new key validates until thirty days from now, the old one never
      validates again, and every other key is left as it was. */
  lemma RefreshSwapsKeys(keys: Keys, oldKey: string, now: int, bytes: seq<Byte>, name: Option<string>, t: int)
    requires ValidateApiKey(keys, oldKey, now).valid
    requires KeyText(bytes) !in keys
    requires now <= t <= now + KEY_LIFETIME_MS
    ensures var r := RefreshApiKey(keys, oldKey, now, bytes, name);
      && r.apiKey.Some? && r.apiKey.value.key == KeyText(bytes)
      && ValidateApiKey(r.keys, r.apiKey.value.key, t).valid
      && !ValidateApiKey(r.keys, oldKey, t).valid
      && r.keys.Keys == keys.Keys + {KeyText(bytes)}
      && forall k :: k in keys && k != oldKey ==> r.keys[k] == keys[k]
  {
    var revoked := RevokeApiKey(keys, oldKey).keys;
    assert revoked.Keys == keys.Keys;
    NewKeyValidatesForThirtyDays(revoked, now, bytes, name, t);
  }

  /** An invalid old key leaves the table as validation left it: unchanged
      unless the key was active and expired, in which case only that key
      was deactivated. */
  lemma InvalidRefreshRevokesNothingElse(keys: Keys, oldKey: string, now: int, bytes: seq<Byte>, name: Option<string>)
    requires !ValidateApiKey(keys, oldKey, now).valid
    requires !(oldKey in keys && ExpiredAtOrAfter(keys[oldKey], now))
    ensures RefreshApiKey(keys, oldKey, now, bytes, name) == Refreshed(keys, None)
  {
  }

  predicate ExpiredAtOrAfter(row: KeyRow, now: int) { row.isActive && now > row.expiresAt }

  // ---------------------------------------------------------------------
  // getActiveKeys
  // ---------------------------------------------------------------------

  /** Listed by `getActiveKeys`: active and expiring strictly after `now`. */
  predicate Listed(row: KeyRow, now: int) { row.isActive && row.expiresAt > now }

  predicate NewestFirst(s: seq<ApiKey>) {
    forall i, j :: 0 <= i < j < |s| ==> s[i].createdAt >= s[j].createdAt
  }

  predicate DistinctKeys(s: seq<ApiKey>) {
    forall i, j :: 0 <= i < j < |s| ==> s[i].key != s[j].key
  }

  /** The number of leading entries created no earlier than `t`. */
  function NewerCount(s: seq<ApiKey>, t: int): (p: nat)
    requires NewestFirst(s)
    ensures p <= |s|
    ensures forall i :: 0 <= i < p ==> s[i].createdAt >= t
    ensures forall i :: p <= i < |s| ==> s[i].createdAt < t
  {
    if |s| == 0 || s[0].createdAt < t then 0 else 1 + NewerCount(s[1..], t)
  }

  /** Insert `x` after every entry at least as new. */
  function InsertNewest(x: ApiKey, s: seq<ApiKey>): (r: seq<ApiKey>)
    requires NewestFirst(s)
    ensures NewestFirst(r)
    ensures r == s[..NewerCount(s, x.createdAt)] + [x] + s[NewerCount(s, x.createdAt)..]
  {
    var p := NewerCount(s, x.createdAt);
    var r := s[..p] + [x] + s[p..];
    assert forall i :: 0 <= i < |r| ==> r[i] == if i < p then s[i] else if i == p then x else s[i - 1];
    r
  }

  lemma InsertKeepsDistinct(x: ApiKey, s: seq<ApiKey>, p: nat)
    requires p <= |s| && DistinctKeys(s)
    requires forall i :: 0 <= i < |s| ==> s[i].key != x.key
    ensures DistinctKeys(s[..p] + [x] + s[p..])
  {
    var r := s[..p] + [x] + s[p..];
    assert forall i :: 0 <= i < |r| ==> r[i] == if i < p then s[i] else if i == p then x else s[i - 1];
  }

  /** `listed` holds the rows of `done`, each once, newest first. */
  predicate ListsExactly(rows: Keys, listed: seq<ApiKey>, done: set<string>) {
    NewestFirst(listed) && DistinctKeys(listed)
    && (forall i :: 0 <= i < |listed| ==> listed[i].key in done && listed[i].key in rows && listed[i] == View(listed[i].key, rows[listed[i].key]))
    && (forall k :: k in done ==> exists i :: 0 <= i < |listed| && listed[i].key == k)
  }

  lemma InsertStep(rows: Keys, listed: seq<ApiKey>, done: set<string>, k: string)
    requires k in rows && k !in done
    requires ListsExactly(rows, listed, done)
    ensures ListsExactly(rows, InsertNewest(View(k, rows[k]), listed), done + {k})
  {
    var x := View(k, rows[k]);
    var p := NewerCount(listed, x.createdAt);
    assert forall i :: 0 <= i < |listed| ==> listed[i].key != k;
    InsertKeepsDistinct(x, listed, p);
    InsertKeepsRows(rows, listed, done, x, p);
    InsertCoversDone(listed, done, x, p);
  }

  /** Where each entry of `s[..p] + [x] + s[p..]` comes from. */
  lemma InsertIndex(s: seq<ApiKey>, x: ApiKey, p: nat)
    requires p <= |s|
    ensures var r := s[..p] + [x] + s[p..];
      |r| == |s| + 1 && forall i :: 0 <= i < |r| ==> r[i] == if i < p then s[i] else if i == p then x else s[i - 1]
  {
  }

  lemma InsertKeepsRows(rows: Keys, s: seq<ApiKey>, done: set<string>, x: ApiKey, p: nat)
    requires p <= |s| && x.key in rows && x == View(x.key, rows[x.key])
    requires forall i :: 0 <= i < |s| ==> s[i].key in done && s[i].key in rows && s[i] == View(s[i].key, rows[s[i].key])
    ensures var r := s[..p] + [x] + s[p..];
      forall i :: 0 <= i < |r| ==> r[i].key in done + {x.key} && r[i].key in rows && r[i] == View(r[i].key, rows[r[i].key])
  {
    InsertIndex(s, x, p);
  }

  lemma InsertCoversDone(s: seq<ApiKey>, done: set<string>, x: ApiKey, p: nat)
    requires p <= |s|
    requires forall j :: j in done ==> exists i :: 0 <= i < |s| && s[i].key == j
    ensures var r := s[..p] + [x] + s[p..];
      forall j :: j in done + {x.key} ==> exists i :: 0 <= i < |r| && r[i].key == j
  {
    var r := s[..p] + [x] + s[p..];
    InsertIndex(s, x, p);
    forall j | j in done + {x.key}
      ensures exists i :: 0 <= i < |r| && r[i].key == j
    {
      if j == x.key {
        assert r[p] == x;
      } else {
        var i :| 0 <= i < |s| && s[i].key == j;
        if i < p {
          assert r[i] == s[i];
        } else {
          assert r[i + 1] == s[i];
        }
      }
    }
  }

  /** The rows of `wanted`, each once, newest first. */
  method ListNewestFirst(rows: Keys, wanted: set<string>) returns (listed: seq<ApiKey>)
    requires wanted <= rows.Keys
    ensures ListsExactly(rows, listed, wanted)
  {
    var remaining := wanted;
    listed := [];
    while remaining != {}
      invariant remaining <= wanted
      invariant ListsExactly(rows, listed, wanted - remaining)
      decreases |remaining|
    {
      var k :| k in remaining;
      InsertStep(rows, listed, wanted - remaining, k);
      listed := InsertNewest(View(k, rows[k]), listed);
      assert wanted - (remaining - {k}) == (wanted - remaining) + {k};
      remaining := remaining - {k};
    }
    assert wanted - remaining == wanted;
  }

  /** `getActiveKeys`: clean up first, then list the keys still active and
      expiring after `now`, newest first. */
  method GetActiveKeys(keys: Keys, now: int) returns (after: Keys, listed: seq<ApiKey>)
    ensures after == CleanupExpiredKeys(keys, now)
    ensures NewestFirst(listed) && DistinctKeys(listed)
    ensures forall i :: 0 <= i < |listed| ==> listed[i].key in after && listed[i] == View(listed[i].key, after[listed[i].key])
    ensures forall k :: k in keys ==> (Listed(keys[k], now) <==> exists i :: 0 <= i < |listed| && listed[i].key == k)
  {
    after := CleanupExpiredKeys(keys, now);
    var wanted := set k | k in after && Listed(after[k], now);
    listed := ListNewestFirst(after, wanted);
    forall k | k in keys
      ensures Listed(keys[k], now) <==> exists i :: 0 <= i < |listed| && listed[i].key == k
    {
      assert Listed(after[k], now) == Listed(keys[k], now);
      assert Listed(keys[k], now) <==> k in wanted;
    }
  }

  /** A key that expires exactly now still validates but is not listed. */
  lemma KeyExpiringNowValidatesButIsNotListed(keys: Keys, key: string, now: int)
    requires key in keys && keys[key].isActive && keys[key].expiresAt == now
    ensures ValidateApiKey(keys, key, now).valid
    ensures !Listed(keys[key], now) && !Listed(CleanupExpiredKeys(keys, now)[key], now)
  {
  }
}
