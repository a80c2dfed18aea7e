/** The in-memory blacklist of invalidated access tokens: a map from token to
    the time it expires, so that expired entries can be dropped. */
module TokenBlacklist {

  type Blacklist = map<string, int>

  /** `blacklist(token, expiresAt)`: insert, or overwrite the expiry. */
  function Add(list: Blacklist, token: string, expiresAt: int): (r: Blacklist)
    ensures r.Keys == list.Keys + {token}
    ensures r[token] == expiresAt
    ensures forall t :: t in list && t != token ==> r[t] == list[t]
  {
    list[token := expiresAt]
  }

  /** `isBlacklisted(token)`: membership alone; the expiry is not consulted. */
  predicate IsBlacklisted(list: Blacklist, token: string) { token in list }

  /** `getCount()`: the number of distinct tokens held. */
  function Count(list: Blacklist): nat { |list.Keys| }

  /** A blacklisted token is reported until cleanup removes it, whatever its
      expiry; blacklisting it again overwrites the expiry and keeps the
      count, and blacklisting a new token adds one. */
  lemma AddThenLookup(list: Blacklist, token: string, expiresAt: int)
    ensures IsBlacklisted(Add(list, token, expiresAt), token)
    ensures token in list ==> Count(Add(list, token, expiresAt)) == Count(list)
    ensures token !in list ==> Count(Add(list, token, expiresAt)) == Count(list) + 1
  {
    if token in list {
      assert Add(list, token, expiresAt).Keys == list.Keys;
    }
  }

  /** `cleanup()`: drop every entry whose expiry is before `now`. */
  function Cleanup(list: Blacklist, now: int): (r: Blacklist)
    ensures forall t :: t in list ==> (t in r <==> list[t] >= now)
    ensures forall t :: t in r ==> t in list && r[t] == list[t]
    ensures Count(r) <= Count(list)
  {
    var r := map t | t in list && list[t] >= now :: list[t];
    assert list.Keys == r.Keys + (list.Keys - r.Keys);
    r
  }

  /** Cleaning up at the same time twice is the same as once, and cleaning up
      at a later time removes at least what an earlier one did. */
  lemma CleanupIsMonotone(list: Blacklist, early: int, late: int)
    requires early <= late
    ensures Cleanup(Cleanup(list, early), early) == Cleanup(list, early)
    ensures Cleanup(list, late).Keys <= Cleanup(list, early).Keys
  {
  }
}
