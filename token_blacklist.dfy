/** The in-memory revocation table of backend/utils/tokenBlacklist.js: a map
    from a session token to the instant (milliseconds) until which it stays
    revoked. Entries past that instant are dropped lazily by a lookup and in
    bulk by the periodic sweep. */
module TokenBlacklist {
  import opened Common

  /** Whether a lookup at `now` reports `token` as revoked: the token is not
      empty and its entry has not passed (an entry holds through its own
      expiry instant and lapses only strictly after it). */
  predicate Revoked(entries: map<string, int>, token: string, now: int)
  {
    token != "" && token in entries && now <= entries[token]
  }

  /** The table after a lookup of `token` at `now`: a lapsed entry for that
      token is deleted, nothing else is touched. */
  function AfterLookup(entries: map<string, int>, token: string, now: int): (r: map<string, int>)
    ensures r.Keys <= entries.Keys && forall t :: t in r ==> r[t] == entries[t]
    ensures forall t :: t in entries && t !in r ==> t == token && now > entries[t]
  {
    if token != "" && token in entries && now > entries[token] then entries - {token} else entries
  }

  /** The table after the sweep at `now`: exactly the entries that have not
      lapsed, unchanged. */
  function Swept(entries: map<string, int>, now: int): (r: map<string, int>)
    ensures forall t :: t in r <==> t in entries && now <= entries[t]
    ensures forall t :: t in r ==> r[t] == entries[t]
  {
    map t | t in entries && now <= entries[t] :: entries[t]
  }

  /** Neither form of eviction changes any answer given at the same instant:
      they only forget entries whose answer was already "not revoked". */
  lemma EvictionKeepsAnswers(entries: map<string, int>, token: string, now: int, t: string)
    ensures Revoked(AfterLookup(entries, token, now), t, now) == Revoked(entries, t, now)
    ensures Revoked(Swept(entries, now), t, now) == Revoked(entries, t, now)
  {
  }

  /** Nor any answer given later: an entry evicted at `now` would have lapsed
      for every later lookup too. */
  lemma {:induction false} EvictionKeepsLaterAnswers(entries: map<string, int>, now: int, later: int, t: string)
    requires now <= later
    ensures Revoked(Swept(entries, now), t, later) == Revoked(entries, t, later)
  {
    if t in entries && t !in Swept(entries, now) {
      assert now > entries[t];
    }
  }

  class Blacklist {
    var entries: map<string, int>

    constructor ()
      ensures entries == map[]
    {
      entries := map[];
    }

    /** `addToBlacklist(token, expiresInMs)` at time `now`; an omitted
        lifetime means twenty-four hours. A token already present is given
        the new expiry. */
    method AddToBlacklist(token: string, expiresInMs: Option<int>, now: int)
      modifies this
      ensures entries == old(entries)[token := now + (if expiresInMs.Some? then expiresInMs.value else DAY_MS)]
      ensures Revoked(entries, token, now) <==> token != "" && (expiresInMs.None? || expiresInMs.value >= 0)
    {
      var ttl := if expiresInMs.Some? then expiresInMs.value else DAY_MS;
      entries := entries[token := now + ttl];
    }

    /** `isBlacklisted(token)` at time `now`. */
    method IsBlacklisted(token: string, now: int) returns (b: bool)
      modifies this
      ensures b == Revoked(old(entries), token, now)
      ensures entries == AfterLookup(old(entries), token, now)
    {
      if token == "" {
        return false;
      }
      if token !in entries {
        return false;
      }
      if now > entries[token] {
        entries := entries - {token};
        return false;
      }
      return true;
    }

    /** `cleanExpiredTokens()` at time `now`: deletes every lapsed entry and
        answers how many it deleted. */
    method CleanExpiredTokens(now: int) returns (cleaned: nat)
      modifies this
      ensures entries == Swept(old(entries), now)
      ensures cleaned + |entries| == |old(entries)|
    {
      ghost var orig := entries;
      var pending := entries.Keys;
      cleaned := 0;
      while pending != {}
        invariant pending <= orig.Keys
        invariant entries == map t | t in orig && (t in pending || now <= orig[t]) :: orig[t]
        invariant cleaned + |entries| == |orig|
        decreases |pending|
      {
        var t :| t in pending;
        if now > entries[t] {
          assert t in entries.Keys;
          entries := entries - {t};
          cleaned := cleaned + 1;
        }
        pending := pending - {t};
      }
    }
  }
}
