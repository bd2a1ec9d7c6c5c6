/**
 * The hourly sweep of expired activation and password-reset tokens. A row is
 * deleted when it expired strictly before the sweep's clock reading, which is
 * the same test the activation and reset endpoints apply, so a sweep never
 * changes what a later request decides.
 */
module TokenCleanup {
  import opened AccountRecords
  import opened Accounts

  /** The rows of a token table that a sweep at `now` keeps. */
  function Unexpired(t: map<TokenValue, TokenRow>, now: int): (r: map<TokenValue, TokenRow>)
    ensures forall v :: v in r <==> v in t && !Expired(t[v], now)
    ensures forall v :: v in r ==> r[v] == t[v]
  {
    map v | v in t && !Expired(t[v], now) :: t[v]
  }

  /** A sweep only deletes rows, so at most one token per user still holds afterwards. */
  lemma UnexpiredKeepsOnePerUser(t: map<TokenValue, TokenRow>, now: int)
    requires AtMostOnePerUser(t)
    ensures AtMostOnePerUser(Unexpired(t, now))
  {
    var r := Unexpired(t, now);
    forall a, b | a in r && b in r
      ensures r[a] == t[a] && r[b] == t[b]
    {
    }
  }

  /** A second sweep at the same time or earlier deletes nothing more. */
  lemma SweepIdempotent(t: map<TokenValue, TokenRow>, earlier: int, now: int)
    requires earlier <= now
    ensures Unexpired(Unexpired(t, now), earlier) == Unexpired(t, now)
  {
  }

  /** Sweeping at `earlier` and then at `now` is the same as sweeping once at `now`. */
  lemma SweepsCompose(t: map<TokenValue, TokenRow>, earlier: int, now: int)
    requires earlier <= now
    ensures Unexpired(Unexpired(t, earlier), now) == Unexpired(t, now)
  {
  }

  /** A sweep that ran no later than a request leaves the request's token check as it was. */
  lemma SweepInvisibleToRequests(t: map<TokenValue, TokenRow>, swept: int, now: int, v: TokenValue)
    requires swept <= now
    ensures (v in t && !Expired(t[v], now)) <==> (v in Unexpired(t, swept) && !Expired(Unexpired(t, swept)[v], now))
  {
  }

  /** `cleanup_expired_tokens`: both token tables lose their expired rows and nothing else changes. */
  method CleanupExpiredTokens(s: AccountStore, now: int)
    requires s.Valid()
    modifies s`activationTokens, s`resetTokens
    ensures s.Valid()
    ensures s.activationTokens == Unexpired(old(s.activationTokens), now)
    ensures s.resetTokens == Unexpired(old(s.resetTokens), now)
    ensures forall v :: v in s.activationTokens ==> !Expired(s.activationTokens[v], now)
    ensures forall v :: v in s.resetTokens ==> !Expired(s.resetTokens[v], now)
  {
    UnexpiredKeepsOnePerUser(s.activationTokens, now);
    UnexpiredKeepsOnePerUser(s.resetTokens, now);
    s.activationTokens := Unexpired(s.activationTokens, now);
    s.resetTokens := Unexpired(s.resetTokens, now);
  }
}
