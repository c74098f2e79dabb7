/**
 * Resume tokens of the WebSocket transport (Go file
 * `backend/internal/transport/ws/session.go`): a table from token to the
 * player it was issued to and its expiry instant.
 *
 * Times are milliseconds; the clock reading and the 16 random bytes are
 * parameters, `None` standing for a failed random read.
 */
module Session {
  import opened Wrappers
  import opened Text

  datatype ResumeEntry = ResumeEntry(playerId: string, exp: int)

  /** The lifetime of the process-wide default manager, 60 seconds. */
  const DefaultResumeTtl: int := 60000

  /** The number of random bytes behind a token. */
  const TokenBytes: nat := 16

  /**
   * What `Lookup` answers for `token` at `now`: the stored player while the
   * entry has not expired, and ("", false) for an unknown or expired token.
   */
  function LookupEntry(data: map<string, ResumeEntry>, token: string, now: int): (r: (string, bool))
    ensures r.1 <==> token in data && now <= data[token].exp
    ensures r.1 ==> r.0 == data[token].playerId
    ensures !r.1 ==> r.0 == ""
  {
    if token !in data then ("", false)
    else if now > data[token].exp then ("", false)
    else (data[token].playerId, true)
  }

  /** The table after `Lookup`: an entry found expired is dropped, nothing else changes. */
  function AfterLookup(data: map<string, ResumeEntry>, token: string, now: int): (r: map<string, ResumeEntry>)
    ensures forall t :: t != token ==> (t in r <==> t in data)
    ensures forall t :: t in r ==> t in data && r[t] == data[t]
    ensures token in r <==> LookupEntry(data, token, now).1
  {
    if token in data && now > data[token].exp then data - {token} else data
  }

  /** `Validate`: both arguments are non-empty and the token currently names exactly this player. */
  function Validates(data: map<string, ResumeEntry>, token: string, playerId: string, now: int): (r: bool)
    ensures r <==> token != "" && playerId != "" && token in data && now <= data[token].exp && data[token].playerId == playerId
  {
    if token == "" || playerId == "" then false
    else
      var (p, ok) := LookupEntry(data, token, now);
      ok && p == playerId
  }

  /**
   * A freshly issued token validates for its player from the issuing instant
   * up to and including the expiry instant, and for nobody else; one
   * millisecond later it no longer validates.
   */
  lemma IssuedTokenValidates(data: map<string, ResumeEntry>, token: string, playerId: string, other: string, issuedAt: int, ttl: int, now: int)
    requires token != "" && playerId != ""
    requires issuedAt <= now <= issuedAt + ttl
    requires other != playerId
    ensures Validates(data[token := ResumeEntry(playerId, issuedAt + ttl)], token, playerId, now)
    ensures !Validates(data[token := ResumeEntry(playerId, issuedAt + ttl)], token, other, now)
    ensures !Validates(data[token := ResumeEntry(playerId, issuedAt + ttl)], token, playerId, issuedAt + ttl + 1)
  {
  }

  /** A token is valid for at most one player at any instant. */
  lemma ValidForOnePlayer(data: map<string, ResumeEntry>, token: string, p1: string, p2: string, now: int)
    requires Validates(data, token, p1, now) && Validates(data, token, p2, now)
    ensures p1 == p2
  {
  }

  /** Once a lookup has dropped an expired token, it stays unknown. */
  lemma ExpiredStaysGone(data: map<string, ResumeEntry>, token: string, now: int, later: int)
    requires token in data && now > data[token].exp
    ensures LookupEntry(AfterLookup(data, token, now), token, later) == ("", false)
  {
  }

  /** Different random bytes give different tokens, so an issue never overwrites another player's token by accident. */
  lemma DistinctBytesDistinctTokens(b1: seq<Byte>, b2: seq<Byte>)
    requires b1 != b2
    ensures HexEncode(b1) != HexEncode(b2)
  {
    HexRoundTrip(b1);
    HexRoundTrip(b2);
  }

  class ResumeManager {
    const ttl: int
    var data: map<string, ResumeEntry>

    constructor(ttl: int)
      ensures this.ttl == ttl && data == map[]
    {
      this.ttl := ttl;
      data := map[];
    }

    /**
     * Issues a token for `playerId`: the hex form of the random bytes, stored
     * with expiry `now + ttl`. A failed random read issues "" and stores nothing.
     */
    method Issue(playerId: string, now: int, random: Option<seq<Byte>>) returns (token: string)
      requires random.Some? ==> |random.value| == TokenBytes
      modifies this`data
      ensures random.None? ==> token == "" && data == old(data)
      ensures random.Some? ==> |token| == 2 * TokenBytes && token == HexEncode(random.value)
      ensures random.Some? ==> data == old(data)[token := ResumeEntry(playerId, now + ttl)]
    {
      if random.None? {
        return "";
      }
      token := HexEncode(random.value);
      data := data[token := ResumeEntry(playerId, now + ttl)];
    }

    /** The player of a live token; an expired one is removed as it is found. */
    method Lookup(token: string, now: int) returns (playerId: string, ok: bool)
      modifies this`data
      ensures (playerId, ok) == LookupEntry(old(data), token, now)
      ensures data == AfterLookup(old(data), token, now)
    {
      if token !in data {
        return "", false;
      }
      var e := data[token];
      if now > e.exp {
        data := data - {token};
        return "", false;
      }
      return e.playerId, true;
    }

    /** Empty arguments are refused without a lookup; otherwise the token must name this player. */
    method Validate(token: string, playerId: string, now: int) returns (ok: bool)
      modifies this`data
      ensures ok == Validates(old(data), token, playerId, now)
      ensures data == if token == "" || playerId == "" then old(data) else AfterLookup(old(data), token, now)
    {
      if token == "" || playerId == "" {
        return false;
      }
      var p, found := Lookup(token, now);
      ok := found && p == playerId;
    }
  }
}
