/**
 * The handover-token table of the HTTP cross-node service (Go file
 * `backend/internal/sim/http_cross_node_service.go`): a node issues a token
 * when a player leaves for another node, and the receiving node accepts the
 * player when it holds a live token addressed to it.
 *
 * Times are milliseconds; clock readings and random bytes are parameters,
 * `None` standing for a failed random read.
 */
module CrossNodeService {
  import opened Wrappers
  import opened Text
  import opened Spatial

  /** The record stored under a token string; `fromCell` is left at its zero value by the issuer. */
  datatype HandoverToken = HandoverToken(
    playerId: string,
    fromNode: string,
    toNode: string,
    fromCell: CellKey,
    toCell: CellKey,
    issuedAt: int,
    expiresAt: int)

  datatype HandoverResponse = HandoverResponse(success: bool, error: string, resumeToken: string, targetWsUrl: string)

  /** A handover token lives 30 seconds. */
  const HandoverTokenTtl: int := 30000

  const TokenBytes: nat := 16

  const ErrNotFound: string := "handover token not found"
  const ErrExpired: string := "handover token expired"
  const ErrInvalidPrefix: string := "invalid handover token: "
  const ErrWrongNode: string := "handover token not intended for this node"

  /** The token is known and `now` is not after its expiry instant. */
  predicate Live(tokens: map<string, HandoverToken>, token: string, now: int)
  {
    token in tokens && now <= tokens[token].expiresAt
  }

  /** What `ValidateHandoverToken` answers: the stored record of a live token, otherwise why not. */
  function Validation(tokens: map<string, HandoverToken>, token: string, now: int): (r: Result<HandoverToken, string>)
    ensures r.Ok? <==> Live(tokens, token, now)
    ensures r.Ok? ==> r.value == tokens[token]
    ensures r.Err? ==> r.error == (if token in tokens then ErrExpired else ErrNotFound)
  {
    if token !in tokens then Err(ErrNotFound)
    else if now > tokens[token].expiresAt then Err(ErrExpired)
    else Ok(tokens[token])
  }

  /** The table after validation: a token found expired is dropped, nothing else changes. */
  function AfterValidation(tokens: map<string, HandoverToken>, token: string, now: int): (r: map<string, HandoverToken>)
    ensures forall t :: t != token ==> (t in r <==> t in tokens)
    ensures forall t :: t in r ==> t in tokens && r[t] == tokens[t]
    ensures token in r <==> Live(tokens, token, now)
  {
    if token in tokens && now > tokens[token].expiresAt then tokens - {token} else tokens
  }

  /** The WebSocket URL a player is sent to on this node. */
  function LocalWsUrl(port: int): string
  {
    "ws://localhost:" + IntToString(port) + "/ws"
  }

  /**
   * The answer of `AcceptHandover`: failure for a token that does not validate
   * or is addressed to another node, otherwise success with the resume token
   * and this node's URL.
   */
  function Acceptance(tokens: map<string, HandoverToken>, token: string, now: int, nodeId: string, port: int, resumeToken: string): (r: HandoverResponse)
    ensures r.success <==> Live(tokens, token, now) && tokens[token].toNode == nodeId
    ensures r.success ==> r.error == "" && r.resumeToken == resumeToken && r.targetWsUrl == LocalWsUrl(port)
    ensures !r.success ==> r.resumeToken == "" && r.targetWsUrl == ""
    ensures !Live(tokens, token, now) ==> r.error == ErrInvalidPrefix + Validation(tokens, token, now).error
    ensures Live(tokens, token, now) && !r.success ==> r.error == ErrWrongNode
  {
    match Validation(tokens, token, now)
    case Err(e) => HandoverResponse(false, ErrInvalidPrefix + e, "", "")
    case Ok(t) =>
      if t.toNode != nodeId then HandoverResponse(false, ErrWrongNode, "", "")
      else HandoverResponse(true, "", resumeToken, LocalWsUrl(port))
  }

  /** The tokens `CleanupExpiredTokens` keeps: those whose expiry instant is not before `now`. */
  function Unexpired(tokens: map<string, HandoverToken>, now: int): (r: map<string, HandoverToken>)
    ensures forall t :: t in r <==> Live(tokens, t, now)
    ensures forall t :: t in r ==> t in tokens && r[t] == tokens[t]
  {
    map t | t in tokens && now <= tokens[t].expiresAt :: tokens[t]
  }

  /** Cleaning up twice at the same instant removes nothing more. */
  lemma CleanupIdempotent(tokens: map<string, HandoverToken>, now: int)
    ensures Unexpired(Unexpired(tokens, now), now) == Unexpired(tokens, now)
  {
  }

  /**
   * Cleanup does not change which tokens validate, nor the record they
   * validate to; only the message for an expired token changes to "not found".
   */
  lemma CleanupKeepsValidation(tokens: map<string, HandoverToken>, token: string, now: int)
    ensures Validation(Unexpired(tokens, now), token, now).Ok? == Validation(tokens, token, now).Ok?
    ensures Validation(tokens, token, now).Ok? ==> Validation(Unexpired(tokens, now), token, now) == Validation(tokens, token, now)
  {
  }

  /** A token issued at `now` by this table is accepted by a node of the given ID until its expiry, and then refused. */
  lemma IssuedTokenAccepted(tokens: map<string, HandoverToken>, token: string, rec: HandoverToken, now: int, port: int, resume: string)
    requires rec.expiresAt == rec.issuedAt + HandoverTokenTtl
    requires rec.issuedAt <= now <= rec.expiresAt
    ensures Acceptance(tokens[token := rec], token, now, rec.toNode, port, resume).success
    ensures !Acceptance(tokens[token := rec], token, rec.expiresAt + 1, rec.toNode, port, resume).success
  {
  }

  class HttpCrossNodeService {
    const nodeId: string
    const localPort: int
    var tokens: map<string, HandoverToken>

    constructor(nodeId: string, localPort: int)
      ensures this.nodeId == nodeId && this.localPort == localPort && tokens == map[]
    {
      this.nodeId := nodeId;
      this.localPort := localPort;
      tokens := map[];
    }

    /**
     * Issues a token for a player leaving towards `targetNode`: the record is
     * stored under the hex form of the random bytes and expires 30 seconds
     * after `now`. A failed random read stores nothing.
     */
    method InitiateHandover(playerId: string, targetNode: string, targetCell: CellKey, now: int, random: Option<seq<Byte>>)
      returns (r: Result<HandoverToken, string>)
      requires random.Some? ==> |random.value| == TokenBytes
      modifies this`tokens
      ensures random.None? <==> r.Err?
      ensures random.None? ==> tokens == old(tokens)
      ensures r.Ok? ==> r.value == HandoverToken(playerId, nodeId, targetNode, CellKey(0, 0), targetCell, now, now + HandoverTokenTtl)
      ensures r.Ok? ==> tokens == old(tokens)[HexEncode(random.value) := r.value]
    {
      if random.None? {
        return Err("failed to generate handover token");
      }
      var key := HexEncode(random.value);
      var rec := HandoverToken(playerId, nodeId, targetNode, CellKey(0, 0), targetCell, now, now + HandoverTokenTtl);
      tokens := tokens[key := rec];
      r := Ok(rec);
    }

    /** The record of a live token; an expired one is removed as it is found. */
    method ValidateHandoverToken(token: string, now: int) returns (r: Result<HandoverToken, string>)
      modifies this`tokens
      ensures r == Validation(old(tokens), token, now)
      ensures tokens == AfterValidation(old(tokens), token, now)
    {
      if token !in tokens {
        return Err(ErrNotFound);
      }
      var t := tokens[token];
      if now > t.expiresAt {
        tokens := tokens - {token};
        return Err(ErrExpired);
      }
      r := Ok(t);
    }

    /** Accepts an incoming player on a live token addressed to this node; `random` feeds the resume token. */
    method AcceptHandover(token: string, now: int, random: Option<seq<Byte>>) returns (r: HandoverResponse)
      requires random.Some? ==> |random.value| == TokenBytes
      modifies this`tokens
      ensures r == Acceptance(old(tokens), token, now, nodeId, localPort, GenerateResumeToken(random))
      ensures tokens == AfterValidation(old(tokens), token, now)
    {
      var v := ValidateHandoverToken(token, now);
      if v.Err? {
        return HandoverResponse(false, ErrInvalidPrefix + v.error, "", "");
      }
      if v.value.toNode != nodeId {
        return HandoverResponse(false, ErrWrongNode, "", "");
      }
      var resume := GenerateResumeToken(random);
      r := HandoverResponse(true, "", resume, LocalWsUrl(localPort));
    }

    /** Removes every token whose expiry instant lies before `now`. */
    method CleanupExpiredTokens(now: int)
      modifies this`tokens
      ensures tokens == Unexpired(old(tokens), now)
    {
      var pending := tokens.Keys;
      while pending != {}
        invariant pending <= old(tokens).Keys
        invariant forall t :: t in tokens <==> t in old(tokens) && (t in pending || now <= old(tokens)[t].expiresAt)
        invariant forall t :: t in tokens ==> tokens[t] == old(tokens)[t]
        decreases pending
      {
        var t :| t in pending;
        if now > tokens[t].expiresAt {
          tokens := tokens - {t};
        }
        pending := pending - {t};
      }
    }
  }

  /** A resume token for the accepted player: 32 hex digits, or "" when the random read fails. */
  function GenerateResumeToken(random: Option<seq<Byte>>): (r: string)
    requires random.Some? ==> |random.value| == TokenBytes
    ensures random.None? <==> r == ""
    ensures random.Some? ==> |r| == 2 * TokenBytes && HexDecode(r) == random.value
  {
    match random
    case None => ""
    case Some(b) => HexRoundTrip(b); HexEncode(b)
  }
}
