/** The string handling of the HTTP endpoints: reading the bearer token from
    the `Authorization` header, and building the websocket URL the meeting
    bot streams to. */
module Endpoints {
  import opened Text
  import opened Wrappers

  const BearerPrefix: string := "Bearer "

  /** `authorization.replace("Bearer ", "")`: every occurrence of the prefix
      is removed, wherever it stands. */
  function StripBearer(authorization: string): string {
    ReplaceAll(authorization, BearerPrefix, "")
  }

  /** The guard in front of every authenticated endpoint: a missing or empty
      header is refused (the endpoint answers 401 "No token provided");
      otherwise the token handed to user verification is the stripped
      header. */
  function RequestToken(authorization: Option<string>): (token: Option<string>)
    ensures token.None? <==> authorization.None? || authorization.value == ""
    ensures token.Some? ==> token.value == StripBearer(authorization.value)
    ensures token.Some? ==> |token.value| <= |authorization.value|
  {
    if authorization.None? || authorization.value == "" then None
    else
      StripBearerLength(authorization.value);
      Some(StripBearer(authorization.value))
  }

  /** The well-formed header `Bearer <t>` yields exactly `t`. */
  lemma StripBearerPrefixed(t: string)
    requires !Contains(t, BearerPrefix)
    ensures StripBearer(BearerPrefix + t) == t
  {
    ReplaceAllLeading(BearerPrefix, t, "");
    ReplaceAllAbsent(t, BearerPrefix, "");
  }

  /** The guard hands on exactly `t` for the header `Bearer <t>`. */
  lemma RequestTokenBearer(t: string)
    requires !Contains(t, BearerPrefix)
    ensures RequestToken(Some(BearerPrefix + t)) == Some(t)
  {
    StripBearerPrefixed(t);
  }

  /** A header is passed on unchanged exactly when it holds no prefix. */
  lemma StripBearerIdentity(authorization: string)
    ensures StripBearer(authorization) == authorization <==> !Contains(authorization, BearerPrefix)
  {
    ReplaceAllIdentityIff(authorization, BearerPrefix, "");
  }

  /** Each removed prefix shortens the header by its seven characters. */
  lemma StripBearerLength(authorization: string)
    ensures |StripBearer(authorization)| == |authorization| - 7 * Count(authorization, BearerPrefix)
  {
    ReplaceAllLength(authorization, BearerPrefix, "");
  }

  /** `public_url.replace("https://", "wss://").replace("http://", "ws://")`. */
  function WebSocketBase(publicUrl: string): string {
    ReplaceAll(ReplaceAll(publicUrl, "https://", "wss://"), "http://", "ws://")
  }

  /** The URL handed to the meeting bot for its audio stream. */
  function BotOutputUrl(publicUrl: string, sessionId: string, dbSessionId: string): string {
    WebSocketBase(publicUrl) + "/ws/meeting-baas/" + sessionId + "?db_session_id=" + dbSessionId
  }

  /** No scheme to rewrite: the base is the public URL itself. */
  lemma WebSocketBaseUnchanged(publicUrl: string)
    requires !Contains(publicUrl, "https://") && !Contains(publicUrl, "http://")
    ensures WebSocketBase(publicUrl) == publicUrl
  {
    ReplaceAllAbsent(publicUrl, "https://", "wss://");
    ReplaceAllAbsent(publicUrl, "http://", "ws://");
  }

  /** A secure public URL gets the secure websocket scheme. */
  lemma WebSocketBaseHttps(rest: string)
    requires !Contains(rest, "https://") && !Contains(rest, "http://")
    ensures WebSocketBase("https://" + rest) == "wss://" + rest
  {
    ReplaceAllLeading("https://", rest, "wss://");
    ReplaceAllAbsent(rest, "https://", "wss://");
    ReplaceAllSkipsPrefix("wss://", rest, "http://", "ws://");
    ReplaceAllAbsent(rest, "http://", "ws://");
  }

  /** A plain public URL gets the plain websocket scheme. */
  lemma WebSocketBaseHttp(rest: string)
    requires !Contains(rest, "https://") && !Contains(rest, "http://")
    ensures WebSocketBase("http://" + rest) == "ws://" + rest
  {
    var u := "http://" + rest;
    if |u| >= 8 {
      assert u[..8][4] == ':';
    }
    assert u[1..] == "ttp://" + rest;
    ReplaceAllSkipsPrefix("ttp://", rest, "https://", "wss://");
    ReplaceAllAbsent(rest, "https://", "wss://");
    assert ReplaceAll(u, "https://", "wss://") == u;
    ReplaceAllLeading("http://", rest, "ws://");
    ReplaceAllAbsent(rest, "http://", "ws://");
  }

  /** For `https://<host>` the bot streams to
      `wss://<host>/ws/meeting-baas/<session>?db_session_id=<db session>`. */
  lemma BotOutputUrlHttps(host: string, sessionId: string, dbSessionId: string)
    requires !Contains(host, "https://") && !Contains(host, "http://")
    ensures BotOutputUrl("https://" + host, sessionId, dbSessionId)
         == "wss://" + host + "/ws/meeting-baas/" + sessionId + "?db_session_id=" + dbSessionId
  {
    WebSocketBaseHttps(host);
  }

  /** For `http://<host>` the bot streams to
      `ws://<host>/ws/meeting-baas/<session>?db_session_id=<db session>`. */
  lemma BotOutputUrlHttp(host: string, sessionId: string, dbSessionId: string)
    requires !Contains(host, "https://") && !Contains(host, "http://")
    ensures BotOutputUrl("http://" + host, sessionId, dbSessionId)
         == "ws://" + host + "/ws/meeting-baas/" + sessionId + "?db_session_id=" + dbSessionId
  {
    WebSocketBaseHttp(host);
  }
}
