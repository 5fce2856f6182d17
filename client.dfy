/**
  The `TTYDClient` object: it authenticates with HTTP Basic credentials
  (section 2 of RFC 7617), sends the in-band handshake when the transport
  opens, turns inbound frames into output callbacks, and forwards outbound
  data and close requests to the transport.

  The WebSocket is abstract: everything the client hands to it, and every
  callback or diagnostic it produces, is appended to one log, in order.
 */
module Client {
  import opened Common
  import Utf8
  import Base64
  import Json
  import Frame

  /** `Buffer.from(`${username}:${password}`)`: the UTF-8 octets of the user-pass. */
  function Credentials(username: string, password: string): (c: seq<Byte>)
    ensures c == Utf8.Encode(username) + [':' as int] + Utf8.Encode(password)
  {
    Utf8.EncodeAppend(username, ":" + password);
    Utf8.EncodeAppend(":", password);
    assert Utf8.Encode(":") == [':' as int] + Utf8.Encode([]);
    assert username + ":" + password == username + (":" + password);
    Utf8.Encode(username + ":" + password)
  }

  /** The base64 token that goes both into the header and into the handshake. */
  function Token(username: string, password: string): (t: string)
    ensures |t| == 4 * ((|Credentials(username, password)| + 2) / 3)
    ensures forall i :: 0 <= i < |t| ==> Base64.IsAlphabetChar(t[i]) || t[i] == Base64.Pad
    ensures Base64.Decode(t) == Some(Utf8.Encode(username) + [':' as int] + Utf8.Encode(password))
  {
    var c := Credentials(username, password);
    Base64.DecodeEncode(c);
    Base64.Encode(c)
  }

  const BasicScheme: string := "Basic "

  /** The value of the Authorization header of the WebSocket upgrade request. */
  function AuthorizationHeader(username: string, password: string): (h: string)
    ensures |h| > |BasicScheme| && h[..|BasicScheme|] == BasicScheme
    ensures Base64.Decode(h[|BasicScheme|..]) == Some(Credentials(username, password))
  {
    var t := Token(username, password);
    assert (BasicScheme + t)[|BasicScheme|..] == t;
    BasicScheme + t
  }

  /** The token needs no JSON escaping, so the handshake message is the token
      from the header, between `{"AuthToken":"` and `"}`. */
  lemma HandshakeCarriesHeaderToken(username: string, password: string)
    ensures Json.HandshakeMessage(Token(username, password))
         == Json.HandshakePrefix + AuthorizationHeader(username, password)[|BasicScheme|..] + Json.HandshakeSuffix
  {
    var t := Token(username, password);
    forall i | 0 <= i < |t| ensures !Json.NeedsEscape(t[i]) {
    }
    Json.HandshakePlain(t);
    assert AuthorizationHeader(username, password)[|BasicScheme|..] == t;
  }

  /** The token determines the user-pass it was made from: equal tokens come
      only from equal `username:password` strings. */
  lemma TokenDeterminesUserPass(u1: string, p1: string, u2: string, p2: string)
    requires Token(u1, p1) == Token(u2, p2)
    ensures u1 + ":" + p1 == u2 + ":" + p2
  {
    Base64.DecodeEncode(Credentials(u1, p1));
    Base64.DecodeEncode(Credentials(u2, p2));
    assert Credentials(u1, p1) == Credentials(u2, p2);
    Utf8.EncodeInjective(u1 + ":" + p1, u2 + ":" + p2);
  }

  /** The transport's connection state, as its notifications reveal it. */
  datatype TransportState = Connecting | Open | Closed

  /** One step of the client's observable behaviour. */
  datatype Entry =
    | Opened                           // the transport reported 'open'
    | Sent(data: Frame.Data)           // handed to the transport's send
    | Output(text: string)             // onOutput(text)
    | Warn(tag: char)                  // the unknown-message-type warning
    | Info(data: Frame.Data)           // the non-binary-message information line
    | CloseRequested                   // the transport's close was called
    | ClosedWith(code: int, reason: string)  // onClose(code, reason)
    | Failed(error: string)            // onError(err)

  /** What the message handler produces for one decoded event. */
  function Effects(e: Frame.Event): (r: seq<Entry>)
    ensures |r| <= 1
    ensures e.Ignored? <==> r == []
    ensures e.NonBinary? ==> r == [Info(e.data)]
  {
    match e
    case Output(text) => [Output(text)]
    case Ignored(_) => []
    case Unknown(tag) => [Warn(tag)]
    case NonBinary(data) => [Info(data)]
  }

  /** The items that `pick` selects from a log, in order. */
  function Collect<T>(log: seq<Entry>, pick: Entry -> Option<T>): (r: seq<T>)
    ensures |r| <= |log|
  {
    if log == [] then []
    else (match pick(log[0]) case Some(x) => [x] case None => []) + Collect(log[1..], pick)
  }

  lemma {:induction false} CollectAppend<T>(a: seq<Entry>, b: seq<Entry>, pick: Entry -> Option<T>)
    ensures Collect(a + b, pick) == Collect(a, pick) + Collect(b, pick)
  {
    if a == [] {
      assert a + b == b;
    } else {
      assert (a + b)[1..] == a[1..] + b;
      CollectAppend(a[1..], b, pick);
    }
  }

  function PickOutput(e: Entry): Option<string> {
    if e.Output? then Some(e.text) else None
  }

  function PickSent(e: Entry): Option<Frame.Data> {
    if e.Sent? then Some(e.data) else None
  }

  function PickWarn(e: Entry): Option<char> {
    if e.Warn? then Some(e.tag) else None
  }

  /** The texts passed to onOutput. */
  function Outputs(log: seq<Entry>): seq<string> {
    Collect(log, PickOutput)
  }

  /** The messages handed to the transport. */
  function Sends(log: seq<Entry>): seq<Frame.Data> {
    Collect(log, PickSent)
  }

  /** The tags named by warnings. */
  function Warnings(log: seq<Entry>): seq<char> {
    Collect(log, PickWarn)
  }

  /**
    One inbound message, seen through the log: an output frame yields exactly
    one onOutput call with its decoded payload and nothing is sent; the other
    kinds yield no output; only unknown tags (the empty message among them)
    yield a warning, naming the tag.
   */
  lemma HandleMessageEffects(m: Frame.Data, utf8: seq<Byte> -> string)
    ensures var r := Effects(Frame.Decode(m, utf8));
      && Sends(r) == []
      && Outputs(r) == (if m.Binary? && |m.bytes| > 0 && m.bytes[0] == '0' as int then [utf8(m.bytes[1..])] else [])
      && Warnings(r) == (if m.Binary? && (|m.bytes| == 0 || m.bytes[0] !in {'0' as int, '1' as int, '2' as int})
                         then [Frame.Tag(m.bytes)] else [])
      && (m.Text? ==> r == [Info(m)])
  {
    var r := Effects(Frame.Decode(m, utf8));
    if r != [] {
      assert r[1..] == [];
    }
  }

  /** The transport is told to send the handshake right after every 'open'. */
  ghost predicate HandshakeFollowsOpen(log: seq<Entry>, token: string) {
    forall i :: 0 <= i < |log| && log[i] == Opened ==>
      i + 1 < |log| && log[i + 1] == Sent(Frame.Text(Json.HandshakeMessage(token)))
  }

  lemma HandshakeFollowsOpenAppend(log: seq<Entry>, token: string, more: seq<Entry>)
    requires HandshakeFollowsOpen(log, token)
    requires forall j :: 0 <= j < |more| ==> more[j] != Opened
    ensures HandshakeFollowsOpen(log + more, token)
  {
    var all := log + more;
    assert forall j :: |log| <= j < |all| ==> all[j] == more[j - |log|];
  }

  /** Appending the open notification together with the handshake keeps the order. */
  lemma HandshakeFollowsOpenExtend(log: seq<Entry>, token: string)
    requires HandshakeFollowsOpen(log, token)
    ensures HandshakeFollowsOpen(log + [Opened, Sent(Frame.Text(Json.HandshakeMessage(token)))], token)
  {
    var all := log + [Opened, Sent(Frame.Text(Json.HandshakeMessage(token)))];
    assert forall j :: 0 <= j < |log| ==> all[j] == log[j];
  }

  /** An open notification followed by a message adds just that message to the sends. */
  lemma SendsOfOpen(log: seq<Entry>, message: string)
    ensures Sends(log + [Opened, Sent(Frame.Text(message))]) == Sends(log) + [Frame.Text(message)]
  {
    var extra := [Opened, Sent(Frame.Text(message))];
    CollectAppend(log, extra, PickSent);
    assert extra[1..] == [Sent(Frame.Text(message))];
    assert extra[1..][1..] == [];
  }

  class TTYDClient {
    const wsUrl: string
    const username: string
    const password: string
    /** `new TextDecoder('utf-8').decode`, left uninterpreted. */
    const utf8: seq<Byte> -> string

    /** The Authorization header of the current transport. */
    var authHeader: string
    /** The token the current transport's 'open' listener sends. */
    var token: string
    var state: TransportState
    var log: seq<Entry>

    ghost predicate LogValid()
      reads this
    {
      HandshakeFollowsOpen(log, Token(username, password))
    }

    ghost predicate Valid()
      reads this
    {
      && LogValid()
      && token == Token(username, password)
      && authHeader == AuthorizationHeader(username, password)
    }

    /** Stores the options and connects. */
    constructor (wsUrl: string, username: string, password: string, utf8: seq<Byte> -> string)
      ensures this.wsUrl == wsUrl && this.username == username && this.password == password
      ensures this.utf8 == utf8
      ensures Valid() && state == Connecting && log == []
    {
      this.wsUrl := wsUrl;
      this.username := username;
      this.password := password;
      this.utf8 := utf8;
      authHeader, token := "", "";
      state := Connecting;
      log := [];
      new;
      Connect();
    }

    /** Computes the token and the header and replaces the transport by a new one. */
    method Connect()
      requires LogValid()
      modifies this
      ensures Valid()
      ensures token == Token(username, password)
      ensures authHeader == BasicScheme + token
      ensures state == Connecting && log == old(log)
    {
      token := Token(username, password);
      authHeader := BasicScheme + token;
      state := Connecting;
    }

    /** The transport's 'open' notification, which calls the open handler. */
    method OnOpen()
      requires Valid()
      modifies this`state, this`log
      ensures Valid() && state == Open
      ensures log == old(log) + [Opened, Sent(Frame.Text(Json.HandshakeMessage(token)))]
      ensures Sends(log) == old(Sends(log)) + [Frame.Text(Json.HandshakePrefix + authHeader[|BasicScheme|..] + Json.HandshakeSuffix)]
    {
      ghost var message := Json.HandshakeMessage(token);
      HandshakeFollowsOpenExtend(log, token);
      SendsOfOpen(log, message);
      HandshakeCarriesHeaderToken(username, password);
      assert message == Json.HandshakePrefix + authHeader[|BasicScheme|..] + Json.HandshakeSuffix;
      ghost var newLog := log + [Opened, Sent(Frame.Text(message))];
      assert HandshakeFollowsOpen(newLog, Token(username, password));
      state := Open;
      log := log + [Opened];
      HandleOpen(token);
      assert log == newLog;
    }

    /** Sends `JSON.stringify({AuthToken: t})`. */
    method HandleOpen(t: string)
      modifies this`log
      ensures log == old(log) + [Sent(Frame.Text(Json.HandshakeMessage(t)))]
    {
      log := log + [Sent(Frame.Text(Json.HandshakeMessage(t)))];
    }

    /** Dispatches one inbound message on its tag. */
    method HandleMessage(m: Frame.Data)
      requires Valid()
      modifies this`log
      ensures Valid()
      ensures log == old(log) + Effects(Frame.Decode(m, utf8))
      ensures Sends(log) == old(Sends(log))
      ensures Outputs(log) == old(Outputs(log)) +
        (if m.Binary? && |m.bytes| > 0 && m.bytes[0] == '0' as int then [utf8(m.bytes[1..])] else [])
    {
      var effects := Effects(Frame.Decode(m, utf8));
      HandshakeFollowsOpenAppend(log, token, effects);
      HandleMessageEffects(m, utf8);
      CollectAppend(log, effects, PickSent);
      CollectAppend(log, effects, PickOutput);
      log := log + effects;
    }

    /** The transport's 'close' notification, passed on to onClose. */
    method OnClose(code: int, reason: string)
      requires Valid()
      modifies this`state, this`log
      ensures Valid() && state == Closed
      ensures log == old(log) + [ClosedWith(code, reason)]
    {
      HandshakeFollowsOpenAppend(log, token, [ClosedWith(code, reason)]);
      state := Closed;
      log := log + [ClosedWith(code, reason)];
    }

    /** The transport's 'error' notification, passed on to onError. */
    method OnError(error: string)
      requires Valid()
      modifies this`log
      ensures Valid()
      ensures log == old(log) + [Failed(error)]
    {
      HandshakeFollowsOpenAppend(log, token, [Failed(error)]);
      log := log + [Failed(error)];
    }

    /** Hands `data` to the transport as it is, with no tag in front. */
    method Send(data: Frame.Data)
      requires Valid()
      modifies this`log
      ensures Valid()
      ensures log == old(log) + [Sent(data)]
      ensures Sends(log) == old(Sends(log)) + [data]
      ensures Outputs(log) == old(Outputs(log))
    {
      HandshakeFollowsOpenAppend(log, token, [Sent(data)]);
      CollectAppend(log, [Sent(data)], PickSent);
      CollectAppend(log, [Sent(data)], PickOutput);
      log := log + [Sent(data)];
    }

    /** Asks the transport to close; nothing else changes. */
    method Close()
      requires Valid()
      modifies this`log
      ensures Valid()
      ensures log == old(log) + [CloseRequested]
      ensures Sends(log) == old(Sends(log))
    {
      HandshakeFollowsOpenAppend(log, token, [CloseRequested]);
      CollectAppend(log, [CloseRequested], PickSent);
      log := log + [CloseRequested];
    }
  }
}
