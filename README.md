# ttyd client: message handling and authentication

A Dafny model of the `TTYDClient` class of a Node.js client for ttyd, a server
that shares a terminal over WebSocket. The class does three things:

- It authenticates. The WebSocket upgrade request carries
  `Authorization: Basic <token>`, where `<token>` is the base64 encoding
  (RFC 4648, section 4) of the UTF-8 octets of `username:password`
  (RFC 7617, section 2).
- When the transport reports `open`, it sends the in-band handshake
  `JSON.stringify({AuthToken: token})`. The token is the same one as in the header.
- It decodes every inbound message. A binary message is split into a one-octet
  ASCII tag and a payload:
  - `'0'` (output): the payload is decoded as UTF-8 and passed to `onOutput`.
  - `'1'` (set window title) and `'2'` (set preferences): ignored.
  - Any other tag, including the empty message: a warning naming the tag.
  - A non-binary message is only logged.

`send` and `close` pass straight through to the transport.

## Modules

- `Common` (common.dfy): octets and `Option`.
- `Utf8` (utf8.dfy): the UTF-8 encoder that `Buffer.from` applies to the user-pass, proved injective.
- `Base64` (base64.dfy): encoder and strict decoder. The encoder's contract states the
  length law and the alphabet. Decoding is proved to be the exact inverse of encoding,
  in both directions. The test vectors of section 10 of RFC 4648 are proved.
- `Json` (json.dfy): string quoting as `JSON.stringify` does it, the handshake message,
  and a reader for JSON string bodies. Reading the handshake gives the token back for
  any token. A token with no quote, backslash or control character appears verbatim.
- `Frame` (frame.dfy): the pure tag/payload split and the dispatch of the message handler.
- `Client` (client.dfy): the credentials, token and header. The class `TTYDClient`
  works over an abstract transport. Each method appends what it does to a log:
  - messages handed to the transport;
  - callbacks fired;
  - diagnostics written;
  - close requests made.

  The object invariant states that every `open` notification is followed at once by
  the handshake. That handshake is therefore the first message sent after open.

What lib/index.js does not do is not modelled:
- Text messages are only logged; they are never dispatched by tag.
- The handshake token is the base64 user-pass from the header; no token is fetched from a separate endpoint.
- The handshake JSON has no white space.
- The class has no session state machine, no idle timeout and no forced close.

## Model

| member | source | states |
|---|---|---|
| `Base64.CharOf` | lib/index.js:16 | every 6-bit value maps to a character of the base64 alphabet |
| `Base64.ValueOf` | lib/index.js:16 | every alphabet character has a 6-bit value, and mapping that value back gives the same character |
| `Base64.Encode` | lib/index.js:16 | the encoding of n octets has 4*ceil(n/3) characters, each from the alphabet or `=` |
| `Base64.DecodeEncode` | lib/index.js:16 | decoding the encoding of any octet sequence gives that sequence back |
| `Base64.EncodeDecode` | lib/index.js:16 | whatever the decoder accepts is the encoding of its result, so only canonical text decodes |
| `Base64.DecodeIffEncode` | lib/index.js:16 | Decode(s) == Some(b) exactly when Encode(b) == s |
| `Base64.TestVectors` | lib/index.js:16 | the encoder produces the RFC 4648 section 10 test vectors |
| `Utf8.EncodeChar` | lib/index.js:16 | a character becomes 1 to 4 octets; exactly the ASCII ones become one octet equal to their code; the lead octet announces the sequence length and the other octets are continuation octets 0x80-0xBF |
| `Utf8.EncodeCharInjective` | lib/index.js:16 | distinct characters have distinct encodings |
| `Utf8.EncodeInjective` | lib/index.js:16 | distinct strings have distinct encodings |
| `Utf8.Encode` | lib/index.js:16 | the encoding of a string has between 1 and 4 octets per character |
| `Utf8.EncodeAppend` | lib/index.js:16 | encoding distributes over the concatenation in the `username:password` template |
| `Utf8.EncodeAscii` | lib/index.js:16 | an ASCII string encodes to its character codes |
| `Utf8.AsciiOctetIsChar` | lib/index.js:16 | an octet below 0x80 in an encoding is a character of the string, so the colon octet is a real colon |
| `Json.EscapeChar` | lib/index.js:37 | a character is written unchanged exactly when it is not a quote, backslash or control character; otherwise it becomes an escape starting with a backslash |
| `Json.EscapePlain` | lib/index.js:37 | a string with no character needing escape is written as it is |
| `Json.HandshakePlain` | lib/index.js:36-37 | for such a token, the handshake is `{"AuthToken":"` + token + `"}` |
| `Json.Escape` | lib/index.js:37 | the escaped text is at least as long as the string; `UnescapeEscape` proves that a JSON reader gets the string back |
| `Json.Quote` | lib/index.js:37 | the JSON text of a string starts and ends with a quote; the escaped characters between the quotes read back to the string (`UnescapeEscape`) |
| `Json.HandshakeMessage` | lib/index.js:36-37 | `JSON.stringify({AuthToken: token})` starts with `{"AuthToken":"` and ends with `"}`; `ReadHandshakeMessage` proves that it carries exactly the token |
| `Json.UnescapeEscape` | lib/index.js:37 | reading an escaped string body gives back the string |
| `Json.ReadHandshakeMessage` | lib/index.js:36-37 | a JSON reader finds in the handshake exactly the token, for every token |
| `Frame.Tag` | lib/index.js:43 | the tag is the character with the first octet's code; for an empty buffer it is U+0000 |
| `Frame.Payload` | lib/index.js:44 | the payload is the input without its first octet, of length max(n-1, 0) |
| `Frame.Decode` | lib/index.js:40-64 | only text is NonBinary and carries the message; exactly a leading `'0'` gives Output of the UTF-8 decode of the octets after it; exactly `'1'`/`'2'` are Ignored; Unknown carries the tag |
| `Frame.TagPayloadBuild` | lib/index.js:42-44 | splitting a frame built from a tag and a payload gives that tag and that payload |
| `Frame.BuildTagPayload` | lib/index.js:42-44 | every non-empty message is its tag octet followed by its payload |
| `Frame.DecodeOutputFrame` | lib/index.js:46-50 | an output frame is dispatched as Output of its decoded payload |
| `Frame.DecodeEmpty` | lib/index.js:43 | the empty binary message is Unknown with tag U+0000 |
| `Frame.DecodeUnknown` | lib/index.js:57-59 | a warning is produced exactly for the empty message and for first octets other than `'0'`, `'1'`, `'2'` |
| `Client.Credentials` | lib/index.js:16 | the user-pass octets are the UTF-8 username, the colon octet, then the UTF-8 password |
| `Client.Token` | lib/index.js:16 | the token has the base64 length and alphabet, and decodes to the username octets, a colon and the password octets |
| `Client.AuthorizationHeader` | lib/index.js:16-21 | the header starts with `Basic `, and the rest decodes to the user-pass octets |
| `Client.TokenDeterminesUserPass` | lib/index.js:16 | equal tokens come only from equal `username:password` strings, so the server can recover the user-pass |
| `Client.HandshakeCarriesHeaderToken` | lib/index.js:35-37 | the handshake is `{"AuthToken":"` + the text after `Basic ` in the header + `"}` |
| `Client.Effects` | lib/index.js:46-63 | each event yields at most one log entry, none exactly when the tag is ignored, and a non-binary message yields the information line carrying that message |
| `Client.HandleMessageEffects` | lib/index.js:40-64 | one inbound message sends nothing; it gives exactly one output, the decoded payload, for a `'0'` frame and none otherwise; it gives one warning naming the tag exactly for unknown tags; a text message yields only the information line carrying it |
| `Client.HandshakeFollowsOpenAppend` | lib/index.js:29 | appending entries that are not `open` notifications keeps every open followed by the handshake |
| `Client.TTYDClient.constructor` | lib/index.js:4-13 | stores the options and connects: the state is connecting, the log is empty, and the invariant holds |
| `Client.TTYDClient.Connect` | lib/index.js:15-33 | the token and header are computed from the credentials; the log is untouched |
| `Client.TTYDClient.OnOpen` | lib/index.js:29 | on open, exactly one message is sent: the handshake carrying the header's token |
| `Client.TTYDClient.HandleOpen` | lib/index.js:35-38 | sends `JSON.stringify({AuthToken: t})` and nothing else |
| `Client.TTYDClient.HandleMessage` | lib/index.js:40-64 | the log grows by the effects of the decoded message, nothing is sent, and the outputs grow by the decoded payload exactly for `'0'` frames |
| `Client.TTYDClient.OnClose` | lib/index.js:31 | onClose receives the code and reason, and the transport is closed |
| `Client.TTYDClient.OnError` | lib/index.js:32 | onError receives the error, and nothing else changes |
| `Client.TTYDClient.Send` | lib/index.js:66-68 | the data reaches the transport unchanged, with no tag prefix, and nothing else happens |
| `Client.TTYDClient.Close` | lib/index.js:70-72 | only a close request is appended, and no message is sent |

## Left out

- Construction of the WebSocket is not modelled: the URL, the `tty` subprotocol, `binaryType` and listener registration (lib/index.js:19-32). The transport is an abstract log.
- The `rejectUnauthorized: false` TLS option (lib/index.js:23) is transport configuration with no logic.
- Frame.Decode: UTF-8 decoding with `TextDecoder` (lib/index.js:48) is an uninterpreted function parameter. Its lossy replacement of bad sequences is not modelled.
- Utf8.Encode: JavaScript strings may hold lone UTF-16 surrogates, which `Buffer.from` replaces by U+FFFD. A Dafny `char` cannot hold a surrogate, so such strings are outside the model.
- Client.TokenDeterminesUserPass: recovers the `username:password` string, not the pair; a username containing `:` cannot be split back, which section 2 of RFC 7617 excludes by forbidding a colon in the user-id.
- Json.Unescape: escaped surrogate pairs (`\ud83d\ude00`) are refused rather than combined. Only the client's own output needs reading back.
- `JSON.stringify` in general is not modelled. Only string quoting and the one-member handshake object are.
- The text of the `console.warn` and `console.log` lines (lib/index.js:58, 62) is not modelled. They appear as `Warn(tag)` and `Info(data)` log entries.
- The behaviour of the caller's callbacks is not modelled. The log records each call and its arguments.
- The transport's own behaviour is not modelled: refusing sends before open, or the close handshake with the server.
- Calling `connect` again leaves the old socket's listeners attached. The model keeps one transport at a time.
- Reassigning the `username` or `password` properties from outside the class is not modelled. They are fixed at construction.
- Timing and asynchronous ordering of network events are not modelled. Each handler call is one sequential step.
- There is no code for a token endpoint, an idle timeout, or a session state machine with closing or failed states in lib/index.js, so none is modelled.
