/**
  The inbound side of the ttyd terminal protocol as the client's message
  handler reads it: the first octet of a binary message is an ASCII tag, the
  rest is the payload.
 */
module Frame {
  import opened Common

  /** A transport message: binary (an ArrayBuffer) or anything else, here text. */
  datatype Data = Binary(bytes: seq<Byte>) | Text(text: string)

  /** What the handler does with one inbound message. */
  datatype Event =
    | Output(text: string)    // onOutput(text)
    | Ignored(tag: char)      // '1' set window title, '2' set preferences: no action
    | Unknown(tag: char)      // a warning naming the tag
    | NonBinary(data: Data)   // an information line naming the message

  const OutputTag: char := '0'
  const SetWindowTitleTag: char := '1'
  const SetPreferencesTag: char := '2'

  /**
    `String.fromCharCode(view[0])`. On an empty buffer `view[0]` is undefined,
    which converts to the number NaN and then to code unit 0.
   */
  function Tag(bytes: seq<Byte>): (c: char)
    ensures |bytes| > 0 ==> c as int == bytes[0]
    ensures |bytes| == 0 ==> c as int == 0
  {
    if |bytes| == 0 then 0 as char else bytes[0] as char
  }

  /** `view.slice(1)`: everything after the tag, empty when there is no octet after it. */
  function Payload(bytes: seq<Byte>): (p: seq<Byte>)
    ensures |p| == if |bytes| == 0 then 0 else |bytes| - 1
    ensures forall i :: 0 <= i < |p| ==> p[i] == bytes[i + 1]
  {
    if |bytes| == 0 then [] else bytes[1..]
  }

  /**
    The dispatch of the message handler. `utf8` stands for
    `new TextDecoder('utf-8').decode`, whose lossy decoding is not modelled.
   */
  function Decode(m: Data, utf8: seq<Byte> -> string): (e: Event)
    ensures m.Text? <==> e.NonBinary?
    ensures e.NonBinary? ==> e.data == m
    ensures e.Output? <==> m.Binary? && |m.bytes| > 0 && m.bytes[0] == '0' as int
    ensures e.Output? ==> e.text == utf8(m.bytes[1..])
    ensures e.Ignored? <==> m.Binary? && |m.bytes| > 0 && (m.bytes[0] == '1' as int || m.bytes[0] == '2' as int)
    ensures e.Ignored? ==> e.tag as int == m.bytes[0]
    ensures e.Unknown? ==> e.tag == Tag(m.bytes)
  {
    match m
    case Text(_) => NonBinary(m)
    case Binary(bytes) =>
      var tag := Tag(bytes);
      if tag == OutputTag then Output(utf8(Payload(bytes)))
      else if tag == SetWindowTitleTag || tag == SetPreferencesTag then Ignored(tag)
      else Unknown(tag)
  }

  /** A frame as the server builds it: the tag octet, then the payload. */
  function Build(tag: Byte, payload: seq<Byte>): seq<Byte> {
    [tag] + payload
  }

  /** The tag and payload of a built frame are the ones it was built from. */
  lemma TagPayloadBuild(tag: Byte, payload: seq<Byte>)
    ensures Tag(Build(tag, payload)) as int == tag
    ensures Payload(Build(tag, payload)) == payload
  {
    assert Build(tag, payload)[1..] == payload;
  }

  /** Every non-empty message is the frame built from its tag and payload. */
  lemma BuildTagPayload(bytes: seq<Byte>)
    requires |bytes| > 0
    ensures Build(Tag(bytes) as int, Payload(bytes)) == bytes
  {
  }

  /** An output frame reaches onOutput with exactly its payload, decoded. */
  lemma DecodeOutputFrame(payload: seq<Byte>, utf8: seq<Byte> -> string)
    ensures Decode(Binary(Build('0' as int, payload)), utf8) == Output(utf8(payload))
  {
    TagPayloadBuild('0' as int, payload);
  }

  /** The empty binary message is an unknown message with tag U+0000. */
  lemma DecodeEmpty(utf8: seq<Byte> -> string)
    ensures Decode(Binary([]), utf8) == Unknown(0 as char)
  {
  }

  /** Exactly the three known tags avoid the warning; every other octet, and the empty
      message, produces one naming the tag. */
  lemma DecodeUnknown(bytes: seq<Byte>, utf8: seq<Byte> -> string)
    ensures Decode(Binary(bytes), utf8).Unknown? <==>
      (|bytes| == 0 || (bytes[0] != '0' as int && bytes[0] != '1' as int && bytes[0] != '2' as int))
  {
  }
}
