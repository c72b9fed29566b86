/** The native-messaging envelope: the three kinds of frame and the errors of a transport.
    JSON text is abstract; a `Codec` supplies its encoder and parser. */
module Protocol {
  import opened Common

  datatype Json =
    | Null
    | Bool(flag: bool)
    | Number(value: real)
    | Text(text: string)
    | Array(items: seq<Json>)
    | Object(fields: map<string, Json>)
  {
    /** The member of an object; nothing for any other value. */
    function Get(name: string): Option<Json> {
      if Object? && name in fields then Some(fields[name]) else None
    }
  }

  datatype ResponseStatus = Succeeded | Failed

  datatype ProtocolError = ProtocolError(code: string, message: string, details: Option<Json>)

  datatype Frame =
    | Request(version: string, requestId: string, kind: string, body: Json)
    | Response(version: string, requestId: string, status: ResponseStatus,
               payload: Option<Json>, error: Option<ProtocolError>)
    | Notification(version: string, notificationId: string, kind: string, body: Json)
  {
    /** The id an answer to this frame is correlated by. */
    function Id(): string {
      if Notification? then notificationId else requestId
    }
  }

  datatype TransportError = FrameTooLarge(size: nat) | Codec(message: string) | Io

  datatype ByteOrder = LittleEndian | BigEndian

  /** What the host takes from its surroundings: the machine's byte order, the JSON text of a
      frame (which may fail to serialize), the frame of a JSON text, and the quoted form of a
      text in error messages. Nothing is assumed of any of them. */
  datatype Codec = Codec(
    order: ByteOrder,
    encode: Frame -> Result<seq<Byte>, string>,
    parse: seq<Byte> -> Result<Frame, string>,
    quoted: string -> string)
}
