/**
 * The vocabulary an AMQP 0-9-1 exchange speaks with its channel: already
 * decoded field values, the content-header property keys, outbound frames,
 * inbound methods and the events raised to the application.
 *
 * Byte-level encoding is done by a codec outside this model, so a frame
 * carries its arguments as a list of typed fields, in wire order.
 */
module Wire {

  type Byte = x: int | 0 <= x < 0x100
  type UInt16 = x: int | 0 <= x < 0x1_0000

  /** A typed AMQP field value (the payload of a QVariant in the source). */
  datatype Value =
    | ShortInt(i: int)          // 16-bit integer field
    | Octet(i: int)             // 8-bit signed integer field
    | ShortStr(s: string)
    | Table(fields: map<string, Value>)

  /** AMQP field table: the exchange arguments and the message headers. */
  type FieldTable = map<string, Value>

  /** The basic-class content properties a content header can carry. */
  datatype Property =
    | ContentType | ContentEncoding | Headers | DeliveryMode | Priority
    | CorrelationId | ReplyTo | Expiration | MessageId | Timestamp
    | TypeName | UserId | AppId | ClusterId

  type Properties = map<Property, Value>

  // Class and method numbers of AMQP 0-9-1.
  const ExchangeClass := 40
  const BasicClass := 60
  const ConfirmClass := 85

  const ExchangeDeclare := 10
  const ExchangeDeclareOk := 11
  const ExchangeDelete := 20
  const ExchangeDeleteOk := 21

  const BasicPublish := 40
  const BasicReturn := 50
  const BasicAck := 80
  const BasicNack := 120

  const ConfirmSelect := 10
  const ConfirmSelectOk := 11

  /** Reply code that means "no error" (QAMQP::NoError). */
  const NoError := 0

  /** A frame handed to the transport, in the order it is sent. */
  datatype Frame =
    | MethodFrame(channel: int, classId: int, methodId: int, args: seq<Value>)
    | HeaderFrame(channel: int, classId: int, bodySize: nat, properties: Properties)
    | BodyFrame(channel: int, payload: seq<Byte>)

  /** A signal the exchange emits to the owning application. */
  datatype Event =
    | DeclaredSignal
    | RemovedSignal
    | ConfirmsEnabledSignal
    | AllMessagesDeliveredSignal
    | ErrorSignal(code: int)

  /** The (class, method) pairs the exchange dispatches on. */
  predicate IsKnownMethod(classId: int, methodId: int) {
    || (classId == BasicClass && methodId in {BasicAck, BasicNack, BasicReturn})
    || (classId == ConfirmClass && methodId == ConfirmSelectOk)
    || (classId == ExchangeClass && methodId in {ExchangeDeclareOk, ExchangeDeleteOk})
  }

  /** An inbound method as the codec hands it over, its arguments decoded. */
  datatype InboundMethod =
    | Ack(deliveryTag: int, multiple: bool)
    | Nack(deliveryTag: int, multiple: bool)
    | Return(replyCode: UInt16, replyText: string, exchangeName: string, routingKey: string)
    | SelectOk
    | DeclareOk
    | DeleteOk
    | Other(classId: int, methodId: int)

  /** Every inbound method, where `Other` stands only for methods not listed above. */
  type Inbound = m: InboundMethod | !(m.Other? && IsKnownMethod(m.classId, m.methodId))
    witness SelectOk

  function ClassOf(m: Inbound): (r: int) {
    match m
    case Ack(_, _) | Nack(_, _) | Return(_, _, _, _) => BasicClass
    case SelectOk => ConfirmClass
    case DeclareOk | DeleteOk => ExchangeClass
    case Other(c, _) => c
  }

  function MethodOf(m: Inbound): (r: int) {
    match m
    case Ack(_, _) => BasicAck
    case Nack(_, _) => BasicNack
    case Return(_, _, _, _) => BasicReturn
    case SelectOk => ConfirmSelectOk
    case DeclareOk => ExchangeDeclareOk
    case DeleteOk => ExchangeDeleteOk
    case Other(_, id) => id
  }

  /** The `qint8(x)` cast of the source: two's-complement truncation to 8 bits. */
  function Int8(x: int): (r: int)
    ensures -128 <= r < 128
    ensures (x - r) % 256 == 0
    ensures -128 <= x < 128 ==> r == x
  {
    (x + 128) % 256 - 128
  }

  /** The exchange types with a name of their own; `Undefined` is any other enum value. */
  datatype ExchangeType = Direct | FanOut | Topic | Headers | Undefined(code: int)

  /** The wire name of an exchange type; an undefined value falls back to "direct". */
  function TypeToString(t: ExchangeType): (r: string)
    ensures r in {"direct", "fanout", "topic", "headers"}
    ensures r == "direct" <==> t.Direct? || t.Undefined?
    ensures r == "fanout" <==> t.FanOut?
    ensures r == "topic" <==> t.Topic?
    ensures r == "headers" <==> t.Headers?
  {
    match t
    case Direct => "direct"
    case FanOut => "fanout"
    case Topic => "topic"
    case Headers => "headers"
    case Undefined(_) => "direct"
  }
}
