/**
 * One AMQP 0-9-1 exchange on one channel, from the client's side: its
 * lifecycle state machine, the publish pipeline and the publisher-confirm
 * bookkeeping.
 *
 * The transport is reduced to the log `sent` of frames handed to it, in
 * order, and the application's signal handlers to the log `events`.
 */
module ExchangeClient {
  import opened Wire
  import opened Chunking
  import opened Confirms

  datatype ExchangeState = Closed | Undeclared | Declaring | Declared | Removing

  /**
   * The state of the underlying channel, as far as the exchange cares:
   * closed, or any other state of the channel's own state machine.
   */
  datatype ChannelState = ChClosed | ChOther

  /** Bytes the body loop keeps back from the frame maximum for framing. */
  const FrameOverhead := 7

  /** exchange.declare: reserved short, name, type, options octet, argument table. */
  function DeclareFrame(channel: int, name: string, exchangeType: string, options: int, arguments: FieldTable): (r: Frame) {
    MethodFrame(channel, ExchangeClass, ExchangeDeclare,
      [ShortInt(0), ShortStr(name), ShortStr(exchangeType), Octet(Int8(options)), Table(arguments)])
  }

  /** exchange.delete: reserved short, name, options octet. */
  function DeleteFrame(channel: int, name: string, options: int): (r: Frame) {
    MethodFrame(channel, ExchangeClass, ExchangeDelete, [ShortInt(0), ShortStr(name), Octet(Int8(options))])
  }

  /** basic.publish: reserved short, exchange name, routing key, options octet. */
  function PublishFrame(channel: int, name: string, routingKey: string, options: int): (r: Frame) {
    MethodFrame(channel, BasicClass, BasicPublish, [ShortInt(0), ShortStr(name), ShortStr(routingKey), Octet(Int8(options))])
  }

  /** confirm.select: one octet, 1 for no-wait. */
  function SelectFrame(channel: int, noWait: bool): (r: Frame) {
    MethodFrame(channel, ConfirmClass, ConfirmSelect, [Octet(if noWait then 1 else 0)])
  }

  /** The content properties every published message starts from. */
  function DefaultProperties(mimeType: string, headers: FieldTable): (r: Properties) {
    map[Property.ContentType := ShortStr(mimeType),
        Property.ContentEncoding := ShortStr("utf-8"),
        Property.Headers := Table(headers),
        Property.MessageId := ShortStr("0")]
  }

  /** `base` with `props` laid over it: the caller's value wins on every key it sets. */
  function Overlay(base: Properties, props: Properties): (r: Properties)
    ensures r.Keys == base.Keys + props.Keys
    ensures forall k :: k in props ==> r[k] == props[k]
    ensures forall k :: k in base && k !in props ==> r[k] == base[k]
  {
    base + props
  }

  /** The frames one publish hands to the transport: method, content header, body slices. */
  function PublishFrames(channel: int, name: string, message: seq<Byte>, routingKey: string,
                         mimeType: string, headers: FieldTable, properties: Properties,
                         publishOptions: int, chunkSize: int): (r: seq<Frame>)
    requires chunkSize > 0 || |message| == 0
  {
    [PublishFrame(channel, name, routingKey, publishOptions),
     HeaderFrame(channel, BasicClass, |message|, Overlay(DefaultProperties(mimeType, headers), properties))]
    + BodyFrames(channel, Chunks(message, chunkSize))
  }

  /**
   * The layout of a publish: exactly one basic.publish method frame, then one
   * content header whose body size is the message size and whose properties
   * are the defaults overridden by the caller's, then one body frame per
   * slice; the body payloads put together are the message, no slice exceeds
   * `chunkSize`, all but the last are full, and an empty message has no body
   * frame at all.
   */
  lemma PublishFramesLayout(channel: int, name: string, message: seq<Byte>, routingKey: string,
                            mimeType: string, headers: FieldTable, properties: Properties,
                            publishOptions: int, chunkSize: nat)
    requires chunkSize > 0
    ensures var fs := PublishFrames(channel, name, message, routingKey, mimeType, headers, properties, publishOptions, chunkSize);
      var cs := Chunks(message, chunkSize);
      && |fs| == 2 + |cs|
      && fs[0] == PublishFrame(channel, name, routingKey, publishOptions)
      && fs[1].HeaderFrame? && fs[1].bodySize == |message|
      && fs[1].properties.Keys >= {Property.ContentType, Property.ContentEncoding, Property.Headers, Property.MessageId}
      && (Property.ContentType !in properties ==> fs[1].properties[Property.ContentType] == ShortStr(mimeType))
      && (Property.ContentEncoding !in properties ==> fs[1].properties[Property.ContentEncoding] == ShortStr("utf-8"))
      && (Property.Headers !in properties ==> fs[1].properties[Property.Headers] == Table(headers))
      && (Property.MessageId !in properties ==> fs[1].properties[Property.MessageId] == ShortStr("0"))
      && (forall k :: k in properties ==> fs[1].properties[k] == properties[k])
      && (forall i :: 2 <= i < |fs| ==> fs[i] == BodyFrame(channel, cs[i - 2]))
      && Concat(cs) == message
      && (forall i :: 0 <= i < |cs| ==> 0 < |cs[i]| <= chunkSize)
      && (forall i :: 0 <= i < |cs| - 1 ==> |cs[i]| == chunkSize)
      && (|cs| == 0 <==> |message| == 0)
      && (|cs| - 1) * chunkSize < |message| <= |cs| * chunkSize
  {
    ChunksConcat(message, chunkSize);
    ChunkSizes(message, chunkSize);
    ChunkCount(message, chunkSize);
  }

  /**
   * The loop that copies the caller's properties into the content header,
   * one `setProperty` per key, over defaults already set.
   */
  method OverlayProperties(base: Properties, props: Properties) returns (r: Properties)
    ensures r == Overlay(base, props)
  {
    r := base;
    var todo := props.Keys;
    while todo != {}
      invariant todo <= props.Keys
      invariant r.Keys == base.Keys + (props.Keys - todo)
      invariant forall k :: k in props && k !in todo ==> r[k] == props[k]
      invariant forall k :: k in base && k !in props ==> r[k] == base[k]
      invariant forall k :: k in base && k in todo ==> r[k] == base[k]
      decreases todo
    {
      var k :| k in todo;
      r := r[k := props[k]];
      todo := todo - {k};
    }
  }

  class Exchange {
    /** The exchange name; empty for the broker's default exchange. */
    const name: string
    /** The channel number stamped on every frame. */
    const channel: int

    var state: ExchangeState
    var delayedDeclare: bool
    var exchangeType: string
    var options: int
    var arguments: FieldTable

    /** The tag the next publish gets; 0 while publisher confirms are off. */
    var nextDeliveryTag: int
    /** Tags published and not yet acknowledged, oldest first. */
    var unconfirmed: seq<int>

    /** The last error a basic.return reported. */
    var errorCode: int
    var errorString: string

    /** Frames handed to the transport, in order. */
    var sent: seq<Frame>
    /** Signals emitted to the application, in order. */
    var events: seq<Event>

    ghost predicate Valid()
      reads this
    {
      nextDeliveryTag >= 0 && TagsValid(unconfirmed, nextDeliveryTag)
    }

    /** A fresh exchange: closed, no delayed declare, confirms off, nothing sent. */
    constructor (name: string, channel: int)
      ensures Valid()
      ensures this.name == name && this.channel == channel
      ensures state == Closed && !delayedDeclare
      ensures nextDeliveryTag == 0 && unconfirmed == []
      ensures errorCode == NoError && errorString == ""
      ensures sent == [] && events == []
    {
      this.name := name;
      this.channel := channel;
      state := Closed;
      delayedDeclare := false;
      exchangeType := "";
      options := 0;
      arguments := map[];
      nextDeliveryTag := 0;
      unconfirmed := [];
      errorCode := NoError;
      errorString := "";
      sent := [];
      events := [];
    }

    /** `newState(ExchangeState)`: record the new lifecycle state. */
    method NewState(s: ExchangeState)
      modifies this`state
      ensures state == s
    {
      state := s;
    }

    /**
     * The private `declare`: sends exchange.declare only from UNDECLARED and
     * only for a named exchange. From DECLARING it does nothing; from any
     * other state it only marks a declare as delayed.
     */
    method TryDeclare()
      modifies this`state, this`delayedDeclare, this`sent
      ensures old(state) != Undeclared ==>
        && state == old(state) && sent == old(sent)
        && delayedDeclare == (old(state) != Declaring || old(delayedDeclare))
      ensures old(state) == Undeclared && name == [] ==>
        state == old(state) && sent == old(sent) && delayedDeclare == old(delayedDeclare)
      ensures old(state) == Undeclared && name != [] ==>
        && state == Declaring && !delayedDeclare
        && sent == old(sent) + [DeclareFrame(channel, name, exchangeType, options, arguments)]
    {
      if state != Undeclared {
        if state != Declaring {
          delayedDeclare := true;
        }
        return;
      }
      if name == [] {
        return;
      }
      NewState(Declaring);
      sent := sent + [DeclareFrame(channel, name, exchangeType, options, arguments)];
      delayedDeclare := false;
    }

    /**
     * `_q_method`: route an inbound method by class and id. Every basic and
     * exchange method counts as handled, as does confirm.select-ok; anything
     * else is left to the caller.
     */
    method Dispatch(m: Inbound) returns (handled: bool)
      requires Valid()
      modifies this`state, this`unconfirmed, this`events, this`errorCode, this`errorString
      ensures Valid()
      ensures handled <==> ClassOf(m) == BasicClass || ClassOf(m) == ExchangeClass || m.SelectOk?
      ensures m.Ack? ==>
        && unconfirmed == AfterAck(old(unconfirmed), m.deliveryTag, m.multiple)
        && events == old(events) + (if (m.deliveryTag == 0 || m.deliveryTag in old(unconfirmed)) && unconfirmed == [] then [AllMessagesDeliveredSignal] else [])
      ensures m.Return? && m.replyCode != NoError ==>
        && errorCode == m.replyCode && errorString == m.replyText
        && events == old(events) + [ErrorSignal(m.replyCode)]
      ensures m.SelectOk? ==> events == old(events) + [ConfirmsEnabledSignal]
      ensures m.DeclareOk? ==> state == Declared && events == old(events) + [DeclaredSignal]
      ensures m.DeleteOk? ==> state == Undeclared && events == old(events) + [RemovedSignal]
      ensures !m.Ack? ==> unconfirmed == old(unconfirmed)
      ensures !m.Return? || m.replyCode == NoError ==> errorCode == old(errorCode) && errorString == old(errorString)
      ensures !(m.DeclareOk? || m.DeleteOk?) ==> state == old(state)
      ensures m.Nack? || m.Other? || (m.Return? && m.replyCode == NoError) ==> events == old(events)
    {
      if ClassOf(m) == BasicClass {
        match m {
          case Ack(tag, multiple) => HandleAckOrNack(BasicAck, tag, multiple);
          case Nack(tag, multiple) => HandleAckOrNack(BasicNack, tag, multiple);
          case Return(code, text, exchangeName, routingKey) => HandleReturn(code, text, exchangeName, routingKey);
          case _ =>
        }
        return true;
      }
      if ClassOf(m) == ConfirmClass && MethodOf(m) == ConfirmSelectOk {
        events := events + [ConfirmsEnabledSignal];
        return true;
      }
      if ClassOf(m) == ExchangeClass {
        if m.DeclareOk? {
          HandleDeclareOk();
        } else if m.DeleteOk? {
          HandleDeleteOk();
        }
        return true;
      }
      return false;
    }

    /** exchange.declare-ok: the exchange is declared. */
    method HandleDeclareOk()
      modifies this`state, this`events
      ensures state == Declared && events == old(events) + [DeclaredSignal]
    {
      NewState(Declared);
      events := events + [DeclaredSignal];
    }

    /** exchange.delete-ok: the exchange is gone and may be declared again. */
    method HandleDeleteOk()
      modifies this`state, this`events
      ensures state == Undeclared && events == old(events) + [RemovedSignal]
    {
      NewState(Undeclared);
      events := events + [RemovedSignal];
    }

    /** `_q_disconnected`: the connection is lost; any delayed declare is dropped. */
    method Disconnected()
      modifies this`state, this`delayedDeclare
      ensures state == Closed && !delayedDeclare
    {
      delayedDeclare := false;
      NewState(Closed);
    }

    /**
     * basic.return, its fields decoded: a reply code other than "no error" is
     * recorded with its text and reported; the tag list is never touched.
     */
    method HandleReturn(replyCode: UInt16, replyText: string, exchangeName: string, routingKey: string)
      modifies this`errorCode, this`errorString, this`events
      ensures replyCode != NoError ==>
        && errorCode == replyCode && errorString == replyText
        && events == old(events) + [ErrorSignal(replyCode)]
      ensures replyCode == NoError ==>
        errorCode == old(errorCode) && errorString == old(errorString) && events == old(events)
    {
      if replyCode != NoError {
        errorCode := replyCode;
        errorString := replyText;
        events := events + [ErrorSignal(errorCode)];
      }
    }

    /**
     * basic.ack / basic.nack, tag and flag decoded. An ack updates the tag
     * list as `AfterAck` says and signals when the list drains (always for
     * tag 0, never for an unknown tag); a nack is only logged.
     */
    method HandleAckOrNack(methodId: int, deliveryTag: int, multiple: bool)
      requires Valid()
      modifies this`unconfirmed, this`events
      ensures Valid()
      ensures methodId == BasicAck ==>
        && unconfirmed == AfterAck(old(unconfirmed), deliveryTag, multiple)
        && events == old(events) + (if (deliveryTag == 0 || deliveryTag in old(unconfirmed)) && unconfirmed == [] then [AllMessagesDeliveredSignal] else [])
      ensures methodId != BasicAck ==> unconfirmed == old(unconfirmed) && events == old(events)
    {
      if methodId == BasicAck {
        AckKeepsTagsValid(unconfirmed, nextDeliveryTag, deliveryTag, multiple);
        if deliveryTag == 0 {
          unconfirmed := [];
        } else {
          var idx := IndexOf(unconfirmed, deliveryTag);
          if idx == -1 {
            return;
          }
          if multiple {
            unconfirmed := unconfirmed[idx + 1..];
          } else {
            unconfirmed := unconfirmed[..idx] + unconfirmed[idx + 1..];
          }
        }
        if unconfirmed == [] {
          events := events + [AllMessagesDeliveredSignal];
        }
      }
    }

    /** `newState(ChannelState)`: a closed channel closes the exchange. */
    method NewChannelState(cs: ChannelState)
      modifies this`state
      ensures cs == ChClosed ==> state == Closed
      ensures cs != ChClosed ==> state == old(state)
    {
      if cs == ChClosed {
        NewState(Closed);
      }
    }

    /**
     * The channel is open. The default exchange counts as declared at once;
     * a named one becomes UNDECLARED and sends its delayed declare, if any.
     */
    method ChannelOpened()
      modifies this`state, this`delayedDeclare, this`sent, this`events
      ensures name == [] ==>
        && state == Declared && events == old(events) + [DeclaredSignal]
        && sent == old(sent) && delayedDeclare == old(delayedDeclare)
      ensures name != [] && old(delayedDeclare) ==>
        && state == Declaring && !delayedDeclare && events == old(events)
        && sent == old(sent) + [DeclareFrame(channel, name, exchangeType, options, arguments)]
      ensures name != [] && !old(delayedDeclare) ==>
        && state == Undeclared && !delayedDeclare
        && events == old(events) && sent == old(sent)
    {
      if name == [] {
        NewState(Declared);
        events := events + [DeclaredSignal];
        return;
      } else {
        NewState(Undeclared);
      }
      if delayedDeclare {
        TryDeclare();
      }
    }

    /** The channel closed: the exchange is CLOSED (a delayed declare survives). */
    method ChannelClosed()
      modifies this`state
      ensures state == Closed
    {
      NewState(Closed);
    }

    /** Whether the exchange may publish, enable confirms or be removed. */
    predicate IsDeclared()
      reads this
    {
      state == Declared
    }

    /**
     * Public `declare`: records type, options and arguments and moves to
     * DECLARING before the private declare runs, which therefore returns
     * without sending anything.
     */
    method Declare(exchangeType: string, options: int, arguments: FieldTable)
      modifies this`state, this`delayedDeclare, this`sent, this`exchangeType, this`options, this`arguments
      ensures state == Declaring
      ensures this.exchangeType == exchangeType && this.options == options && this.arguments == arguments
      ensures sent == old(sent) && delayedDeclare == old(delayedDeclare)
    {
      NewState(Declaring);
      this.exchangeType := exchangeType;
      this.options := options;
      this.arguments := arguments;
      TryDeclare();
    }

    /** `declare` with an enumerated type, named by `TypeToString`. */
    method DeclareType(t: ExchangeType, options: int, arguments: FieldTable)
      modifies this`state, this`delayedDeclare, this`sent, this`exchangeType, this`options, this`arguments
      ensures state == Declaring
      ensures exchangeType == TypeToString(t) && this.options == options && this.arguments == arguments
      ensures sent == old(sent) && delayedDeclare == old(delayedDeclare)
    {
      Declare(TypeToString(t), options, arguments);
    }

    /**
     * `remove`: sends exchange.delete when DECLARED (the state stays DECLARED
     * until delete-ok); otherwise sends nothing and drops any delayed declare.
     */
    method Remove(options: int)
      modifies this`delayedDeclare, this`sent
      ensures !old(IsDeclared()) ==> !delayedDeclare && sent == old(sent)
      ensures old(IsDeclared()) ==>
        delayedDeclare == old(delayedDeclare) && sent == old(sent) + [DeleteFrame(channel, name, options)]
    {
      if !IsDeclared() {
        delayedDeclare := false;
        return;
      }
      sent := sent + [DeleteFrame(channel, name, options)];
    }

    /**
     * `publish`: when DECLARED, assigns the next delivery tag (if confirms are
     * on) and sends the method frame, the content header and the body in
     * slices of `frameMax - 7` bytes; otherwise does nothing at all.
     */
    method Publish(message: seq<Byte>, routingKey: string, mimeType: string, headers: FieldTable,
                   properties: Properties, publishOptions: int, frameMax: int)
      requires Valid() && (IsDeclared() && |message| > 0 ==> frameMax > FrameOverhead)
      modifies this`unconfirmed, this`nextDeliveryTag, this`sent
      ensures Valid()
      ensures !old(IsDeclared()) ==>
        unconfirmed == old(unconfirmed) && nextDeliveryTag == old(nextDeliveryTag) && sent == old(sent)
      ensures old(IsDeclared()) ==>
        && unconfirmed == PublishTags(old(unconfirmed), old(nextDeliveryTag))
        && nextDeliveryTag == PublishNext(old(nextDeliveryTag))
        && sent == old(sent) + PublishFrames(channel, name, message, routingKey, mimeType, headers,
                                             properties, publishOptions, frameMax - FrameOverhead)
    {
      if !IsDeclared() {
        return;
      }
      TagPublish();
      sent := sent + [PublishFrame(channel, name, routingKey, publishOptions)];

      var content := OverlayProperties(DefaultProperties(mimeType, headers), properties);
      sent := sent + [HeaderFrame(channel, BasicClass, |message|, content)];

      SendBody(message, frameMax - FrameOverhead);
    }

    /** The tagging step of `publish`: with confirms on, the current tag becomes outstanding. */
    method TagPublish()
      requires Valid()
      modifies this`unconfirmed, this`nextDeliveryTag
      ensures Valid()
      ensures unconfirmed == PublishTags(old(unconfirmed), old(nextDeliveryTag))
      ensures nextDeliveryTag == PublishNext(old(nextDeliveryTag))
    {
      if nextDeliveryTag > 0 {
        PublishKeepsTagsValid(unconfirmed, nextDeliveryTag);
        unconfirmed := unconfirmed + [nextDeliveryTag];
        nextDeliveryTag := nextDeliveryTag + 1;
      }
    }

    /** The body loop of `publish`: one body frame per slice of at most `chunkSize` bytes. */
    method SendBody(message: seq<Byte>, chunkSize: int)
      requires chunkSize > 0 || |message| == 0
      modifies this`sent
      ensures sent == old(sent) + BodyFrames(channel, Chunks(message, chunkSize))
    {
      var fullSize := |message|;
      var offset := 0;
      ghost var slices: seq<seq<Byte>> := [];
      while offset < fullSize
        invariant offset >= 0
        invariant chunkSize > 0 || offset >= |message|
        invariant slices + ChunksFrom(message, chunkSize, offset) == Chunks(message, chunkSize)
        invariant sent == old(sent) + BodyFrames(channel, slices)
        decreases fullSize - offset
      {
        var partition := Mid(message, offset, chunkSize);
        sent := sent + [BodyFrame(channel, partition)];
        slices := slices + [partition];
        offset := offset + chunkSize;
      }
    }

    /** `publish` of text (already UTF-8 encoded) as "text.plain" with no headers. */
    method PublishText(message: seq<Byte>, routingKey: string, properties: Properties,
                       publishOptions: int, frameMax: int)
      requires Valid() && (IsDeclared() && |message| > 0 ==> frameMax > FrameOverhead)
      modifies this`unconfirmed, this`nextDeliveryTag, this`sent
      ensures Valid()
      ensures !old(IsDeclared()) ==>
        unconfirmed == old(unconfirmed) && nextDeliveryTag == old(nextDeliveryTag) && sent == old(sent)
      ensures old(IsDeclared()) ==>
        && unconfirmed == PublishTags(old(unconfirmed), old(nextDeliveryTag))
        && nextDeliveryTag == PublishNext(old(nextDeliveryTag))
        && sent == old(sent) + PublishFrames(channel, name, message, routingKey, "text.plain", map[],
                                             properties, publishOptions, frameMax - FrameOverhead)
    {
      Publish(message, routingKey, "text.plain", map[], properties, publishOptions, frameMax);
    }

    /** `publish` of bytes with a MIME type and no headers. */
    method PublishBytes(message: seq<Byte>, routingKey: string, mimeType: string, properties: Properties,
                        publishOptions: int, frameMax: int)
      requires Valid() && (IsDeclared() && |message| > 0 ==> frameMax > FrameOverhead)
      modifies this`unconfirmed, this`nextDeliveryTag, this`sent
      ensures Valid()
      ensures !old(IsDeclared()) ==>
        unconfirmed == old(unconfirmed) && nextDeliveryTag == old(nextDeliveryTag) && sent == old(sent)
      ensures old(IsDeclared()) ==>
        && unconfirmed == PublishTags(old(unconfirmed), old(nextDeliveryTag))
        && nextDeliveryTag == PublishNext(old(nextDeliveryTag))
        && sent == old(sent) + PublishFrames(channel, name, message, routingKey, mimeType, map[],
                                             properties, publishOptions, frameMax - FrameOverhead)
    {
      Publish(message, routingKey, mimeType, map[], properties, publishOptions, frameMax);
    }

    /**
     * `enableConfirms`: when DECLARED, sends confirm.select and starts tagging
     * at 1 unless it has already started; otherwise does nothing.
     */
    method EnableConfirms(noWait: bool)
      requires Valid()
      modifies this`nextDeliveryTag, this`sent
      ensures Valid()
      ensures !old(IsDeclared()) ==> nextDeliveryTag == old(nextDeliveryTag) && sent == old(sent)
      ensures old(IsDeclared()) ==>
        && sent == old(sent) + [SelectFrame(channel, noWait)]
        && nextDeliveryTag == EnableNext(old(nextDeliveryTag))
    {
      if !IsDeclared() {
        return;
      }
      sent := sent + [SelectFrame(channel, noWait)];
      if nextDeliveryTag == 0 {
        nextDeliveryTag := 1;
      }
    }
  }
}
