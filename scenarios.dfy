/**
 * Client code that drives an exchange through whole conversations, using
 * only the contracts of the class: what callers can conclude from them.
 */
module Scenarios {
  import opened Wire
  import opened Chunking
  import opened Confirms
  import opened ExchangeClient

  /** Exchange "logs" declared (declare, then declare-ok), confirms still off. */
  method DeclaredLogs() returns (ex: Exchange)
    ensures fresh(ex) && ex.Valid()
    ensures ex.state == Declared && ex.events == [DeclaredSignal] && ex.sent == []
    ensures ex.unconfirmed == [] && ex.nextDeliveryTag == 0
  {
    ex := new Exchange("logs", 1);
    ex.DeclareType(Topic, 0, map[]);
    var handled := ex.Dispatch(DeclareOk);
  }

  /** A single ack of tag 1 leaves [2]; a multiple ack of tag 2 drains the list and signals once. */
  method AckOneThenAll(ex: Exchange)
    requires ex.Valid() && ex.unconfirmed == [1, 2]
    modifies ex
    ensures ex.Valid() && ex.unconfirmed == []
    ensures ex.events == old(ex.events) + [AllMessagesDeliveredSignal]
  {
    ex.HandleAckOrNack(BasicAck, 1, false);
    assert IndexOf([1, 2], 1) == 0;
    assert ex.unconfirmed == [2] && ex.events == old(ex.events);
    ex.HandleAckOrNack(BasicAck, 2, true);
    assert IndexOf([2], 2) == 0;
    assert 2 in [2];
  }

  /**
   * Exchange "logs": declare, declare-ok, a publish with confirms off, then
   * confirms on, two publishes (tags 1 and 2), a single ack of 1 and a
   * multiple ack of 2, which drains the list. The body may be anything.
   */
  method ConfirmConversation(body: seq<Byte>) returns (outstanding: seq<int>, signals: seq<Event>)
    ensures outstanding == []
    ensures signals == [DeclaredSignal, ConfirmsEnabledSignal, AllMessagesDeliveredSignal]
  {
    var ex := DeclaredLogs();
    ex.PublishText(body, "rk", map[], 0, 4096);
    assert ex.unconfirmed == [] && ex.nextDeliveryTag == 0;

    ex.EnableConfirms(false);
    var handled := ex.Dispatch(SelectOk);
    assert ex.nextDeliveryTag == 1;

    ex.PublishText(body, "rk", map[], 0, 4096);
    ex.PublishText(body, "rk", map[], 0, 4096);
    assert ex.unconfirmed == [1, 2];

    AckOneThenAll(ex);
    outstanding, signals := ex.unconfirmed, ex.events;
  }

  /**
   * A named exchange declared before and after its channel opens never puts
   * an exchange.declare on the wire: the public declare moves to DECLARING
   * first, so the private declare neither sends nor delays.
   */
  method NamedDeclareConversation() returns (frames: seq<Frame>, last: ExchangeState, delayed: bool)
    ensures frames == [] && last == Declaring && !delayed
  {
    var ex := new Exchange("logs", 1);
    ex.Declare("topic", 0, map[]);
    ex.ChannelOpened();
    assert ex.state == Undeclared;
    ex.Declare("topic", 0, map[]);
    frames, last, delayed := ex.sent, ex.state, ex.delayedDeclare;
  }

  /**
   * The default exchange needs no round trip: opening its channel declares it,
   * and a publish then goes straight out.
   */
  method DefaultExchangeConversation() returns (signals: seq<Event>, frames: seq<Frame>)
    ensures signals == [DeclaredSignal]
    ensures |frames| == 2 && frames[1].HeaderFrame? && frames[1].bodySize == 0
  {
    var ex := new Exchange("", 3);
    ex.ChannelOpened();
    PublishFramesLayout(3, "", [], "queue", "text.plain", map[], map[], 0, 131072 - FrameOverhead);
    ex.PublishText([], "queue", map[], 0, 131072);
    signals, frames := ex.events, ex.sent;
  }

  /** An empty message never enters the body loop, so any frame maximum will do. */
  method EmptyBodyAnyFrameMax(frameMax: int) returns (frames: seq<Frame>)
    ensures |frames| == 2 && frames[0].MethodFrame? && frames[1].HeaderFrame? && frames[1].bodySize == 0
  {
    var ex := new Exchange("", 3);
    ex.ChannelOpened();
    ex.PublishText([], "queue", map[], 0, frameMax);
    frames := ex.sent;
  }

  /** A body of 2 * size + 1 bytes goes out as two full slices and one single byte, in order. */
  lemma {:induction false} TwoFullSlicesAndOneByte(s: seq<Byte>, size: nat)
    requires size > 0 && |s| == 2 * size + 1
    ensures Chunks(s, size) == [s[..size], s[size..2 * size], s[2 * size..]]
  {
    assert ChunksFrom(s, size, 3 * size) == [];
    assert Mid(s, 2 * size, size) == s[2 * size..];
    assert ChunksFrom(s, size, 2 * size) == [s[2 * size..]];
    assert ChunksFrom(s, size, size) == [s[size..2 * size]] + [s[2 * size..]];
  }
}
