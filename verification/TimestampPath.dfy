/**
 * The whole way of an audio timestamp: encoder table, output filter, wire, bus input filter, the
 * decoder's input queue, decoder table, receiver engine.  Every stage runs on its own thread, so a
 * run interleaves their steps freely.  The softbus stream is reliable and ordered.
 */
module TimestampPath {
  import opened Common
  import opened AudioMetaWire
  import Enc = AudioEncoder
  import Dec = AudioDecoder
  import Queues = CodecQueues

  datatype StateId = IDLE | INITIALIZED | CH_CREATED | STARTED | PLAYING | STOPPED

  predicate CanOutput(state: StateId) {
    state == STARTED || state == PLAYING
  }

  /** The receiver engine's state and the buffers that its callback was given. */
  datatype Receiver = Receiver(state: StateId, available: seq<Packet>)

  /** A buffer reaches the callback only in the two running states, and makes the engine playing. */
  function Handled(r: Receiver, buffer: Option<Packet>): Receiver {
    if CanOutput(r.state) && buffer.Some? then Receiver(PLAYING, r.available + [buffer.value]) else r
  }

  /** The receiver engine, as far as `HandleOutputBuffer` uses it. */
  class ReceiverEngine {
    var currentState: StateId
    var available: seq<Packet>

    function State(): Receiver
      reads this
    {
      Receiver(currentState, available)
    }

    constructor Started()
      ensures State() == Receiver(STARTED, [])
    {
      currentState, available := STARTED, [];
    }

    /** `HandleOutputBuffer` with a registered callback; no buffer stands for one without memory or meta. */
    method HandleOutputBuffer(buffer: Option<Packet>) returns (ok: bool)
      modifies this
      ensures State() == Handled(old(State()), buffer)
      ensures ok <==> CanOutput(old(currentState)) && buffer.Some?
    {
      if currentState != STARTED && currentState != PLAYING {
        return false;
      }
      if buffer.None? {
        return false;
      }
      var transBuffer := Packet(buffer.value.pts, buffer.value.special);
      currentState := PLAYING;
      available := available + [transBuffer];
      return true;
    }
  }

  /** A buffer reaches the callback exactly in the two running states; the engine is playing then. */
  lemma HandledExactly(r: Receiver, buffer: Packet)
    ensures var q := Handled(r, Some(buffer));
      if r.state in {STARTED, PLAYING} then q.state == PLAYING && q.available == r.available + [buffer] else q == r
    ensures Handled(r, None) == r
  {
  }

  /** Every stage, and the queues between them. */
  datatype System = System(
    enc: Enc.Run,
    toSend: seq<Packet>,
    wire: seq<AudioMeta>,
    toDecode: seq<Packet>,
    dec: Dec.Run,
    toHandle: seq<Packet>,
    receiver: Receiver)

  const START := System(Enc.START, [], [], [], Dec.START, [], Receiver(STARTED, []))

  datatype Event =
    | Encode(e: Enc.Event)
    | Send
    | Receive
    | DecodeInput
    | DecodeTake
    | DecodeFinish
    | Handle

  predicate Enabled(s: System, e: Event) {
    match e
    case Encode(e') => Enc.Enabled(s.enc, e')
    case Send => s.toSend != []
    case Receive => s.wire != []
    case DecodeInput => s.toDecode != []
    case DecodeTake => Dec.Enabled(s.dec, Dec.Take)
    case DecodeFinish => Dec.Enabled(s.dec, Dec.Finish)
    case Handle => s.toHandle != []
  }

  /** `StreamDataEnqueue`: the buffer gets whatever the parse left, even when it failed. */
  function Enqueued(parsed: Parsed): Packet {
    Packet(if parsed.pts.Some? then parsed.pts.value else 0,
           if parsed.special.Some? then parsed.special.value else 0)
  }

  function Next(s: System, e: Event): System
    requires Enabled(s, e)
  {
    match e
    case Encode(e') =>
      var enc := Enc.Next(s.enc, e');
      s.(enc := enc, toSend := s.toSend + enc.sent[|s.enc.sent|..])
    case Send =>
      s.(toSend := s.toSend[1..], wire := s.wire + [Marshal(s.toSend[0])])
    case Receive =>
      s.(wire := s.wire[1..], toDecode := Queues.PushBounded(s.toDecode, Enqueued(Unmarshal(Some(s.wire[0])))))
    case DecodeInput =>
      s.(toDecode := s.toDecode[1..], dec := Dec.Next(s.dec, Dec.Input(s.toDecode[0])))
    case DecodeTake =>
      s.(dec := Dec.Next(s.dec, Dec.Take))
    case DecodeFinish =>
      var dec := Dec.Next(s.dec, Dec.Finish);
      s.(dec := dec, toHandle := s.toHandle + dec.delivered[|s.dec.delivered|..])
    case Handle =>
      s.(toHandle := s.toHandle[1..], receiver := Handled(s.receiver, Some(s.toHandle[0])))
  }

  /** Both codecs keep to their lag bounds and the decoder's input queue does not overflow. */
  predicate WithinBounds(s: System, e: Event) {
    match e
    case Encode(e') => Enc.WithinLag(s.enc, e')
    case Receive => |s.toDecode| <= Queues.QUEUE_MAX
    case DecodeTake => Dec.WithinLag(s.dec, Dec.Take)
    case DecodeFinish => Dec.WithinLag(s.dec, Dec.Finish)
    case _ => true
  }

  function After(es: seq<Event>): Option<System> {
    if es == [] then
      Some(START)
    else
      match After(es[..|es| - 1])
      case None => None
      case Some(s) => if Enabled(s, es[|es| - 1]) then Some(Next(s, es[|es| - 1])) else None
  }

  predicate Bounded(es: seq<Event>) {
    es != [] ==>
      var prefix := es[..|es| - 1];
      Bounded(prefix) && (After(prefix).Some? ==> WithinBounds(After(prefix).value, es[|es| - 1]))
  }

  /** A message without strings is enqueued all the same, with its 32-bit number as timestamp. */
  lemma FailedParseIsEnqueued(number: int)
    ensures Enqueued(Unmarshal(None)) == Packet(0, 0)
    ensures INT32_MIN <= number <= INT32_MAX ==>
      Enqueued(Unmarshal(Some(AudioMeta(Some(Number(number)), None, None)))) == Packet(number, 0)
  {
  }

  /** What the bus input filter will make of the messages on the wire. */
  function Read(wire: seq<AudioMeta>): seq<Packet> {
    if wire == [] then [] else [Enqueued(Unmarshal(Some(wire[0])))] + Read(wire[1..])
  }

  /** A printed packet at the end of the wire will be read as itself. */
  lemma {:induction false} ReadPrinted(wire: seq<AudioMeta>, p: Packet)
    ensures Read(wire + [Marshal(p)]) == Read(wire) + [p]
  {
    var longer := wire + [Marshal(p)];
    if wire == [] {
      WireRoundTrip(p, 0);
      assert longer[1..] == [];
    } else {
      ReadPrinted(wire[1..], p);
      assert longer[1..] == wire[1..] + [Marshal(p)];
    }
  }

  /** The packets that the encoder sent are, in order, decoded, queued, on the wire, or to be sent. */
  predicate InTransit(sent: seq<Packet>, received: seq<Packet>, toDecode: seq<Packet>,
                      wire: seq<AudioMeta>, toSend: seq<Packet>)
  {
    sent == received + toDecode + Read(wire) + toSend
  }

  ghost predicate Invariant(s: System) {
    && Enc.Aligned(s.enc)
    && Dec.Aligned(s.dec)
    && InTransit(s.enc.sent, s.dec.received, s.toDecode, s.wire, s.toSend)
    && s.dec.delivered == s.receiver.available + s.toHandle
    && s.receiver.state == (if s.receiver.available == [] then STARTED else PLAYING)
  }

  lemma EncodeKeepsAligned(r: Enc.Run, e: Enc.Event)
    requires Enc.Aligned(r) && Enc.Enabled(r, e) && Enc.WithinLag(r, e)
    ensures Enc.Aligned(Enc.Next(r, e))
  {
    match e
    case Input(pts) => Enc.InputKeepsAligned(r, pts);
    case Take => Enc.TakeKeepsAligned(r);
    case Finish => Enc.FinishKeepsAligned(r);
  }

  lemma EncodeKeepsTransit(s: System, e: Enc.Event)
    requires InTransit(s.enc.sent, s.dec.received, s.toDecode, s.wire, s.toSend) && Enabled(s, Encode(e))
    ensures var q := Next(s, Encode(e)); InTransit(q.enc.sent, q.dec.received, q.toDecode, q.wire, q.toSend)
  {
    var q := Next(s, Encode(e));
    assert q.enc.sent == s.enc.sent + q.enc.sent[|s.enc.sent|..];
  }

  lemma SendKeepsTransit(s: System)
    requires InTransit(s.enc.sent, s.dec.received, s.toDecode, s.wire, s.toSend) && Enabled(s, Send)
    ensures var q := Next(s, Send); InTransit(q.enc.sent, q.dec.received, q.toDecode, q.wire, q.toSend)
  {
    ReadPrinted(s.wire, s.toSend[0]);
    assert s.toSend == [s.toSend[0]] + s.toSend[1..];
  }

  lemma ReceiveKeepsTransit(s: System)
    requires InTransit(s.enc.sent, s.dec.received, s.toDecode, s.wire, s.toSend)
    requires Enabled(s, Receive) && WithinBounds(s, Receive)
    ensures var q := Next(s, Receive); InTransit(q.enc.sent, q.dec.received, q.toDecode, q.wire, q.toSend)
  {
    var p := Enqueued(Unmarshal(Some(s.wire[0])));
    assert Read(s.wire) == [p] + Read(s.wire[1..]);
    assert Next(s, Receive).toDecode == s.toDecode + [p];
  }

  /** A message that arrives stays in its place exactly if the decoder's queue is not over its limit. */
  lemma ReceiveKeepsTransitExactly(s: System)
    requires InTransit(s.enc.sent, s.dec.received, s.toDecode, s.wire, s.toSend) && Enabled(s, Receive)
    ensures var q := Next(s, Receive);
      InTransit(q.enc.sent, q.dec.received, q.toDecode, q.wire, q.toSend) <==> WithinBounds(s, Receive)
  {
    var q := Next(s, Receive);
    if WithinBounds(s, Receive) {
      ReceiveKeepsTransit(s);
    } else {
      ReadIsAsLong(s.wire);
      ReadIsAsLong(s.wire[1..]);
      assert |q.toDecode| < |s.toDecode| + 1;
    }
  }

  lemma {:induction false} ReadIsAsLong(wire: seq<AudioMeta>)
    ensures |Read(wire)| == |wire|
  {
    if wire != [] {
      ReadIsAsLong(wire[1..]);
    }
  }

  /** So after a bounded run the next message is lost from its place exactly if the queue is too long. */
  lemma {:induction false} OverflowBoundIsExact(es: seq<Event>)
    requires After(es).Some? && Bounded(es) && Enabled(After(es).value, Receive)
    ensures var s := After(es).value; var q := Next(s, Receive);
      InTransit(q.enc.sent, q.dec.received, q.toDecode, q.wire, q.toSend) <==> |s.toDecode| <= Queues.QUEUE_MAX
  {
    RunsKeepInvariant(es);
    ReceiveKeepsTransitExactly(After(es).value);
  }

  lemma DecodeInputKeepsTransit(s: System)
    requires InTransit(s.enc.sent, s.dec.received, s.toDecode, s.wire, s.toSend) && Enabled(s, DecodeInput)
    ensures var q := Next(s, DecodeInput); InTransit(q.enc.sent, q.dec.received, q.toDecode, q.wire, q.toSend)
  {
    assert s.toDecode == [s.toDecode[0]] + s.toDecode[1..];
  }

  lemma DecodeFinishKeepsOrder(s: System)
    requires s.dec.delivered == s.receiver.available + s.toHandle && Enabled(s, DecodeFinish)
    ensures var q := Next(s, DecodeFinish); q.dec.delivered == q.receiver.available + q.toHandle
  {
    var q := Next(s, DecodeFinish);
    assert q.dec.delivered == s.dec.delivered + q.dec.delivered[|s.dec.delivered|..];
  }

  lemma StepKeepsInvariant(s: System, e: Event)
    requires Invariant(s) && Enabled(s, e) && WithinBounds(s, e)
    ensures Invariant(Next(s, e))
  {
    match e
    case Encode(e') =>
      EncodeKeepsAligned(s.enc, e');
      EncodeKeepsTransit(s, e');
    case Send => SendKeepsTransit(s);
    case Receive => ReceiveKeepsTransit(s);
    case DecodeInput =>
      DecodeInputKeepsTransit(s);
      Dec.InputKeepsAligned(s.dec, s.toDecode[0]);
    case DecodeTake => Dec.TakeKeepsAligned(s.dec);
    case DecodeFinish =>
      Dec.FinishKeepsAligned(s.dec);
      DecodeFinishKeepsOrder(s);
    case Handle =>
      assert s.toHandle == [s.toHandle[0]] + s.toHandle[1..];
  }

  lemma {:induction false} RunsKeepInvariant(es: seq<Event>)
    requires After(es).Some? && Bounded(es)
    ensures Invariant(After(es).value)
  {
    if es != [] {
      var prefix := es[..|es| - 1];
      RunsKeepInvariant(prefix);
      StepKeepsInvariant(After(prefix).value, es[|es| - 1]);
    }
  }

  /** What the application is given at position n is what the encoder's table makes of its input. */
  lemma AvailableCarries(s: System, n: nat)
    requires Invariant(s) && n < |s.receiver.available|
    ensures Enc.Carries(s.receiver.available[n], n, s.enc.pushed)
  {
    var p := s.receiver.available[n];
    assert p == s.dec.delivered[n];
    assert Dec.Carries(p, n, s.dec.received);
    assert s.dec.received[n] == s.enc.sent[n];
    assert Enc.Carries(s.enc.sent[n], n, s.enc.pushed);
  }

  /**
   * End to end, in every run within the bounds: the timestamps handed to the application, with the
   * special value put back after each fifteenth, are exactly the first ones pushed into the encoder;
   * none is lost, repeated or out of order.
   */
  lemma {:induction false} DeliveredSpellsAPrefix(es: seq<Event>)
    requires After(es).Some? && Bounded(es)
    ensures var s := After(es).value;
      && Enc.Spell(s.receiver.available) <= s.enc.pushed
      && |Enc.Spell(s.receiver.available)| == Enc.Source(|s.receiver.available|)
  {
    RunsKeepInvariant(es);
    var s := After(es).value;
    forall n: nat | n < |s.receiver.available| ensures Enc.Carries(s.receiver.available[n], n, s.enc.pushed) {
      AvailableCarries(s, n);
    }
    Enc.CarriedPacketsSpellAPrefix(s.receiver.available, s.enc.pushed);
  }

  /** In every bounded run the engine is playing exactly if the application was given something. */
  lemma {:induction false} PlayingExactly(es: seq<Event>)
    requires After(es).Some? && Bounded(es)
    ensures var r := After(es).value.receiver;
      (r.state == PLAYING <==> r.available != []) && (r.state == STARTED <==> r.available == [])
  {
    RunsKeepInvariant(es);
  }
}
