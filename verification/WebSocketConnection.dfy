/**
  What the transport's connection state becomes when the receiver asks for something, how far
  it should read ahead, and when a receiver is in step with the stream it has been sent.
 */
module WebSocketConnection {
  import opened Bytes
  import opened WebSocketFrame
  import opened WebSocketReceive
  import Utf8
  import Numerals

  // ---------------------------------------------------------------- connection state

  datatype ReadyState = CLOSING | CLOSED | CONNECTING | OPEN

  datatype PollResult = Succeeded | AbnormalClose | CannotFlushSendBuffer

  /** One call of the close callback. */
  datatype CloseEvent = CloseEvent(code: nat, reason: bytes, remote: bool)

  datatype Conn = Conn(state: ReadyState, code: nat, reason: bytes, remote: bool,
                       cancel: bool, pongReceived: bool, closes: seq<CloseEvent>)

  const INTERNAL_ERROR := 1011
  const ABNORMAL_CLOSE := 1006
  const INVALID_PAYLOAD := 1007
  const PROTOCOL_ERROR := 1002
  const NO_STATUS := 1005

  function Ascii(s: string): bytes {
    seq(|s|, i requires 0 <= i < |s| => s[i] as int % 128)
  }

  function InternalErrorText(): bytes { Ascii("Internal error") }
  function AbnormalText(): bytes { Ascii("Abnormal closure") }
  function NoStatusText(): bytes { Ascii("No status code") }
  function InvalidPayloadText(): bytes { Ascii("Invalid frame payload data") }

  function CodeText(code: nat): string {
    Numerals.Numeral(Numerals.Decimal, code)
  }

  function ComplaintCode(c: Complaint): nat {
    if c == InvalidText then INVALID_PAYLOAD else PROTOCOL_ERROR
  }

  function ComplaintText(c: Complaint): bytes {
    match c
    case ReservedBitUsed => Ascii("Reserved bit used")
    case PingOversized => Ascii("Ping reason control frame with payload length > 125 octets")
    case ControlFragmented => Ascii("Control message fragmented")
    case DataOutOfSequence => Ascii("Fragmentation: data message out of sequence")
    case ContinuationOutOfSequence => Ascii("Fragmentation: continuation opcode out of sequence")
    case UnexpectedOpcode => Ascii("Protocol error")
    case InvalidText => InvalidPayloadText()
  }

  /** Entering CLOSED fires the close callback and resets what was recorded for it. */
  function Enter(c: Conn, s: ReadyState): Conn {
    if c.state == s then c
    else if s == CLOSED then
      c.(state := CLOSED, code := INTERNAL_ERROR, reason := InternalErrorText(), remote := false,
         closes := c.closes + [CloseEvent(c.code, c.reason, c.remote)])
    else if s == OPEN then c.(state := OPEN, pongReceived := false)
    else c.(state := s)
  }

  function SwitchToClosed(c: Conn, code: nat, reason: bytes, remote: bool): Conn {
    Enter(c.(code := code, reason := reason, remote := remote), CLOSED).(cancel := false)
  }

  /** The payload of a CLOSE frame. */
  function ClosePayload(code: nat, reason: bytes): bytes {
    if code == NO_STATUS then [] else [code / 256 % 256, code % 256] + reason
  }

  predicate CanSend(s: ReadyState) {
    s == OPEN || s == CLOSING
  }

  /** Close from this side: once, and with a CLOSE frame. */
  function StartClose(c: Conn, code: nat, reason: bytes): (Conn, seq<Piece>) {
    if c.state == CLOSING || c.state == CLOSED then (c.(cancel := true), [])
    else
      (Enter(c.(cancel := true, code := code, reason := reason, remote := false), CLOSING),
       Fragments(CLOSE, ClosePayload(code, reason)))
  }

  predicate InvalidCloseCode(code: nat) {
    code < 1000 || code == 1004 || code == 1006 || 1013 < code < 3000
  }

  /** The code and reason a received CLOSE frame stands for. */
  function CloseStatus(payload: bytes): (nat, bytes) {
    if |payload| < 2 then (NO_STATUS, NoStatusText())
    else
      var valid := Utf8.Validates(payload[2..]);
      var code := if valid then 256 * (payload[0] as int) + payload[1] else INVALID_PAYLOAD;
      if InvalidCloseCode(code) then (PROTOCOL_ERROR, Ascii("Invalid close code: " + CodeText(code)))
      else (code, if valid then payload[2..] else InvalidPayloadText())
  }

  function OnPeerClose(c: Conn, payload: bytes): (Conn, seq<Piece>) {
    var (code, reason) := CloseStatus(payload);
    if c.state != CLOSING then
      (SwitchToClosed(Enter(c, CLOSING), code, reason, true), Fragments(CLOSE, ClosePayload(code, reason)))
    else if c.code == code && c.reason == reason then (SwitchToClosed(c, code, reason, false), [])
    else (c, [])
  }

  /** What one action does to the connection, and the frames it sends. */
  function React(c: Conn, enablePong: bool, a: Action): (Conn, seq<Piece>) {
    match a
    case Deliver(_) => (c, [])
    case NotePong => (c.(pongReceived := true), [])
    case ReplyPong(payload) => (c, if enablePong && CanSend(c.state) then Fragments(PONG, payload) else [])
    case Fail(complaint) => StartClose(c, ComplaintCode(complaint), ComplaintText(complaint))
    case PeerClose(payload) => OnPeerClose(c, payload)
  }

  /** The stream has ended abnormally and nothing in it closed the connection. */
  function AfterAbnormalEnd(c: Conn): Conn {
    if c.state == CLOSING then Enter(c, CLOSED)
    else if c.state != CLOSED then SwitchToClosed(c, ABNORMAL_CLOSE, AbnormalText(), false)
    else c
  }

  /** The end of `poll`: a side that has waited too long for the answer to its CLOSE frame stops waiting. */
  function AfterClosingDelay(c: Conn): Conn {
    if c.state == CLOSING then Enter(c, CLOSED) else c
  }

  function ReactAll(c: Conn, enablePong: bool, actions: seq<Action>): (Conn, seq<Piece>)
    decreases |actions|
  {
    if actions == [] then (c, [])
    else
      var (c1, first) := React(c, enablePong, actions[0]);
      var (c2, others) := ReactAll(c1, enablePong, actions[1..]);
      (c2, first + others)
  }

  lemma {:induction false} ReactAllAppend(c: Conn, enablePong: bool, a: seq<Action>, b: seq<Action>)
    ensures var (c1, p) := ReactAll(c, enablePong, a);
      var (c2, q) := ReactAll(c1, enablePong, b);
      ReactAll(c, enablePong, a + b) == (c2, p + q)
    decreases |a|
  {
    hide React;
    if a == [] {
      assert a + b == b;
      var (c2, q) := ReactAll(c, enablePong, b);
      assert [] + q == q;
    } else {
      assert (a + b)[0] == a[0] && (a + b)[1..] == a[1..] + b;
      var (c0, first) := React(c, enablePong, a[0]);
      ReactAllAppend(c0, enablePong, a[1..], b);
      var (c1, p) := ReactAll(c0, enablePong, a[1..]);
      var (c2, q) := ReactAll(c1, enablePong, b);
      assert first + (p + q) == (first + p) + q;
    }
  }

  /** Connection, frames sent and callbacks made after actions, from those before. */
  ghost predicate Leads(enablePong: bool, c: Conn, ps: seq<Piece>, actions: seq<Action>, c': Conn, ps': seq<Piece>) {
    c' == ReactAll(c, enablePong, actions).0 && ps' == ps + ReactAll(c, enablePong, actions).1
  }

  lemma LeadsOn(enablePong: bool, c: Conn, ps: seq<Piece>, a: seq<Action>, c1: Conn, ps1: seq<Piece>,
                b: seq<Action>, c2: Conn, ps2: seq<Piece>)
    requires Leads(enablePong, c, ps, a, c1, ps1) && Leads(enablePong, c1, ps1, b, c2, ps2)
    ensures Leads(enablePong, c, ps, a + b, c2, ps2)
  {
    hide ReactAll;
    ReactAllAppend(c, enablePong, a, b);
  }

  lemma ReactOne(c: Conn, enablePong: bool, a: Action)
    ensures ReactAll(c, enablePong, [a]) == React(c, enablePong, a)
  {
    var (c1, first) := React(c, enablePong, a);
    assert [a][1..] == [];
    assert first + [] == first;
  }

  /** Every text this side closes with is short. */
  lemma ComplaintTextSize(c: Complaint)
    ensures |ComplaintText(c)| < 100
  {
  }

  lemma CloseStatusSize(payload: bytes)
    ensures CloseStatus(payload).0 < 65536
    ensures |CloseStatus(payload).1| + 2 <= |payload| || |CloseStatus(payload).1| <= 100
  {
    hide Utf8.Validates, Numerals.Numeral;
    if |payload| >= 2 {
      Numerals.NumeralShort(Numerals.Decimal, 256 * (payload[0] as int) + payload[1]);
      Numerals.NumeralShort(Numerals.Decimal, INVALID_PAYLOAD);
    }
  }

  lemma PiecesAppend(a: seq<Frame>, b: seq<Frame>)
    ensures PiecesOf(a + b) == PiecesOf(a) + PiecesOf(b)
  {
  }

  // ---------------------------------------------------------------- reading ahead

  /** The buffer size the next frame needs, when its header is there and the rest is not. */
  function WantedOf(buf: bytes): nat {
    if !HasHeader(buf) || FaultyHeader(ParseHeader(buf)) then 0
    else
      var h := ParseHeader(buf);
      if |buf| < h.size + h.length then h.size + h.length else 0
  }

  /** `wanted` was computed for a prefix of the buffer, and bytes may have come since. */
  ghost predicate WantedFor(wanted: nat, buf: bytes) {
    wanted > 0 ==>
      && HasHeader(buf) && !FaultyHeader(ParseHeader(buf))
      && wanted == ParseHeader(buf).size + ParseHeader(buf).length
  }

  lemma WantedKept(wanted: nat, buf: bytes, more: bytes)
    requires WantedFor(wanted, buf)
    ensures WantedFor(wanted, buf + more)
  {
    if HasHeader(buf) {
      HeaderKept(buf, more);
    }
  }

  lemma WantedExact(buf: bytes)
    ensures WantedFor(WantedOf(buf), buf)
    ensures !HasHeader(buf) ==> WantedOf(buf) == 0 && Waiting(0, |buf|)
    ensures WantedOf([]) == 0 && Waiting(0, 0)
  {
  }

  /** The buffer is waiting for bytes: for the rest of a header, or for the rest of a frame. */
  predicate Waiting(wanted: nat, size: nat) {
    (wanted == 0 && size < 14) || size < wanted
  }

  /** Unless it met a fault, a drained buffer waits for bytes. */
  lemma {:induction false} DrainedWaits(rx: Rx)
    requires !Drain(rx).fault
    ensures Waiting(WantedOf(Drain(rx).rx.buf), |Drain(rx).rx.buf|)
    decreases |rx.buf|
  {
    match TakeTurn(rx)
    case Handled(rx', _) => DrainedWaits(rx');
    case _ =>
  }

  /** The buffer after a turn. */
  lemma TurnWanted(rx: Rx)
    ensures match TakeTurn(rx)
      case NeedHeader => WantedOf(rx.buf) == 0
      case NeedPayload => WantedOf(rx.buf) == ParseHeader(rx.buf).size + ParseHeader(rx.buf).length
      case Fault(rx', _) => WantedOf(rx'.buf) == 0
      case Handled(_, _) => true
  {
    if TakeTurn(rx).Fault? {
      hide OnPayload, ApplyMask;
      var h, rx' := ParseHeader(rx.buf), TakeTurn(rx).rx;
      assert rx'.buf[..h.size] == rx.buf[..h.size];
      assert rx'.buf[0] == rx'.buf[..h.size][0] == rx.buf[0];
      assert rx'.buf[1] == rx'.buf[..h.size][1] == rx.buf[1];
      PrefixHeader(rx.buf, rx'.buf);
    }
  }

  /** `at` is where a receiver stands that has already delivered `events` out of the stream `all`. */
  ghost predicate InStep(all: Rx, at: Rx, events: seq<Event>) {
    var whole, here := Drain(all), Drain(at);
    && Deliveries(whole.actions) == events + Deliveries(here.actions)
    && whole.fault == here.fault
    && whole.rx.session == here.rx.session
    && (!whole.fault ==> whole.rx == here.rx)
  }

  lemma InStepAppend(all: Rx, at: Rx, events: seq<Event>, more: bytes)
    requires InStep(all, at, events)
    ensures InStep(Append(all, more), Append(at, more), events)
  {
    hide Drain, Deliveries;
    DrainAppend(all, more);
    DrainAppend(at, more);
    if !Drain(all).fault {
      var extra := Drain(Append(Drain(all).rx, more)).actions;
      DeliveriesAppend(Drain(all).actions, extra);
      DeliveriesOn(events, Drain(at).actions, extra);
    }
  }

  lemma InStepDrained(all: Rx, at: Rx, events: seq<Event>)
    requires InStep(all, at, events)
    ensures InStep(all, Drain(at).rx, events + Deliveries(Drain(at).actions))
  {
    hide TakeTurn;
    DrainQuiet(at);
    if Drain(at).fault {
      DrainEndsInFault(at);
      DrainOfFault(Drain(at).rx);
    }
  }

  /** A receiver in step has delivered, once it has drained its buffer, all that the stream holds. */
  lemma InStepWhenQuiet(all: Rx, at: Rx, events: seq<Event>)
    requires InStep(all, at, events)
    ensures Deliveries(Drain(all).actions) == events + Deliveries(Drain(at).actions)
  {
  }

  /** A loop that has performed `done` takes one more turn. */
  lemma DrainOn(rx: Rx, done: seq<Action>)
    ensures match TakeTurn(rx)
      case Handled(rx', now) => After(done, Drain(rx)) == After(done + now, Drain(rx'))
      case Fault(rx', now) => After(done, Drain(rx)) == Outcome(rx', done + now, true)
      case _ => After(done, Drain(rx)) == Outcome(rx, done + [], false)
  {
    hide TakeTurn;
    match TakeTurn(rx)
    case Handled(rx', now) => assert done + (now + Drain(rx').actions) == done + now + Drain(rx').actions;
    case _ =>
  }

  lemma DeliveriesOn(events: seq<Event>, done: seq<Action>, now: seq<Action>)
    ensures events + Deliveries(done) + Deliveries(now) == events + Deliveries(done + now)
  {
    DeliveriesAppend(done, now);
  }

  /** A turn, in terms of the drain that starts with it. */
  lemma TurnEnds(rx: Rx)
    ensures match TakeTurn(rx)
      case NeedHeader => Drain(rx) == Outcome(rx, [], false) && !HasHeader(rx.buf)
      case NeedPayload => Drain(rx) == Outcome(rx, [], false) && HasHeader(rx.buf)
      case Fault(rx', actions) => Drain(rx) == Outcome(rx', actions, true)
      case Handled(rx', actions) => Drain(rx) == After(actions, Drain(rx')) && |rx'.buf| < |rx.buf|
    ensures WantedFor(WantedOf(rx.buf), rx.buf)
  {
  }

  lemma DrainOfFault(rx: Rx)
    requires TakeTurn(rx).Fault?
    ensures Drain(rx).fault && Deliveries(Drain(rx).actions) == [] && Drain(rx).rx.session == rx.session
  {
  }
}
