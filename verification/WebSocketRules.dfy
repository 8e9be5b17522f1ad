/**
  The octets of section 5 of RFC 6455 and the rules about them, in numbers: how a frame is laid out,
  what the receiver refuses, what it never delivers, and what it answers.
 */
module WebSocketRules {
  import opened Bytes
  import opened WebSocketFrame
  import opened WebSocketReceive
  import opened WebSocketConnection
  import opened WebSocketClose
  import Utf8

  // ---------------------------------------------------------------- the layout of a frame

  /** Eight octets as a number, most significant first. */
  function Eight(h: bytes, at: nat): nat
    requires at + 8 <= |h|
  {
    var high := ((h[at] as int * 256 + h[at + 1]) * 256 + h[at + 2]) * 256 + h[at + 3];
    var low := ((h[at + 4] as int * 256 + h[at + 5]) * 256 + h[at + 6]) * 256 + h[at + 7];
    high * 0x1_0000_0000 + low
  }

  lemma BigEndianEight(s: bytes)
    requires |s| == 8
    ensures BigEndian(s) == Eight(s, 0)
  {
    BigEndianMore(s[..7], s[7]);
    BigEndianMore(s[..6], s[6]);
    BigEndianMore(s[..5], s[5]);
    BigEndianMore(s[..4], s[4]);
    BigEndianMore(s[..3], s[3]);
    BigEndianMore(s[..2], s[2]);
    BigEndianMore(s[..1], s[1]);
    BigEndianMore(s[..0], s[0]);
    assert s == s[..7] + [s[7]] && s[..7] == s[..6] + [s[6]] && s[..6] == s[..5] + [s[5]] && s[..5] == s[..4] + [s[4]];
    assert s[..4] == s[..3] + [s[3]] && s[..3] == s[..2] + [s[2]];
    assert s[..2] == s[..1] + [s[1]] && s[..1] == s[..0] + [s[0]];
  }

  lemma BigEndianMore(s: bytes, b: byte)
    ensures BigEndian(s + [b]) == BigEndian(s) * 256 + b
  {
    assert (s + [b])[..|s|] == s;
  }

  /** Every header, octet by octet: flag and opcode, mask bit and length, the long length, the key. */
  lemma HeaderLayout(fin: bool, op: opcode, n: nat, m: Mask)
    requires n < 0x1_0000_0000_0000_0000
    ensures var h := EncodeHeader(fin, op, n, m);
      var long := if n < 126 then 0 else if n < 65536 then 2 else 8;
      && |h| == 2 + long + (if m.Mask? then 4 else 0)
      && h[0] == (if fin then 128 else 0) + op
      && h[1] == (if m.Mask? then 128 else 0) + (if n < 126 then n else if n < 65536 then 126 else 127)
      && (126 <= n < 65536 ==> h[2] as int * 256 + h[3] == n)
      && (n >= 65536 ==> Eight(h, 2) == n)
      && (m.Mask? ==> h[2 + long..] == [m.k0, m.k1, m.k2, m.k3])
  {
    hide Octet, Eight;
    var len := EncodeLength(n, if m.NoMask? then 0 else 128);
    if 126 <= n < 65536 {
      ShortLengthRoundTrip(n);
      BigEndianMore([Octet(n, 1)], Octet(n, 0));
      BigEndianMore([], Octet(n, 1));
      assert [] + [Octet(n, 1)] == [Octet(n, 1)] && [Octet(n, 1)] + [Octet(n, 0)] == [Octet(n, 1), Octet(n, 0)];
    } else if n >= 65536 {
      LongLengthRoundTrip(n);
      BigEndianEight(len[1..]);
      EightShifts(EncodeHeader(fin, op, n, m), len[1..]);
    }
  }

  lemma EightShifts(h: bytes, s: bytes)
    requires |s| == 8 && |h| >= 10 && h[2..10] == s
    ensures Eight(h, 2) == Eight(s, 0)
  {
    assert forall i | 0 <= i < 8 :: h[2..10][i] == h[2 + i];
  }

  /** Each octet of a masked payload is the octet sent or the key octet, bit by bit, in exclusive or. */
  lemma MaskedOctet(m: Mask, payload: bytes, i: nat, k: nat)
    requires m.Mask? && i < |payload| && k < 8
    ensures Bit(ApplyMask(m, payload)[i], k) == (Bit(payload[i], k) + Bit([m.k0, m.k1, m.k2, m.k3][i % 4], k)) % 2
  {
    hide Bit, Xor;
    XorIsBitwise(payload[i], KeyByte(m, i), k);
  }

  // ---------------------------------------------------------------- what is delivered

  lemma {:induction false} DeliveredIn(actions: seq<Action>, e: Event)
    ensures e in Deliveries(actions) <==> Deliver(e) in actions
  {
    if actions != [] {
      DeliveredIn(actions[1..], e);
      assert actions == [actions[0]] + actions[1..];
    }
  }

  /** One payload delivers a text only if it is UTF-8. */
  lemma PayloadText(s: Session, fin: bool, op: opcode, payload: bytes, text: bytes)
    requires Deliver(Message(MsgText, text)) in OnPayload(s, fin, op, payload).1
    ensures Utf8.IsUtf8(text)
  {
    hide Utf8.IsUtf8, Utf8.Validates, Concat;
    Utf8.ValidatesExactly(text);
  }

  /** Whatever arrives, every text that is delivered is UTF-8. */
  lemma {:induction false} OnlyUtf8(rx: Rx, text: bytes)
    requires Message(MsgText, text) in Deliveries(Drain(rx).actions)
    ensures Utf8.IsUtf8(text)
    decreases |rx.buf|
  {
    hide Utf8.IsUtf8, OnPayload, ParseHeader, ApplyMask, HasHeader;
    DeliveredIn(Drain(rx).actions, Message(MsgText, text));
    match TakeTurn(rx)
    case Handled(rx', actions) =>
      if Deliver(Message(MsgText, text)) in actions {
        var h := ParseHeader(rx.buf);
        PayloadText(rx.session, h.fin, h.op, ApplyMask(h.mask, rx.buf[h.size..h.size + h.length]), text);
      } else {
        DeliveredIn(Drain(rx').actions, Message(MsgText, text));
        OnlyUtf8(rx', text);
      }
    case _ =>
  }

  lemma AllUtf8(rx: Rx, before: seq<Event>)
    ensures var after := before + Deliveries(Drain(rx).actions);
      forall text | Message(MsgText, text) in after && Message(MsgText, text) !in before :: Utf8.IsUtf8(text)
  {
    hide Drain, Deliveries, Utf8.IsUtf8;
    forall text | Message(MsgText, text) in Deliveries(Drain(rx).actions) ensures Utf8.IsUtf8(text) {
      OnlyUtf8(rx, text);
    }
  }

  /** The message that a last fragment completes: its kind and its bytes. */
  function Completed(s: Session, op: opcode, payload: bytes): (Kind, bytes) {
    (if op == 1 then MsgText else if op == 2 then MsgBinary else s.kind, Concat(s.chunks + [payload]))
  }

  /** Exactly when the receiver complains about a frame it has taken out of its buffer. */
  lemma ComplainsExactly(s: Session, fin: bool, op: opcode, payload: bytes)
    ensures var (kind, whole) := Completed(s, op, payload);
      (exists c :: Fail(c) in OnPayload(s, fin, op, payload).1) <==>
      || op !in {0, 1, 2, 8, 9, 10}
      || ((op == 1 || op == 2) && s.chunks != [])
      || (op == 0 && s.chunks == [])
      || (op <= 2 && fin && kind == MsgText && !Utf8.IsUtf8(whole))
  {
    hide Utf8.IsUtf8, Utf8.Validates, Concat;
    var (kind, whole) := Completed(s, op, payload);
    Utf8.ValidatesExactly(whole);
    if s.chunks == [] {
      ConcatOne(payload);
      assert s.chunks + [payload] == [payload];
    }
    var actions := OnPayload(s, fin, op, payload).1;
    if op <= 2 && fin && kind == MsgText && !Utf8.IsUtf8(whole) {
      assert actions[|actions| - 1] == Fail(InvalidText);
    } else if op == 0 && s.chunks == [] {
      assert actions[0] == Fail(ContinuationOutOfSequence);
    } else if (op == 1 || op == 2) && s.chunks != [] {
      assert actions[0] == Fail(DataOutOfSequence);
    } else if op !in {0, 1, 2, 8, 9, 10} {
      assert actions[0] == Fail(UnexpectedOpcode);
    }
  }

  /** A complaint closes an open connection: with 1007 for an invalid text, 1002 for anything else, in a CLOSE frame. */
  lemma ComplaintCloses(c: Conn, enablePong: bool, what: Complaint)
    requires c.state == OPEN
    ensures var (d, ps) := ReactAll(c, enablePong, [Fail(what)]);
      && d.state == CLOSING && d.code == (if what == InvalidText then 1007 else 1002)
      && d.closes == c.closes && d.cancel
      && |ps| == 1 && ps[0].fin && ps[0].op == 8 && |ps[0].payload| >= 2
      && ps[0].payload[..2] == [3, if what == InvalidText then 239 else 234]
  {
    hide Ascii, Fragments, ComplaintText;
    ReactOne(c, enablePong, Fail(what));
    ComplaintTextSize(what);
    FirstFragment(ClosePayload(ComplaintCode(what), ComplaintText(what)));
  }

  /** A complete message: delivered as it is, or, for a text that is not UTF-8, the end of an open connection. */
  lemma EmitsExactly(c: Conn, enablePong: bool, kind: Kind, payload: bytes)
    ensures var (d, ps) := ReactAll(c, enablePong, Emit(kind, payload));
      if kind == MsgText && !Utf8.IsUtf8(payload)
      then Deliveries(Emit(kind, payload)) == [] && (c.state == OPEN ==> d.state == CLOSING && d.code == 1007)
      else Deliveries(Emit(kind, payload)) == [Message(kind, payload)] && d == c && ps == []
  {
    hide Utf8.IsUtf8, Utf8.Validates, ReactAll;
    Utf8.ValidatesExactly(payload);
    if kind == MsgText && !Utf8.IsUtf8(payload) {
      DeliveriesOne(Fail(InvalidText));
      if c.state == OPEN {
        ComplaintCloses(c, enablePong, InvalidText);
      }
    } else {
      DeliveriesOne(Deliver(Message(kind, payload)));
      ReactOne(c, enablePong, Deliver(Message(kind, payload)));
    }
  }

  /** A text that is not UTF-8: nothing is delivered, nothing kept, and an open connection starts to close with 1007. */
  lemma InvalidTextCloses(c: Conn, enablePong: bool, s: Session, op: opcode, payload: bytes)
    requires c.state == OPEN
    requires (op == 1 && s.chunks == []) || (op == 0 && s.chunks != [] && s.kind == MsgText)
    requires !Utf8.IsUtf8(Concat(s.chunks + [payload]))
    ensures var (t, actions) := OnPayload(s, true, op, payload);
      var (d, ps) := ReactAll(c, enablePong, actions);
      && t.chunks == [] && Deliveries(actions) == []
      && d.state == CLOSING && d.code == 1007
      && |ps| == 1 && ps[0].fin && ps[0].op == 8 && |ps[0].payload| >= 2 && ps[0].payload[..2] == [3, 239]
  {
    hide Utf8.IsUtf8, Utf8.Validates, Concat, ReactAll;
    Utf8.ValidatesExactly(Concat(s.chunks + [payload]));
    if s.chunks == [] {
      ConcatOne(payload);
      assert s.chunks + [payload] == [payload];
    }
    var actions := OnPayload(s, true, op, payload).1;
    assert actions == [Fail(InvalidText)];
    DeliveriesOne(Fail(InvalidText));
    ComplaintCloses(c, enablePong, InvalidText);
  }

  // ---------------------------------------------------------------- what is refused

  /** A reserved bit, a length over 2^63, a control frame in parts, or a ping that is too long. */
  predicate Refused(buf: bytes)
    requires HasHeader(buf)
  {
    var h := ParseHeader(buf);
    || buf[0] % 128 >= 16
    || h.length > 0x8000_0000_0000_0000
    || (|buf| >= h.size + h.length && buf[0] in {8, 9, 10})
    || (|buf| >= h.size + h.length && buf[0] % 16 == 9 && h.length > 125)
  }

  /** The receiver stops at a frame exactly when it is one of those. */
  lemma StopsExactly(rx: Rx)
    ensures TakeTurn(rx).Fault? <==> HasHeader(rx.buf) && Refused(rx.buf)
  {
    hide OnPayload, PayloadLength, ApplyMask;
    if HasHeader(rx.buf) {
      LeadOctet(rx.buf[0]);
    }
  }

  lemma LeadOctet(b: byte)
    ensures (b / 64 % 2 == 1 || b / 32 % 2 == 1 || b / 16 % 2 == 1) <==> b % 128 >= 16
    ensures b % 128 < 16 ==> (b < 128 <==> b == b % 16)
  {
  }

  /** And then complains, unless the length alone is at fault. */
  lemma StopsComplaining(rx: Rx)
    requires TakeTurn(rx).Fault?
    ensures TakeTurn(rx).actions == [] <==> rx.buf[0] % 128 < 16 && ParseHeader(rx.buf).length > 0x8000_0000_0000_0000
    ensures TakeTurn(rx).actions != [] ==> exists c :: TakeTurn(rx).actions == [Fail(c)]
  {
    hide OnPayload, PayloadLength, ApplyMask;
    LeadOctet(rx.buf[0]);
  }

  // ---------------------------------------------------------------- what is answered

  /** A ping is answered by one pong with the same payload, if that is enabled; nothing else changes. */
  lemma PingAnswered(c: Conn, enablePong: bool, s: Session, payload: bytes, m: Mask)
    requires c.state == OPEN && |payload| <= 125
    ensures Hear(c, enablePong, s, [Frame(Piece(true, 9, payload), m)]) ==
      (c, if enablePong then [Piece(true, 10, payload)] else [])
  {
    hide OnPieces, Drain, EncodeAll, ReactAll;
    var fs := [Frame(Piece(true, 9, payload), m)];
    DrainFrames(fs, s);
    assert PiecesOf(fs) == [Piece(true, 9, payload)];
    OnePing(s, payload);
    PongSent(c, enablePong, payload);
  }

  lemma PongSent(c: Conn, enablePong: bool, payload: bytes)
    requires c.state == OPEN && |payload| <= 125
    ensures ReactAll(c, enablePong, [ReplyPong(payload), Deliver(PingReceived(payload))]) ==
      (c, if enablePong then [Piece(true, 10, payload)] else [])
  {
    hide Fragments, ReactAll;
    ReactTwo(c, enablePong, ReplyPong(payload), Deliver(PingReceived(payload)));
    FragmentsTile(PONG, payload);
    FragmentAt(PONG, payload, 0);
    assert payload[0..|payload|] == payload;
    var answer := [Piece(true, 10, payload)];
    var none: seq<Piece> := [];
    assert Fragments(PONG, payload) == answer && answer + none == answer && none + none == none;
  }

  lemma OnePing(s: Session, payload: bytes)
    ensures OnPieces(s, [Piece(true, 9, payload)]) == (s, [ReplyPong(payload), Deliver(PingReceived(payload))])
  {
    var actions := [ReplyPong(payload), Deliver(PingReceived(payload))];
    assert [Piece(true, 9, payload)][1..] == [] && actions + [] == actions;
  }

  lemma ReactTwo(c: Conn, enablePong: bool, a: Action, b: Action)
    ensures var (c1, p) := React(c, enablePong, a);
      var (c2, q) := React(c1, enablePong, b);
      ReactAll(c, enablePong, [a, b]) == (c2, p + q)
  {
    hide React;
    assert [a, b][1..] == [b];
    ReactOne(React(c, enablePong, a).0, enablePong, b);
  }

  /** A pong is noted and answered by nothing. */
  lemma PongNoted(c: Conn, enablePong: bool, s: Session, payload: bytes, m: Mask)
    requires |payload| <= MAX_FRAME_SIZE
    ensures Hear(c, enablePong, s, [Frame(Piece(true, 10, payload), m)]) == (c.(pongReceived := true), [])
  {
    hide OnPieces, Drain, EncodeAll, ReactAll;
    var fs := [Frame(Piece(true, 10, payload), m)];
    var actions := [NotePong, Deliver(PongReceived(payload))];
    DrainFrames(fs, s);
    assert PiecesOf(fs) == [Piece(true, 10, payload)];
    OnePong(s, payload);
    ReactTwo(c, enablePong, NotePong, Deliver(PongReceived(payload)));
    var none: seq<Piece> := [];
    assert none + none == none;
  }

  lemma OnePong(s: Session, payload: bytes)
    ensures OnPieces(s, [Piece(true, 10, payload)]) == (s, [NotePong, Deliver(PongReceived(payload))])
  {
    var actions := [NotePong, Deliver(PongReceived(payload))];
    assert [Piece(true, 10, payload)][1..] == [] && actions + [] == actions;
  }

  /** The close codes a receiver allows. */
  lemma AllowedCodes(code: nat)
    ensures InvalidCloseCode(code) <==>
      !(1000 <= code <= 1003 || code == 1005 || 1007 <= code <= 1013 || code >= 3000)
  {
  }

  /** What a CLOSE frame is read as: no status, the code and reason in it, or what is wrong with them. */
  lemma StatusExactly(payload: bytes)
    ensures var (code, reason) := CloseStatus(payload);
      if |payload| < 2 then code == 1005
      else
        var given := payload[0] as int * 256 + payload[1];
        if !Utf8.IsUtf8(payload[2..]) then code == 1007
        else if 1000 <= given <= 1003 || given == 1005 || 1007 <= given <= 1013 || given >= 3000
        then code == given && reason == payload[2..]
        else code == 1002
  {
    hide Utf8.IsUtf8, Utf8.Validates, CodeText, Ascii;
    if |payload| >= 2 {
      Utf8.ValidatesExactly(payload[2..]);
    }
  }

  /** The octets of a CLOSE frame: nothing for code 1005, else the code in two octets and the reason. */
  lemma CloseLayout(code: nat, reason: bytes)
    requires code < 65536
    ensures var p := ClosePayload(code, reason);
      if code == 1005 then p == []
      else |p| == 2 + |reason| && p[0] as int * 256 + p[1] == code && p[2..] == reason
  {
  }

  /** A stream that ends abnormally closes an open connection with 1006, and a closing one with its own code. */
  lemma AbnormalEndExactly(c: Conn)
    ensures var d := AfterAbnormalEnd(c);
      && d.state == CLOSED
      && d.closes == match c.state
           case CLOSED => c.closes
           case CLOSING => c.closes + [CloseEvent(c.code, c.reason, c.remote)]
           case _ => c.closes + [CloseEvent(1006, Ascii("Abnormal closure"), false)]
  {
  }

  /** Closing again sends nothing and keeps the code and reason that were given first. */
  lemma ClosesOnce(c: Conn, code: nat, reason: bytes)
    requires c.state == CLOSING || c.state == CLOSED
    ensures var (d, ps) := StartClose(c, code, reason);
      ps == [] && d.state == c.state && d.code == c.code && d.reason == c.reason && d.closes == c.closes && d.cancel
  {
  }

  /** Once a connection is closed, nothing of the close is left to be reported again. */
  lemma ClosedForgets(c: Conn, code: nat, reason: bytes, remote: bool)
    requires c.state != CLOSED
    ensures var d := SwitchToClosed(c, code, reason, remote);
      && d.closes == c.closes + [CloseEvent(code, reason, remote)]
      && d.state == CLOSED && d.code == 1011 && d.reason == Ascii("Internal error") && !d.remote && !d.cancel
  {
  }
}
