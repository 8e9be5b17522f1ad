/** The closing handshake between two connections, from what each does with the other's CLOSE frame. */
module WebSocketClose {
  import opened Bytes
  import opened WebSocketFrame
  import opened WebSocketReceive
  import opened WebSocketConnection
  import Utf8

  /** A code and reason that arrive at the other side as they were given. */
  ghost predicate Travels(code: nat, reason: bytes) {
    if code == NO_STATUS then reason == NoStatusText() else !InvalidCloseCode(code) && Utf8.IsUtf8(reason)
  }

  lemma {:induction false} AsciiIsUtf8(s: bytes)
    requires forall i | 0 <= i < |s| :: s[i] < 128
    ensures Utf8.IsUtf8(s)
    decreases |s|
  {
    if s != [] {
      AsciiIsUtf8(s[1..]);
      assert Utf8.IsChar(s[..1]);
    }
  }

  lemma TextValidates(s: string)
    ensures Utf8.Validates(Ascii(s)) && Utf8.IsUtf8(Ascii(s))
  {
    AsciiIsUtf8(Ascii(s));
    Utf8.ValidatesExactly(Ascii(s));
  }

  /** What the other side makes of a CLOSE frame with a code in it. */
  lemma StatusOfPayload(code: nat, reason: bytes)
    requires code < 65536 && code != NO_STATUS
    ensures CloseStatus(ClosePayload(code, reason)) ==
      var valid := Utf8.Validates(reason);
      var seen := if valid then code else INVALID_PAYLOAD;
      if InvalidCloseCode(seen) then (PROTOCOL_ERROR, Ascii("Invalid close code: " + CodeText(seen)))
      else (seen, if valid then reason else InvalidPayloadText())
  {
    hide Utf8.Validates, CodeText, Ascii, InvalidPayloadText, InvalidCloseCode;
    var p := ClosePayload(code, reason);
    assert p[2..] == reason;
  }

  /** A code and reason come out as they went in exactly when they travel. */
  lemma CloseRoundTrip(code: nat, reason: bytes)
    requires code < 65536
    ensures CloseStatus(ClosePayload(code, reason)) == (code, reason) <==> Travels(code, reason)
  {
    hide Utf8.Validates, Utf8.IsUtf8, CodeText, Ascii;
    Utf8.ValidatesExactly(reason);
    TextValidates("Invalid frame payload data");
    if code != NO_STATUS {
      StatusOfPayload(code, reason);
    }
  }

  /** The status one side reads is one it can send back unchanged. */
  lemma CloseSettles(code: nat, reason: bytes)
    requires code < 65536
    ensures var (c, r) := CloseStatus(ClosePayload(code, reason)); c < 65536 && Travels(c, r)
  {
    hide Utf8.Validates, Utf8.IsUtf8, CodeText, Ascii;
    Utf8.ValidatesExactly(reason);
    TextValidates("Invalid frame payload data");
    if code != NO_STATUS {
      StatusOfPayload(code, reason);
      TextValidates("Invalid close code: " + CodeText(code));
    }
  }

  // ---------------------------------------------------------------- CLOSE frames on the way

  /** What frames do to the connection that receives them, and what it sends in return. */
  function Hear(c: Conn, enablePong: bool, s: Session, fs: seq<Frame>): (Conn, seq<Piece>) {
    ReactAll(c, enablePong, Drain(Rx(EncodeAll(fs), s)).actions)
  }

  /** A payload that `sendData` sends in one frame. */
  predicate OneFrame(payload: bytes) {
    |payload| < 2 * CHUNK_SIZE
  }

  lemma FirstFragment(payload: bytes)
    ensures var ps := Fragments(CLOSE, payload);
      if OneFrame(payload) then ps == [Piece(true, CLOSE, payload)]
      else |ps| > 1 && !ps[0].fin && ps[0].op == CLOSE && |ps[0].payload| < 65536
  {
    hide Fragments;
    FragmentsTile(CLOSE, payload);
    FragmentAt(CLOSE, payload, 0);
    assert payload[0..|payload|] == payload;
  }

  /** A CLOSE frame that is not the whole of its message is refused. */
  lemma FragmentRefused(f: Frame, rest: bytes, s: Session)
    requires !f.piece.fin && f.piece.op == CLOSE && |f.piece.payload| < 65536
    ensures TakeTurn(Rx(EncodeFrame(f) + rest, s)) == Fault(Rx(EncodeFrame(f) + rest, s), [Fail(ControlFragmented)])
  {
    var p := f.piece;
    var head, body := EncodeHeader(p.fin, p.op, |p.payload|, f.mask), ApplyMask(f.mask, p.payload);
    assert EncodeFrame(f) + rest == head + (body + rest);
    HeaderRoundTrip(p.fin, p.op, |p.payload|, f.mask, body + rest);
  }

  /** A CLOSE message in one frame is answered; a longer one is complained about. */
  lemma HearsClose(c: Conn, enablePong: bool, s: Session, fs: seq<Frame>, payload: bytes)
    requires PiecesOf(fs) == Fragments(CLOSE, payload)
    ensures Hear(c, enablePong, s, fs) ==
      if OneFrame(payload) then OnPeerClose(c, payload)
      else StartClose(c, PROTOCOL_ERROR, ComplaintText(ControlFragmented))
  {
    hide OnPeerClose, StartClose, ComplaintText, Fragments, TakeTurn, ReactAll;
    FirstFragment(payload);
    var f := fs[0];
    assert PiecesOf(fs)[0] == f.piece;
    if OneFrame(payload) {
      assert fs == [f];
      DrainFrames(fs, s);
      OneClose(s, payload);
      ReactOne(c, enablePong, PeerClose(payload));
    } else {
      FragmentRefused(f, EncodeAll(fs[1..]), s);
      ReactOne(c, enablePong, Fail(ControlFragmented));
    }
  }

  lemma OneClose(s: Session, payload: bytes)
    ensures OnPieces(s, [Piece(true, CLOSE, payload)]) == (s, [PeerClose(payload)])
  {
    assert [Piece(true, CLOSE, payload)][1..] == [];
    assert [PeerClose(payload)] + [] == [PeerClose(payload)];
  }

  /** What a side replies with fits one frame when what it read did. */
  lemma AnswerFits(code: nat, reason: bytes)
    requires OneFrame(ClosePayload(code, reason))
    ensures var (c, r) := CloseStatus(ClosePayload(code, reason)); OneFrame(ClosePayload(c, r))
  {
    hide CloseStatus;
    CloseStatusSize(ClosePayload(code, reason));
  }

  // ---------------------------------------------------------------- the handshake

  /** The handshake succeeds with this code and reason. */
  ghost predicate Confirmed(code: nat, reason: bytes) {
    Travels(code, reason) && OneFrame(ClosePayload(code, reason))
  }

  /**
    One side closes and the other answers, each frame under any key. The first side is closed with
    its own code and reason exactly when these travel in one frame; otherwise the answer does not
    match and it goes on waiting. The other side is closed by its peer, with what it read, when
    the CLOSE message comes in one frame, and itself waits for an answer when it does not.
   */
  lemma ClosingHandshake(a: Conn, b: Conn, code: nat, reason: bytes, pongs: (bool, bool), sa: Session, sb: Session,
                         asking: seq<Frame>, answering: seq<Frame>)
    requires a.state == OPEN && b.state == OPEN && code < 65536
    requires PiecesOf(asking) == StartClose(a, code, reason).1
    requires PiecesOf(answering) == Hear(b, pongs.1, sb, asking).1
    ensures
      var a1, b1 := StartClose(a, code, reason).0, Hear(b, pongs.1, sb, asking).0;
      var (a2, more) := Hear(a1, pongs.0, sa, answering);
      var (c, r) := CloseStatus(ClosePayload(code, reason));
      && more == []
      && (a2.state == CLOSED <==> Confirmed(code, reason))
      && (if Confirmed(code, reason) then a2.closes == a.closes + [CloseEvent(code, reason, false)] else a2 == a1)
      && (b1.state == CLOSED <==> OneFrame(ClosePayload(code, reason)))
      && b1.closes == if b1.state == CLOSED then b.closes + [CloseEvent(c, r, true)] else b.closes
  {
    hide Travels, CloseStatus, ClosePayload, Fragments, InternalErrorText, Hear, OneFrame, ComplaintText, PiecesOf;
    var a1 := StartClose(a, code, reason).0;
    HearsClose(b, pongs.1, sb, asking, ClosePayload(code, reason));
    CloseRoundTrip(code, reason);
    if OneFrame(ClosePayload(code, reason)) {
      var (c, r) := CloseStatus(ClosePayload(code, reason));
      CloseSettles(code, reason);
      CloseRoundTrip(c, r);
      AnswerFits(code, reason);
      HearsClose(a1, pongs.0, sa, answering, ClosePayload(c, r));
    } else {
      var text := ComplaintText(ControlFragmented);
      ComplaintTravels(text);
      HearsClose(a1, pongs.0, sa, answering, ClosePayload(PROTOCOL_ERROR, text));
      LongReason(code, reason, text);
    }
  }

  lemma ComplaintTravels(text: bytes)
    requires text == ComplaintText(ControlFragmented)
    ensures |text| < 100 && OneFrame(ClosePayload(PROTOCOL_ERROR, text))
    ensures CloseStatus(ClosePayload(PROTOCOL_ERROR, text)) == (PROTOCOL_ERROR, text)
  {
    hide CloseStatus, Utf8.IsUtf8, Utf8.Validates;
    ComplaintTextSize(ControlFragmented);
    TextValidates("Control message fragmented");
    CloseRoundTrip(PROTOCOL_ERROR, text);
  }

  lemma LongReason(code: nat, reason: bytes, text: bytes)
    requires !OneFrame(ClosePayload(code, reason)) && |text| < 100
    ensures reason != text
  {
  }

  /** However it goes, after the closing delay the first side has been closed once, with its own code and reason. */
  lemma ClosesInTheEnd(a: Conn, b: Conn, code: nat, reason: bytes, pongs: (bool, bool), sa: Session, sb: Session,
                       asking: seq<Frame>, answering: seq<Frame>)
    requires a.state == OPEN && b.state == OPEN && code < 65536
    requires PiecesOf(asking) == StartClose(a, code, reason).1
    requires PiecesOf(answering) == Hear(b, pongs.1, sb, asking).1
    ensures
      var a2 := Hear(StartClose(a, code, reason).0, pongs.0, sa, answering).0;
      var b1 := Hear(b, pongs.1, sb, asking).0;
      && AfterClosingDelay(a2).state == CLOSED
      && AfterClosingDelay(a2).closes == a.closes + [CloseEvent(code, reason, false)]
      && AfterClosingDelay(b1).state == CLOSED && |AfterClosingDelay(b1).closes| == |b.closes| + 1
  {
    hide Confirmed, CloseStatus, ClosePayload, Fragments, InternalErrorText, Hear, OneFrame, PiecesOf, ComplaintText;
    ClosingHandshake(a, b, code, reason, pongs, sa, sb, asking, answering);
    HearsClose(b, pongs.1, sb, asking, ClosePayload(code, reason));
  }

  /** A normal code with a long UTF-8 reason travels, and yet the handshake fails: neither side is closed by it. */
  lemma LongReasonFails(a: Conn, b: Conn, reason: bytes, pongs: (bool, bool), sa: Session, sb: Session,
                        asking: seq<Frame>, answering: seq<Frame>)
    requires a.state == OPEN && b.state == OPEN && |reason| >= 65534 && Utf8.IsUtf8(reason)
    requires PiecesOf(asking) == StartClose(a, 1000, reason).1
    requires PiecesOf(answering) == Hear(b, pongs.1, sb, asking).1
    ensures Travels(1000, reason)
    ensures Hear(StartClose(a, 1000, reason).0, pongs.0, sa, answering).0.state != CLOSED
    ensures Hear(b, pongs.1, sb, asking).0.state != CLOSED
  {
    hide Hear, Utf8.IsUtf8, PiecesOf, Fragments, StartClose;
    ClosingHandshake(a, b, 1000, reason, pongs, sa, sb, asking, answering);
  }
}
