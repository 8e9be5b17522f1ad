/**
  The transport object: its buffers, its connection state, and the methods that read, send
  and dispatch. The socket accepts and delivers any number of bytes it likes.
 */
module WebSocketTransport {
  import opened Bytes
  import opened WebSocketFrame
  import opened WebSocketReceive
  import opened WebSocketConnection
  import WebSocketRules
  import Utf8

  /** A count of bytes; a negative one is an error, or "try again" if `wait` is set. */
  datatype Answer = Answer(count: int, wait: bool) {
    predicate TryAgain() { count < 0 && wait }
    predicate Failed() { count <= 0 && !TryAgain() }
  }

  /** The socket accepts at most the bytes it is offered. */
  method SocketSend(offered: nat) returns (ret: int, waitNeeded: bool)
    ensures ret <= offered
  {
    ret :| ret <= offered;
    waitNeeded := *;
  }

  /** The socket delivers some bytes, none at the end of the stream, or an error. */
  method SocketRecv(room: nat) returns (ret: int, data: bytes, waitNeeded: bool)
    ensures ret <= room && |data| == if ret > 0 then ret else 0
  {
    ret :| ret <= room;
    var supply: nat -> int := *;
    data := seq(if ret > 0 then ret else 0, (i: nat) => supply(i) % 256);
    waitNeeded := *;
  }

  /** The masking key `sendFragment` derives from the clock. */
  method MaskFromClock(useMask: bool) returns (m: Mask)
    ensures m.Mask? <==> useMask
  {
    var x: nat :| x < 0x1_0000_0000;
    m := if useMask then Mask(Octet(x, 3), Octet(x, 2), Octet(x, 1), Octet(x, 0)) else NoMask;
  }

  /** The header as `sendFragment` fills it in, octet by octet. */
  method BuildHeader(op: opcode, fin: bool, n: nat, m: Mask) returns (header: bytes)
    requires n < 0x1_0000_0000_0000_0000
    ensures header == EncodeHeader(fin, op, n, m)
  {
    hide Octet, EncodeLength;
    var size := 2 + (if n >= 126 then 2 else 0) + (if n >= 65536 then 6 else 0) + (if m.Mask? then 4 else 0);
    header := seq(size, _ => 0);
    header := header[0 := op];
    if fin {
      header := header[0 := header[0] + 128];
    }
    var maskBit := if m.Mask? then 128 else 0;
    ghost var lead := header[0];
    var at;
    header, at := PutLength(header, n, maskBit);
    assert header[..at] == [lead] + EncodeLength(n, maskBit);
    if m.Mask? {
      header := PutKey(header, at, m);
    } else {
      assert header == header[..at];
    }
  }

  method PutLength(header: bytes, n: nat, maskBit: nat) returns (out: bytes, at: nat)
    requires n < 0x1_0000_0000_0000_0000 && (maskBit == 0 || maskBit == 128)
    requires |header| >= 2 + (if n >= 126 then 2 else 0) + (if n >= 65536 then 6 else 0)
    ensures |out| == |header| && at == 2 + (if n >= 126 then 2 else 0) + (if n >= 65536 then 6 else 0)
    ensures out[..at] == [header[0]] + EncodeLength(n, maskBit)
  {
    hide Octet;
    if n < 126 {
      return header[1 := n % 256 + maskBit], 2;
    } else if n < 65536 {
      return header[1 := 126 + maskBit][2 := Octet(n, 1)][3 := Octet(n, 0)], 4;
    } else {
      out := header[1 := 127 + maskBit]
                   [2 := Octet(n, 7)][3 := Octet(n, 6)][4 := Octet(n, 5)][5 := Octet(n, 4)]
                   [6 := Octet(n, 3)][7 := Octet(n, 2)][8 := Octet(n, 1)][9 := Octet(n, 0)];
      return out, 10;
    }
  }

  method PutKey(header: bytes, at: nat, m: Mask) returns (out: bytes)
    requires m.Mask? && at + 4 == |header|
    ensures out == header[..at] + EncodeKey(m)
  {
    out := header[at := m.k0][at + 1 := m.k1][at + 2 := m.k2][at + 3 := m.k3];
  }

  /** The length field, octet by octet. */
  method ReadLength(buf: bytes, at: nat, count: nat) returns (n: nat)
    requires at + count <= |buf|
    ensures n == BigEndian(buf[at..at + count])
  {
    n := 0;
    for i := 0 to count
      invariant n == BigEndian(buf[at..at + i])
    {
      assert buf[at..at + i + 1] == buf[at..at + i] + [buf[at + i]];
      assert buf[at..at + i + 1][..i] == buf[at..at + i];
      n := n * 256 + buf[at + i];
    }
  }

  /** Look at the header without consuming it. */
  method PeekHeader(buf: bytes) returns (r: HeaderResult)
    ensures r == if HasHeader(buf) then Complete(ParseHeader(buf)) else Incomplete
  {
    if |buf| < 2 {
      return Incomplete;
    }
    var fin, mask := buf[0] >= 128, buf[1] >= 128;
    var rsv1, rsv2, rsv3 := buf[0] / 64 % 2 == 1, buf[0] / 32 % 2 == 1, buf[0] / 16 % 2 == 1;
    var n0 := buf[1] % 128;
    var size := 2 + (if n0 == 126 then 2 else 0) + (if n0 == 127 then 8 else 0) + (if mask then 4 else 0);
    if |buf| < size {
      return Incomplete;
    }
    var n, i := n0, 2;
    if n0 == 126 {
      n := ReadLength(buf, 2, 2);
      i := 4;
    } else if n0 == 127 {
      n := ReadLength(buf, 2, 8);
      i := 10;
    }
    var key := if mask then Mask(buf[i], buf[i + 1], buf[i + 2], buf[i + 3]) else NoMask;
    r := Complete(Header(fin, rsv1, rsv2, rsv3, buf[0] % 16, size, n, key));
  }

  /** Exclusive or with the key, in place, from `start` on. */
  method MaskInPlace(buf: bytes, start: nat, count: nat, m: Mask) returns (out: bytes)
    requires start + count <= |buf|
    ensures out == buf[..start] + ApplyMask(m, buf[start..start + count]) + buf[start + count..]
  {
    out := buf;
    if m.Mask? {
      for i := 0 to count
        invariant |out| == |buf|
        invariant forall j | 0 <= j < |buf| ::
          out[j] == if start <= j < start + i then Xor(buf[j], KeyByte(m, j - start)) else buf[j]
      {
        out := out[start + i := Xor(out[start + i], KeyByte(m, i))];
      }
    }
  }

  /** The loop stopped for want of a header; only then is an abnormal poll result looked at. */
  predicate Abrupt(o: Outcome) {
    !o.fault && !HasHeader(o.rx.buf)
  }

  lemma EncodeOne(f: Frame)
    ensures EncodeAll([f]) == EncodeFrame(f)
  {
  }

  /** The code and reason of a received CLOSE frame. */
  method ReadCloseFrame(payload: bytes) returns (code: nat, reason: bytes)
    ensures (code, reason) == CloseStatus(payload)
  {
    hide Utf8.Validates, Utf8.IsUtf8, Ascii, NoStatusText, InvalidPayloadText;
    reason := [];
    code := 0;
    if |payload| >= 2 {
      code := 256 * (payload[0] as int) + payload[1];
      reason := payload[2..];
      var valid := Utf8.ValidateUtf8(reason);
      if !valid {
        code := INVALID_PAYLOAD;
        reason := InvalidPayloadText();
      }
      if code < 1000 || code == 1004 || code == 1006 || (code > 1013 && code < 3000) {
        reason := Ascii("Invalid close code: " + CodeText(code));
        code := PROTOCOL_ERROR;
      }
    } else {
      code := NO_STATUS;
      reason := NoStatusText();
    }
  }

  class WebSocketTransport {
    const useMask: bool
    const enablePong: bool

    // receiving
    var rxbuf: bytes
    var rxbufWanted: nat
    var chunks: seq<bytes>
    var fragmentedMessageKind: Kind
    // sending
    var txbuf: bytes
    // the connection
    var readyState: ReadyState
    var closeCode: nat
    var closeReason: bytes
    var closeRemote: bool
    var requestInitCancellation: bool
    var pongReceived: bool

    /** Calls of the message callback and of the close callback, in order. */
    ghost var events: seq<Event>
    ghost var closes: seq<CloseEvent>
    /** Every frame handed to the send buffer, in order. */
    ghost var framed: seq<Frame>
    /** The bytes the socket has accepted, and those it has delivered. */
    ghost var sent: bytes
    ghost var received: bytes
    /** What the socket has answered when it was offered bytes, and when it was asked for them. */
    ghost var answers: seq<Answer>
    ghost var recvs: seq<Answer>
    /** A send has failed. */
    ghost var broken: bool
    /** Received bytes were thrown away after an abnormal end of the stream. */
    ghost var discarded: bool
    ghost const startKind: Kind

    /** Send-side conservation. */
    ghost predicate Conserves()
      reads this
    {
      && sent + txbuf == EncodeAll(framed)
      && forall f | f in framed :: f.mask.Mask? <==> useMask
    }

    ghost predicate Valid()
      reads this
    {
      && Conserves()
      && WantedFor(rxbufWanted, rxbuf)
      && (!discarded ==> InStep(Rx(received, Session([], startKind)), Receiver(), events))
    }

    function Receiver(): Rx
      reads this
    {
      Rx(rxbuf, Session(chunks, fragmentedMessageKind))
    }

    ghost function Connection(): Conn
      reads this
    {
      Conn(readyState, closeCode, closeReason, closeRemote, requestInitCancellation, pongReceived, closes)
    }

    /** The method carried out the actions: it made these callbacks, and reacted so. */
    twostate predicate Performed(actions: seq<Action>)
      reads this
    {
      && Conserves()
      && (old(broken) ==> broken)
      && (!broken ==>
            Leads(enablePong, old(Connection()), PiecesOf(old(framed)), actions, Connection(), PiecesOf(framed)))
      && events == old(events) + Deliveries(actions)
    }

    /** What a method did to the connection and sent, as long as no send has failed. */
    twostate predicate Reacted(result: (Conn, seq<Piece>))
      reads this
    {
      && Conserves()
      && (old(broken) ==> broken)
      && (!broken ==> Connection() == result.0 && PiecesOf(framed) == PiecesOf(old(framed)) + result.1)
    }

    constructor (useMask: bool, enablePong: bool, kind: Kind)
      ensures Valid() && !discarded && !broken
      ensures this.useMask == useMask && this.enablePong == enablePong && startKind == kind
      ensures Receiver() == Rx([], Session([], kind)) && rxbufWanted == 0 && txbuf == []
      ensures events == [] && framed == [] && received == [] && sent == []
      ensures Connection() == Conn(CLOSED, INTERNAL_ERROR, InternalErrorText(), false, false, false, [])
    {
      this.useMask, this.enablePong := useMask, enablePong;
      rxbuf, rxbufWanted, chunks, fragmentedMessageKind := [], 0, [], kind;
      txbuf := [];
      readyState, closeCode, closeReason, closeRemote := CLOSED, INTERNAL_ERROR, InternalErrorText(), false;
      requestInitCancellation, pongReceived := false, false;
      events, closes, framed, sent, received, answers, recvs := [], [], [], [], [], [], [];
      broken, discarded, startKind := false, false, kind;
      new;
      NothingToDrain(Session([], kind));
    }

    method SetReadyState(s: ReadyState)
      modifies `readyState, `closeCode, `closeReason, `closeRemote, `pongReceived, `closes
      ensures Connection() == Enter(old(Connection()), s)
    {
      if readyState == s {
        return;
      }
      if s == CLOSED {
        closes := closes + [CloseEvent(closeCode, closeReason, closeRemote)];
        closeReason := InternalErrorText();
        closeCode := INTERNAL_ERROR;
        closeRemote := false;
      } else if s == OPEN {
        pongReceived := false;
      }
      readyState := s;
    }

    method CloseSocketAndSwitchToClosedState(code: nat, reason: bytes, remote: bool)
      modifies `readyState, `closeCode, `closeReason, `closeRemote, `pongReceived, `closes, `requestInitCancellation
      ensures Connection() == SwitchToClosed(old(Connection()), code, reason, remote)
    {
      closeReason := reason;
      closeCode := code;
      closeRemote := remote;
      SetReadyState(CLOSED);
      requestInitCancellation := false;
    }

    // -------------------------------------------------------------- sending

    method AppendToSendBuffer(header: bytes, payload: bytes, m: Mask)
      requires m.Mask? <==> useMask
      modifies `txbuf
      ensures txbuf == old(txbuf) + header + ApplyMask(m, payload)
    {
      txbuf := txbuf + header;
      ghost var before := txbuf;
      txbuf := txbuf + payload;
      if useMask {
        txbuf := MaskInPlace(txbuf, |txbuf| - |payload|, |payload|, m);
        assert (before + payload)[|before|..] == payload;
        assert (before + payload)[..|before|] == before;
      }
    }

    /** Offer the send buffer to the socket until it is empty, the socket blocks, or it fails. */
    method SendOnSocket() returns (ok: bool)
      requires Conserves()
      modifies `answers
      modifies `txbuf, `sent, `broken, `readyState, `closeCode, `closeReason, `closeRemote, `pongReceived, `closes
      ensures Reacted((old(Connection()), []))
      ensures if ok then broken == old(broken) else broken
      ensures old(sent) <= sent
      ensures old(answers) <= answers
      ensures ok && txbuf != [] ==> |answers| > |old(answers)| && answers[|answers| - 1].TryAgain()
      ensures !ok ==> |answers| > |old(answers)| && answers[|answers| - 1].Failed()
      ensures !ok ==> readyState == if old(readyState) == CLOSING then CLOSING else CLOSED
    {
      hide InternalErrorText, EncodeAll, PiecesOf, Enter;
      while txbuf != []
        invariant Conserves() && broken == old(broken) && old(sent) <= sent && old(answers) <= answers
        invariant Connection() == old(Connection())
        decreases |txbuf|
      {
        var ret, waitNeeded := SocketSend(|txbuf|);
        answers := answers + [Answer(ret, waitNeeded)];
        if ret < 0 && waitNeeded {
          break;
        } else if ret <= 0 {
          broken := true;
          assert Conserves();
          if readyState != CLOSING {
            SetReadyState(CLOSED);
            Entered(old(Connection()));
          }
          return false;
        } else {
          sent := sent + txbuf[..ret];
          assert txbuf == txbuf[..ret] + txbuf[ret..];
          txbuf := txbuf[ret..];
        }
      }
      assert PiecesOf(framed) + [] == PiecesOf(framed);
      ok := true;
    }

    /** Frame a piece, put it behind the bytes waiting to be sent, and try to send. */
    method SendFragment(op: opcode, fin: bool, payload: bytes) returns (ok: bool)
      requires Conserves() && |payload| < 0x1_0000_0000_0000_0000
      modifies `answers
      modifies `txbuf, `sent, `framed, `broken
      modifies `readyState, `closeCode, `closeReason, `closeRemote, `pongReceived, `closes
      ensures Reacted((old(Connection()), [Piece(fin, op, payload)]))
      ensures PiecesOf(framed) == PiecesOf(old(framed)) + [Piece(fin, op, payload)]
      ensures if ok then broken == old(broken) else broken
    {
      hide InternalErrorText, EncodeHeader, ApplyMask, Octet, EncodeAll;
      var m := MaskFromClock(useMask);
      var header := BuildHeader(op, fin, |payload|, m);
      ghost var f := Frame(Piece(fin, op, payload), m);
      AppendToSendBuffer(header, payload, m);
      framed := framed + [f];
      assert Conserves() by {
        EncodeOne(f);
        EncodeAllAppend(old(framed), [f]);
        assert txbuf == old(txbuf) + EncodeFrame(f);
        assert sent + (old(txbuf) + EncodeFrame(f)) == (sent + old(txbuf)) + EncodeFrame(f);
      }
      PiecesAppend(old(framed), [f]);
      assert PiecesOf([f]) == [f.piece];
      ok := SendOnSocket();
    }

    /** A long message, fragment by fragment; the progress callback can stop it in between. */
    method SendInFragments(op: opcode, message: bytes, onProgress: (nat, nat) -> bool)
      returns (success: bool, ghost count: nat)
      requires Conserves() && CHUNK_SIZE <= |message| < 0x1_0000_0000_0000_0000
      modifies `answers
      modifies `txbuf, `sent, `framed, `broken
      modifies `readyState, `closeCode, `closeReason, `closeRemote, `pongReceived, `closes
      ensures Conserves() && (old(broken) ==> broken)
      ensures count <= |Fragments(op, message)|
      ensures PiecesOf(framed) == PiecesOf(old(framed)) + Fragments(op, message)[..count]
      ensures !broken ==> Connection() == old(Connection())
      ensures !broken && (forall i, n :: onProgress(i, n)) ==> count == |Fragments(op, message)|
      ensures if success then broken == old(broken) else broken
    {
      hide EncodeAll, PiecesOf, Fragments, InternalErrorText;
      ghost var all := Fragments(op, message);
      FragmentAt(op, message, 0);
      assert PiecesOf(framed) + all[..0] == PiecesOf(framed);
      var steps := |message| / CHUNK_SIZE;
      var begin := 0;
      count := 0;
      for i := 0 to steps
        invariant Conserves() && begin == i * CHUNK_SIZE && count == i && |all| == steps
        invariant PiecesOf(framed) == PiecesOf(old(framed)) + all[..i]
        invariant broken == old(broken)
        invariant !broken ==> Connection() == old(Connection())
      {
        FragmentAt(op, message, i);
        var firstStep, lastStep := i == 0, i + 1 == steps;
        var end := begin + CHUNK_SIZE;
        if lastStep {
          end := |message|;
        }
        var opcodeType: opcode := op;
        if !firstStep {
          opcodeType := CONTINUATION;
        }
        var ok := SendFragment(opcodeType, lastStep, message[begin..end]);
        count := count + 1;
        assert all[..i + 1] == all[..i] + [all[i]];
        if !ok {
          return false, count;
        }
        if !onProgress(i, steps) {
          break;
        }
        begin := begin + CHUNK_SIZE;
      }
      success := true;
    }

    /** Send a message: in one frame when it is short, in fragments otherwise. */
    method SendData(op: opcode, message: bytes, onProgress: (nat, nat) -> bool)
      returns (success: bool, ghost count: nat)
      requires Conserves() && |message| < 0x1_0000_0000_0000_0000
      modifies `answers
      modifies `txbuf, `sent, `framed, `broken
      modifies `readyState, `closeCode, `closeReason, `closeRemote, `pongReceived, `closes
      ensures Conserves()
      ensures count <= |Fragments(op, message)|
      ensures PiecesOf(framed) == PiecesOf(old(framed)) + Fragments(op, message)[..count]
      ensures !CanSend(old(readyState)) ==>
        !success && count == 0 && Connection() == old(Connection()) && broken == old(broken) && txbuf == old(txbuf)
      ensures CanSend(old(readyState)) && (forall i, n :: onProgress(i, n)) ==>
        Reacted((old(Connection()), Fragments(op, message)))
      ensures success ==> broken == old(broken)
      ensures CanSend(old(readyState)) && !success ==> broken
    {
      hide EncodeAll, PiecesOf, Fragments, InternalErrorText;
      ghost var all := Fragments(op, message);
      if readyState != OPEN && readyState != CLOSING {
        assert PiecesOf(framed) + all[..0] == PiecesOf(framed);
        return false, 0;
      }
      if |message| < CHUNK_SIZE {
        FragmentAt(op, message, 0);
        assert message[0..|message|] == message;
        assert all == [Piece(true, op, message)];
        success := SendFragment(op, true, message);
        count := 1;
        assert all[..1] == all;
        var more := onProgress(0, 1);
      } else {
        success, count := SendInFragments(op, message, onProgress);
        assert all[..|all|] == all;
      }
    }

    method SendCloseFrame(code: nat, reason: bytes)
      requires Conserves() && CanSend(readyState) && |reason| < MAX_FRAME_SIZE + 0x1_0000_0000
      modifies `answers
      modifies `txbuf, `sent, `framed, `broken
      modifies `readyState, `closeCode, `closeReason, `closeRemote, `pongReceived, `closes
      ensures Reacted((old(Connection()), Fragments(CLOSE, ClosePayload(code, reason))))
    {
      hide EncodeAll, PiecesOf, Fragments, InternalErrorText;
      ghost var count;
      var success;
      if code != NO_STATUS {
        var closure: bytes := [code / 256 % 256, code % 256];
        closure := closure + reason;
        success, count := SendData(CLOSE, closure, (i, n) => true);
      } else {
        success, count := SendData(CLOSE, [], (i, n) => true);
      }
    }

    /** Start closing from this side. */
    method Close(code: nat, reason: bytes)
      requires Conserves() && |reason| < MAX_FRAME_SIZE + 0x1_0000_0000
      modifies `answers
      modifies `txbuf, `sent, `framed, `broken, `requestInitCancellation
      modifies `readyState, `closeCode, `closeReason, `closeRemote, `pongReceived, `closes
      ensures Reacted(StartClose(old(Connection()), code, reason))
    {
      hide EncodeAll, PiecesOf, Fragments, InternalErrorText, ClosePayload;
      requestInitCancellation := true;
      if readyState == CLOSING || readyState == CLOSED {
        assert PiecesOf(framed) + [] == PiecesOf(framed);
        return;
      }
      closeReason := reason;
      closeCode := code;
      closeRemote := false;
      SetReadyState(CLOSING);
      SendCloseFrame(code, reason);
    }

    method Complain(c: Complaint)
      requires Conserves()
      modifies `answers
      modifies `txbuf, `sent, `framed, `broken, `requestInitCancellation
      modifies `readyState, `closeCode, `closeReason, `closeRemote, `pongReceived, `closes
      ensures Performed([Fail(c)])
    {
      hide EncodeAll, PiecesOf, Fragments, InternalErrorText, ComplaintText, StartClose;
      ComplaintTextSize(c);
      ReactOne(Connection(), enablePong, Fail(c));
      Close(ComplaintCode(c), ComplaintText(c));
      DeliveriesOne(Fail(c));
    }

    /** A CLOSE frame has arrived. */
    method HandleCloseFrame(payload: bytes)
      requires Conserves() && |payload| <= MAX_FRAME_SIZE
      modifies `answers
      modifies `txbuf, `sent, `framed, `broken, `requestInitCancellation
      modifies `readyState, `closeCode, `closeReason, `closeRemote, `pongReceived, `closes
      ensures Performed([PeerClose(payload)])
    {
      hide EncodeAll, PiecesOf, Fragments, InternalErrorText, ClosePayload, CloseStatus;
      ReactOne(Connection(), enablePong, PeerClose(payload));
      DeliveriesOne(PeerClose(payload));
      var code, reason := ReadCloseFrame(payload);
      CloseStatusSize(payload);
      if readyState != CLOSING {
        SetReadyState(CLOSING);
        SendCloseFrame(code, reason);
        CloseSocketAndSwitchToClosedState(code, reason, true);
      } else {
        assert PiecesOf(framed) + [] == PiecesOf(framed);
        var identicalReason := closeCode == code && closeReason == reason;
        if identicalReason {
          CloseSocketAndSwitchToClosedState(code, reason, false);
        }
      }
    }

    /** Call the message callback, unless a text is not valid UTF-8. */
    method EmitMessage(kind: Kind, payload: bytes)
      requires Conserves()
      modifies `answers
      modifies `txbuf, `sent, `framed, `broken, `requestInitCancellation, `events
      modifies `readyState, `closeCode, `closeReason, `closeRemote, `pongReceived, `closes
      ensures Performed(Emit(kind, payload))
      ensures kind == MsgText && !Utf8.IsUtf8(payload) ==>
        events == old(events) && (old(readyState) == OPEN && !broken ==> readyState == CLOSING && closeCode == 1007)
      ensures kind != MsgText || Utf8.IsUtf8(payload) ==>
        events == old(events) + [Message(kind, payload)] && (!broken ==> Connection() == old(Connection()))
    {
      WebSocketRules.EmitsExactly(Connection(), enablePong, kind, payload);
      hide EncodeAll, PiecesOf, Utf8.Validates, Utf8.IsUtf8, ComplaintText, StartClose;
      var valid := true;
      if kind == MsgText {
        valid := Utf8.ValidateUtf8(payload);
      }
      if !valid {
        Complain(InvalidText);
      } else {
        Announce(Message(kind, payload));
      }
    }

    method Announce(e: Event)
      requires Conserves()
      modifies `events
      ensures Performed([Deliver(e)])
    {
      hide EncodeAll, PiecesOf;
      ReactOne(Connection(), enablePong, Deliver(e));
      DeliveriesOne(Deliver(e));
      events := events + [e];
      assert PiecesOf(framed) + [] == PiecesOf(framed);
    }

    method GetMergedChunks() returns (msg: bytes)
      ensures msg == Concat(chunks)
    {
      msg := [];
      for i := 0 to |chunks|
        invariant msg == Concat(chunks[..i])
      {
        assert chunks[..i + 1] == chunks[..i] + [chunks[i]];
        ConcatAppend(chunks[..i], [chunks[i]]);
        ConcatOne(chunks[i]);
        msg := msg + chunks[i];
      }
      assert chunks[..|chunks|] == chunks;
    }

    /** Complain about a data frame that does not fit the message being received. */
    method CheckSequence(op: opcode) returns (ghost actions: seq<Action>)
      requires Conserves() && IsData(op)
      modifies `answers
      modifies `txbuf, `sent, `framed, `broken, `requestInitCancellation, `fragmentedMessageKind
      modifies `readyState, `closeCode, `closeReason, `closeRemote, `pongReceived, `closes
      ensures fragmentedMessageKind
           == if op == CONTINUATION then old(fragmentedMessageKind) else if op == TEXT_FRAME then MsgText else MsgBinary
      ensures actions ==
        if op != CONTINUATION && chunks != [] then [Fail(DataOutOfSequence)]
        else if op == CONTINUATION && chunks == [] then [Fail(ContinuationOutOfSequence)]
        else []
      ensures Performed(actions)
    {
      hide EncodeAll, PiecesOf, React;
      actions := [];
      assert PiecesOf(framed) + [] == PiecesOf(framed);
      if op != CONTINUATION {
        fragmentedMessageKind := if op == TEXT_FRAME then MsgText else MsgBinary;
        if chunks != [] {
          Complain(DataOutOfSequence);
          actions := [Fail(DataOutOfSequence)];
        }
      } else if chunks == [] {
        Complain(ContinuationOutOfSequence);
        actions := [Fail(ContinuationOutOfSequence)];
      }
    }

    method StoreOrEmit(fin: bool, payload: bytes) returns (ghost actions: seq<Action>)
      requires Conserves()
      modifies `answers
      modifies `txbuf, `sent, `framed, `broken, `requestInitCancellation, `events, `chunks
      modifies `readyState, `closeCode, `closeReason, `closeRemote, `pongReceived, `closes
      ensures chunks == if fin then [] else old(chunks) + [payload]
      ensures actions ==
        if fin && old(chunks) == [] then Emit(fragmentedMessageKind, payload)
        else if fin then Emit(fragmentedMessageKind, Concat(old(chunks) + [payload]))
        else [Deliver(Fragment)]
      ensures Performed(actions)
    {
      hide EncodeAll, PiecesOf, React, ReactAll, Emit, Deliveries, Concat;
      if fin && chunks == [] {
        actions := Emit(fragmentedMessageKind, payload);
        EmitMessage(fragmentedMessageKind, payload);
      } else {
        chunks := chunks + [payload];
        if fin {
          var merged := GetMergedChunks();
          actions := Emit(fragmentedMessageKind, merged);
          EmitMessage(fragmentedMessageKind, merged);
          chunks := [];
        } else {
          actions := [Deliver(Fragment)];
          Announce(Fragment);
        }
      }
    }

    method HandleData(fin: bool, op: opcode, payload: bytes)
      requires Conserves() && IsData(op)
      modifies `answers
      modifies `txbuf, `sent, `framed, `broken, `requestInitCancellation, `events, `chunks, `fragmentedMessageKind
      modifies `readyState, `closeCode, `closeReason, `closeRemote, `pongReceived, `closes
      ensures Session(chunks, fragmentedMessageKind)
           == OnData(Session(old(chunks), old(fragmentedMessageKind)), fin, op, payload).0
      ensures Performed(OnData(Session(old(chunks), old(fragmentedMessageKind)), fin, op, payload).1)
    {
      hide EncodeAll, PiecesOf, ReactAll, Emit, Deliveries, Concat, Leads;
      ghost var a := CheckSequence(op);
      ghost var c1, p1 := Connection(), PiecesOf(framed);
      label mid:
      ghost var b := StoreOrEmit(fin, payload);
      if !broken {
        LeadsOn(enablePong, old(Connection()), PiecesOf(old(framed)), a, c1, p1, b, Connection(), PiecesOf(framed));
      }
      DeliveriesAppend(a, b);
      assert OnData(Session(old(chunks), old(fragmentedMessageKind)), fin, op, payload).1 == a + b;
    }

    method HandlePing(payload: bytes)
      requires Conserves() && |payload| <= 125
      modifies `answers
      modifies `txbuf, `sent, `framed, `broken, `events
      modifies `readyState, `closeCode, `closeReason, `closeRemote, `pongReceived, `closes
      ensures Performed([ReplyPong(payload), Deliver(PingReceived(payload))])
    {
      hide EncodeAll, PiecesOf, Fragments, Deliveries;
      ReactOne(Connection(), enablePong, ReplyPong(payload));
      assert PiecesOf(framed) + [] == PiecesOf(framed);
      if enablePong {
        var success, count := SendData(PONG, payload, (i, n) => true);
      }
      ghost var c1, p1 := Connection(), PiecesOf(framed);
      ghost var a, b := [ReplyPong(payload)], [Deliver(PingReceived(payload))];
      Announce(PingReceived(payload));
      if !broken {
        LeadsOn(enablePong, old(Connection()), PiecesOf(old(framed)), a, c1, p1, b, Connection(), PiecesOf(framed));
      }
      DeliveriesOne(ReplyPong(payload));
      DeliveriesAppend(a, b);
      assert a + b == [ReplyPong(payload), Deliver(PingReceived(payload))];
    }

    method HandlePong(payload: bytes)
      requires Conserves()
      modifies `pongReceived, `events
      ensures Performed([NotePong, Deliver(PongReceived(payload))])
    {
      hide EncodeAll, PiecesOf, Deliveries;
      ReactOne(Connection(), enablePong, NotePong);
      assert PiecesOf(framed) + [] == PiecesOf(framed);
      pongReceived := true;
      ghost var c1, p1 := Connection(), PiecesOf(framed);
      ghost var a, b := [NotePong], [Deliver(PongReceived(payload))];
      Announce(PongReceived(payload));
      if !broken {
        LeadsOn(enablePong, old(Connection()), PiecesOf(old(framed)), a, c1, p1, b, Connection(), PiecesOf(framed));
      }
      DeliveriesOne(NotePong);
      DeliveriesAppend(a, b);
      assert a + b == [NotePong, Deliver(PongReceived(payload))];
    }

    /** A whole frame, unmasked. */
    method HandlePayload(fin: bool, op: opcode, payload: bytes)
      requires Conserves() && |payload| <= MAX_FRAME_SIZE && (op == PING ==> |payload| <= 125)
      modifies `answers
      modifies `txbuf, `sent, `framed, `broken, `requestInitCancellation, `events, `chunks, `fragmentedMessageKind
      modifies `readyState, `closeCode, `closeReason, `closeRemote, `pongReceived, `closes
      ensures Session(chunks, fragmentedMessageKind)
           == OnPayload(Session(old(chunks), old(fragmentedMessageKind)), fin, op, payload).0
      ensures Performed(OnPayload(Session(old(chunks), old(fragmentedMessageKind)), fin, op, payload).1)
    {
      hide EncodeAll, PiecesOf, OnData, Deliveries, Leads;
      if op == TEXT_FRAME || op == BINARY_FRAME || op == CONTINUATION {
        HandleData(fin, op, payload);
      } else if op == PING {
        HandlePing(payload);
      } else if op == PONG {
        HandlePong(payload);
      } else if op == CLOSE {
        HandleCloseFrame(payload);
      } else {
        Complain(UnexpectedOpcode);
      }
    }

    // -------------------------------------------------------------- receiving

    method UnmaskReceiveBuffer(ws: Header)
      requires ws.size + ws.length <= |rxbuf|
      modifies `rxbuf
      ensures rxbuf == old(rxbuf)[..ws.size]
                     + ApplyMask(ws.mask, old(rxbuf)[ws.size..ws.size + ws.length])
                     + old(rxbuf)[ws.size + ws.length..]
    {
      rxbuf := MaskInPlace(rxbuf, ws.size, ws.length, ws.mask);
    }

    /** The whole frame is in the buffer: handle it, and take it out unless it is at fault. */
    method HandleFrame(ws: Header) returns (turn: Turn)
      requires Conserves() && ws.size + ws.length <= |rxbuf| && ws.length <= MAX_FRAME_SIZE
      modifies `answers
      modifies `txbuf, `sent, `framed, `broken, `requestInitCancellation, `events, `chunks, `fragmentedMessageKind
      modifies `readyState, `closeCode, `closeReason, `closeRemote, `pongReceived, `closes, `rxbuf
      ensures turn == TakeFrame(old(Receiver()), ws)
      ensures (turn.Fault? || turn.Handled?) && Receiver() == turn.rx && Performed(turn.actions)
    {
      hide EncodeAll, PiecesOf, Deliveries, Leads, OnPayload, ApplyMask;
      turn := TakeFrame(Receiver(), ws);
      if !ws.fin && (ws.op == PING || ws.op == PONG || ws.op == CLOSE) {
        Complain(ControlFragmented);
        return;
      }
      UnmaskReceiveBuffer(ws);
      var frameData := rxbuf[ws.size..ws.size + ws.length];
      assert frameData == ApplyMask(ws.mask, old(rxbuf)[ws.size..ws.size + ws.length]);
      if ws.op == PING && |frameData| > 125 {
        Complain(PingOversized);
        return;
      }
      HandlePayload(ws.fin, ws.op, frameData);
      rxbuf := rxbuf[ws.size + ws.length..];
      assert rxbuf == old(rxbuf)[ws.size + ws.length..];
    }

    /** One turn of the dispatch loop. */
    method DispatchTurn() returns (turn: Turn)
      requires Conserves() && WantedFor(rxbufWanted, rxbuf)
      modifies `answers
      modifies `txbuf, `sent, `framed, `broken, `requestInitCancellation, `events, `chunks, `fragmentedMessageKind
      modifies `readyState, `closeCode, `closeReason, `closeRemote, `pongReceived, `closes, `rxbuf, `rxbufWanted
      ensures turn == TakeTurn(old(Receiver()))
      ensures turn.NeedHeader? || turn.NeedPayload? ==> Receiver() == old(Receiver()) && Performed([])
      ensures turn.Fault? || turn.Handled? ==> Receiver() == turn.rx && Performed(turn.actions)
      ensures !turn.Handled? ==> rxbufWanted == WantedOf(rxbuf)
      ensures turn.Handled? ==> rxbufWanted == 0
    {
      hide EncodeAll, PiecesOf, Deliveries, Leads, ParseHeader, TakeFrame;
      TurnWanted(Receiver());
      NoActions();
      var peek := PeekHeader(rxbuf);
      if peek.Incomplete? {
        return NeedHeader;
      }
      var ws := peek.header;
      if ws.rsv1 || ws.rsv2 || ws.rsv3 {
        turn := Fault(Receiver(), [Fail(ReservedBitUsed)]);
        Complain(ReservedBitUsed);
        return;
      }
      if ws.length > MAX_FRAME_SIZE {
        return Fault(Receiver(), []);
      }
      if |rxbuf| < ws.size + ws.length {
        rxbufWanted := ws.size + ws.length;
        return NeedPayload;
      }
      rxbufWanted := 0;
      turn := HandleFrame(ws);
    }

    /** The dispatch loop; it tells whether it stopped for want of a header. */
    method DrainBuffer() returns (ended: bool)
      requires Conserves() && WantedFor(rxbufWanted, rxbuf)
      modifies `answers
      modifies `txbuf, `sent, `framed, `broken, `requestInitCancellation, `events, `chunks, `fragmentedMessageKind
      modifies `readyState, `closeCode, `closeReason, `closeRemote, `pongReceived, `closes, `rxbuf, `rxbufWanted
      ensures Receiver() == Drain(old(Receiver())).rx
      ensures Performed(Drain(old(Receiver())).actions)
      ensures rxbufWanted == WantedOf(rxbuf)
      ensures ended <==> !Drain(old(Receiver())).fault && !HasHeader(rxbuf)
    {
      hide EncodeAll, PiecesOf, Deliveries, Leads, TakeTurn, HasHeader, ParseHeader, Drain, After, WantedOf;
      ghost var goal := Drain(Receiver());
      ghost var done: seq<Action> := [];
      NoActions();
      NothingBefore(goal);
      while true
        invariant Conserves() && WantedFor(rxbufWanted, rxbuf)
        invariant Performed(done)
        invariant goal == After(done, Drain(Receiver()))
        decreases |rxbuf|
      {
        ghost var c1, p1 := Connection(), PiecesOf(framed);
        ghost var rx := Receiver();
        var turn := DispatchTurn();
        TurnEnds(rx);
        ghost var now := if turn.Fault? || turn.Handled? then turn.actions else [];
        if !broken {
          LeadsOn(enablePong, old(Connection()), PiecesOf(old(framed)), done, c1, p1,
                  now, Connection(), PiecesOf(framed));
        }
        DeliveriesOn(old(events), done, now);
        DrainOn(rx, done);
        if turn.Handled? {
          done := done + now;
        } else {
          return turn.NeedHeader?;
        }
      }
    }

    /**
      Handle everything that has arrived. However the stream was cut, what has been delivered
      is what draining the whole stream delivers; afterwards the buffer waits for bytes,
      unless a fault is in the way.
     */
    method Dispatch(pollResult: PollResult)
      requires Valid()
      modifies `answers
      modifies `txbuf, `sent, `framed, `broken, `requestInitCancellation, `events, `chunks, `fragmentedMessageKind
      modifies `readyState, `closeCode, `closeReason, `closeRemote, `pongReceived, `closes, `rxbuf, `rxbufWanted
      modifies `discarded
      ensures Valid()
      ensures events == old(events) + Deliveries(Drain(old(Receiver())).actions)
      ensures discarded <==> old(discarded) || (Abrupt(Drain(old(Receiver()))) && pollResult != Succeeded)
      ensures Receiver() ==
        var o := Drain(old(Receiver()));
        if Abrupt(o) && pollResult != Succeeded then o.rx.(buf := []) else o.rx
      ensures rxbufWanted == WantedOf(rxbuf)
      ensures !Drain(old(Receiver())).fault ==> Waiting(rxbufWanted, |rxbuf|)
      ensures !broken ==>
        var o := Drain(old(Receiver()));
        var (c, ps) := ReactAll(old(Connection()), enablePong, o.actions);
        && !old(broken)
        && PiecesOf(framed) == PiecesOf(old(framed)) + ps
        && Connection() == if Abrupt(o) && pollResult != Succeeded then AfterAbnormalEnd(c) else c
      ensures !discarded ==> events == Deliveries(Drain(Rx(received, Session([], startKind))).actions)
      ensures forall text | Message(MsgText, text) in events && Message(MsgText, text) !in old(events) ::
        Utf8.IsUtf8(text)
    {
      hide EncodeAll, PiecesOf, Deliveries, Drain, InStep, WantedFor, WantedOf, HasHeader, ReactAll;
      hide AfterAbnormalEnd, Waiting, Utf8.IsUtf8;
      ghost var at := Receiver();
      WebSocketRules.AllUtf8(at, events);
      if !discarded {
        InStepDrained(Rx(received, Session([], startKind)), at, events);
        InStepWhenQuiet(Rx(received, Session([], startKind)), at, events);
      }
      if !Drain(at).fault {
        DrainedWaits(at);
      }
      WantedExact(Drain(at).rx.buf);
      WantedExact([]);
      var ended := DrainBuffer();
      if ended && pollResult != Succeeded {
        EndAbnormally();
      }
    }

    /** Throw the buffer away and close, unless the connection is closed already. */
    method EndAbnormally()
      modifies `rxbuf, `discarded, `requestInitCancellation
      modifies `readyState, `closeCode, `closeReason, `closeRemote, `pongReceived, `closes
      ensures rxbuf == [] && discarded
      ensures Connection() == AfterAbnormalEnd(old(Connection()))
    {
      hide InternalErrorText, AbnormalText;
      rxbuf := [];
      discarded := true;
      if readyState == CLOSING {
        SetReadyState(CLOSED);
      } else if readyState != CLOSED {
        CloseSocketAndSwitchToClosedState(ABNORMAL_CLOSE, AbnormalText(), false);
      }
    }

    /** The end of `poll`, when the closing delay is over: close with the code and reason that were given. */
    method EndClosingDelay()
      requires Conserves()
      modifies `rxbuf, `discarded, `readyState, `closeCode, `closeReason, `closeRemote, `pongReceived, `closes
      ensures Conserves() && Connection() == AfterClosingDelay(old(Connection()))
      ensures if old(readyState) == CLOSING then rxbuf == [] && discarded
              else rxbuf == old(rxbuf) && discarded == old(discarded)
    {
      hide InternalErrorText, EncodeAll;
      if readyState == CLOSING {
        rxbuf := [];
        discarded := true;
        SetReadyState(CLOSED);
      }
    }

    /**
      Read until enough is there: a chunk's worth, or the whole of the frame whose header has
      been seen. A waiting buffer always leads to a read, and the buffer stays bounded.
     */
    method ReceiveFromSocket() returns (ok: bool)
      requires Valid()
      modifies `rxbuf, `received, `recvs
      ensures Valid()
      ensures old(received) <= received && rxbuf == old(rxbuf) + received[|old(received)|..]
      ensures old(recvs) <= recvs
      ensures Waiting(rxbufWanted, |old(rxbuf)|) ==> |recvs| > |old(recvs)|
      ensures ok && |rxbuf| < (if rxbufWanted == 0 then CHUNK_SIZE else rxbufWanted) ==>
        |recvs| > |old(recvs)| && recvs[|recvs| - 1].TryAgain()
      ensures !ok ==> |recvs| > |old(recvs)| && recvs[|recvs| - 1].Failed()
      ensures |rxbuf| == |old(rxbuf)| || |rxbuf| < (if rxbufWanted == 0 then CHUNK_SIZE else rxbufWanted) + CHUNK_SIZE
    {
      hide EncodeAll, InStep, WantedFor;
      while true
        invariant Valid()
        invariant old(received) <= received && rxbuf == old(rxbuf) + received[|old(received)|..]
        invariant old(recvs) <= recvs
        invariant |recvs| > |old(recvs)| || rxbuf == old(rxbuf)
        invariant |rxbuf| == |old(rxbuf)|
               || |rxbuf| < (if rxbufWanted == 0 then CHUNK_SIZE else rxbufWanted) + CHUNK_SIZE
        decreases CHUNK_SIZE + rxbufWanted - |rxbuf|
      {
        if rxbufWanted == 0 && |rxbuf| >= CHUNK_SIZE {
          break;
        }
        if rxbufWanted > 0 && |rxbuf| >= rxbufWanted {
          break;
        }
        var ret, data, waitNeeded := SocketRecv(CHUNK_SIZE);
        recvs := recvs + [Answer(ret, waitNeeded)];
        if ret < 0 && waitNeeded {
          break;
        } else if ret <= 0 {
          return false;
        } else {
          if !discarded {
            InStepAppend(Rx(received, Session([], startKind)), Receiver(), events, data);
          }
          WantedKept(rxbufWanted, rxbuf, data);
          rxbuf := rxbuf + data;
          received := received + data;
        }
      }
      ok := true;
    }

    lemma NoActions()
      ensures Leads(enablePong, Connection(), PiecesOf(framed), [], Connection(), PiecesOf(framed))
      ensures events + Deliveries([]) == events
    {
    }
  }

  /**
    End to end. A sender whose buffer has run empty has framed any messages, with control frames
    in between; everything its socket accepted has reached a receiver, in any pieces, and has
    been dispatched. Then the receiver has seen exactly those messages, and holds nothing back.
   */
  lemma EndToEnd(a: WebSocketTransport, b: WebSocketTransport, ms: seq<Sending>)
    requires a.Conserves() && a.txbuf == []
    requires b.Valid() && !b.discarded && Drain(b.Receiver()) == Outcome(b.Receiver(), [], false)
    requires b.received == a.sent
    requires forall m | m in ms :: Sendable(m)
    requires DataPieces(PiecesOf(a.framed)) == AllFragments(ms)
    requires forall f | f in a.framed && IsControl(f.piece) :: |f.piece.payload| <= 125
    ensures MessageEvents(b.events) == AllExpected(ms)
    ensures OtherEvents(b.events) == ControlEvents(PiecesOf(a.framed))
    ensures b.rxbuf == [] && b.chunks == []
  {
    hide EncodeAll, Drain, OnPieces, Deliveries, DataPieces, AllFragments, Sendable, MessageEvents, OtherEvents,
         ControlEvents, AllExpected, PiecesOf;
    var s := Session([], b.startKind);
    assert a.sent + [] == a.sent;
    AllAcceptable(ms, a.framed);
    DrainFrames(a.framed, s);
    WholeMessages(ms, PiecesOf(a.framed), b.startKind);
    InStepWhenQuiet(Rx(b.received, s), b.Receiver(), b.events);
    NothingDelivered();
    assert b.events + [] == b.events;
  }

  lemma Entered(c: Conn)
    ensures Enter(c, CLOSED).state == CLOSED
  {
  }

  lemma NothingBefore(o: Outcome)
    ensures After([], o) == o
  {
    assert [] + o.actions == o.actions;
  }

  lemma NothingDelivered()
    ensures Deliveries([]) == []
  {
  }
}
