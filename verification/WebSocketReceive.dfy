/**
  What the receiver makes of a byte stream: one turn of the `dispatch` loop, the whole loop,
  and the results that hold however the stream is cut into reads.
 */
module WebSocketReceive {
  import opened Bytes
  import opened WebSocketFrame
  import Utf8

  datatype Kind = MsgText | MsgBinary

  /** One call of the message callback. */
  datatype Event =
    | Message(kind: Kind, payload: bytes)
    | Fragment
    | PingReceived(payload: bytes)
    | PongReceived(payload: bytes)

  /** Why the receiver closes the connection. */
  datatype Complaint =
    | ReservedBitUsed
    | PingOversized
    | ControlFragmented
    | DataOutOfSequence
    | ContinuationOutOfSequence
    | UnexpectedOpcode
    | InvalidText

  /** What a turn asks the rest of the transport to do. */
  datatype Action =
    | Deliver(event: Event)
    | ReplyPong(payload: bytes)
    | NotePong
    | Fail(complaint: Complaint)
    | PeerClose(payload: bytes)

  /** The fragments of the message being received, and its kind. */
  datatype Session = Session(chunks: seq<bytes>, kind: Kind)

  datatype Rx = Rx(buf: bytes, session: Session)

  function Emit(kind: Kind, payload: bytes): seq<Action> {
    if kind == MsgText && !Utf8.Validates(payload) then [Fail(InvalidText)]
    else [Deliver(Message(kind, payload))]
  }

  predicate IsData(op: opcode) {
    op == TEXT_FRAME || op == BINARY_FRAME || op == CONTINUATION
  }

  function OnData(s: Session, fin: bool, op: opcode, payload: bytes): (Session, seq<Action>)
    requires IsData(op)
  {
    var kind := if op == CONTINUATION then s.kind else if op == TEXT_FRAME then MsgText else MsgBinary;
    var complaint :=
      if op != CONTINUATION && s.chunks != [] then [Fail(DataOutOfSequence)]
      else if op == CONTINUATION && s.chunks == [] then [Fail(ContinuationOutOfSequence)]
      else [];
    if fin && s.chunks == [] then (Session([], kind), complaint + Emit(kind, payload))
    else if fin then (Session([], kind), complaint + Emit(kind, Concat(s.chunks + [payload])))
    else (Session(s.chunks + [payload], kind), complaint + [Deliver(Fragment)])
  }

  function OnPayload(s: Session, fin: bool, op: opcode, payload: bytes): (Session, seq<Action>) {
    if IsData(op) then OnData(s, fin, op, payload)
    else if op == PING then (s, [ReplyPong(payload), Deliver(PingReceived(payload))])
    else if op == PONG then (s, [NotePong, Deliver(PongReceived(payload))])
    else if op == CLOSE then (s, [PeerClose(payload)])
    else (s, [Fail(UnexpectedOpcode)])
  }

  /** How one turn of the loop ends. A `Fault` leaves its frame in the buffer. */
  datatype Turn = NeedHeader | NeedPayload | Fault(rx: Rx, actions: seq<Action>) | Handled(rx: Rx, actions: seq<Action>)

  predicate FaultyHeader(h: Header) {
    h.rsv1 || h.rsv2 || h.rsv3 || h.length > MAX_FRAME_SIZE
  }

  predicate FragmentedControl(fin: bool, op: opcode) {
    !fin && (op == PING || op == PONG || op == CLOSE)
  }

  function TakeTurn(rx: Rx): (t: Turn)
    ensures t.Handled? ==> |t.rx.buf| < |rx.buf|
  {
    if !HasHeader(rx.buf) then NeedHeader
    else
      var h := ParseHeader(rx.buf);
      if h.rsv1 || h.rsv2 || h.rsv3 then Fault(rx, [Fail(ReservedBitUsed)])
      else if h.length > MAX_FRAME_SIZE then Fault(rx, [])
      else if |rx.buf| < h.size + h.length then NeedPayload
      else TakeFrame(rx, h)
  }

  /** The whole frame has arrived. */
  function TakeFrame(rx: Rx, h: Header): Turn
    requires h.size + h.length <= |rx.buf|
  {
    var rest := rx.buf[h.size + h.length..];
    var payload := ApplyMask(h.mask, rx.buf[h.size..h.size + h.length]);
    if FragmentedControl(h.fin, h.op) then Fault(rx, [Fail(ControlFragmented)])
    else if h.op == PING && h.length > 125 then
      Fault(rx.(buf := rx.buf[..h.size] + payload + rest), [Fail(PingOversized)])
    else
      var (session, actions) := OnPayload(rx.session, h.fin, h.op, payload);
      Handled(Rx(rest, session), actions)
  }

  datatype Outcome = Outcome(rx: Rx, actions: seq<Action>, fault: bool)

  function After(actions: seq<Action>, o: Outcome): Outcome {
    o.(actions := actions + o.actions)
  }

  /** All the frames that have arrived completely, up to the first fault. */
  function Drain(rx: Rx): Outcome
    decreases |rx.buf|
  {
    match TakeTurn(rx)
    case NeedHeader => Outcome(rx, [], false)
    case NeedPayload => Outcome(rx, [], false)
    case Fault(rx', actions) => Outcome(rx', actions, true)
    case Handled(rx', actions) => After(actions, Drain(rx'))
  }

  function Append(rx: Rx, more: bytes): Rx {
    rx.(buf := rx.buf + more)
  }

  /** Reads, with a `dispatch` after each. */
  function Feed(rx: Rx, parts: seq<bytes>): Outcome
    decreases |parts|
  {
    if parts == [] then Outcome(rx, [], false)
    else
      var first := Drain(Append(rx, parts[0]));
      var others := Feed(first.rx, parts[1..]);
      Outcome(others.rx, first.actions + others.actions, first.fault || others.fault)
  }

  function Deliveries(actions: seq<Action>): seq<Event> {
    if actions == [] then []
    else if actions[0].Deliver? then [actions[0].event] + Deliveries(actions[1..])
    else Deliveries(actions[1..])
  }

  lemma {:induction false} DeliveriesAppend(a: seq<Action>, b: seq<Action>)
    ensures Deliveries(a + b) == Deliveries(a) + Deliveries(b)
  {
    if a == [] {
      assert a + b == b;
    } else {
      assert (a + b)[1..] == a[1..] + b;
      DeliveriesAppend(a[1..], b);
    }
  }

  lemma DeliveriesOne(a: Action)
    ensures Deliveries([a]) == if a.Deliver? then [a.event] else []
  {
  }

  // ---------------------------------------------------------------- more bytes

  lemma HeaderKept(buf: bytes, more: bytes)
    requires HasHeader(buf)
    ensures HasHeader(buf + more) && ParseHeader(buf + more) == ParseHeader(buf)
  {
    assert buf[1] % 128 == 126 ==> (buf + more)[2..4] == buf[2..4];
    assert buf[1] % 128 == 127 ==> (buf + more)[2..10] == buf[2..10];
  }

  /** Bytes that arrive later do not change a turn that could already be taken. */
  lemma TurnKept(rx: Rx, more: bytes)
    ensures match TakeTurn(rx)
      case Fault(rx', actions) => TakeTurn(Append(rx, more)) == Fault(Append(rx', more), actions)
      case Handled(rx', actions) => TakeTurn(Append(rx, more)) == Handled(Append(rx', more), actions)
      case _ => true
  {
    hide OnPayload, ApplyMask, ParseHeader;
    if HasHeader(rx.buf) {
      HeaderKept(rx.buf, more);
      var h := ParseHeader(rx.buf);
      if |rx.buf| >= h.size + h.length {
        var buf' := rx.buf + more;
        assert buf'[h.size..h.size + h.length] == rx.buf[h.size..h.size + h.length];
        assert buf'[h.size + h.length..] == rx.buf[h.size + h.length..] + more;
        assert buf'[..h.size] == rx.buf[..h.size];
      }
    }
  }

  lemma {:induction false} DrainQuiet(rx: Rx)
    ensures Drain(Drain(rx).rx).fault == Drain(rx).fault
    ensures !Drain(rx).fault ==> Drain(Drain(rx).rx) == Outcome(Drain(rx).rx, [], false)
    decreases |rx.buf|
  {
    match TakeTurn(rx)
    case Handled(rx', _) => DrainQuiet(rx');
    case Fault(rx', _) => FaultStays(rx, []);
    case _ =>
  }

  /** A fault is met again by the next dispatch, delivers nothing and changes no session. */
  lemma FaultStays(rx: Rx, more: bytes)
    requires TakeTurn(rx).Fault?
    ensures var rx' := TakeTurn(rx).rx;
      && Append(rx', []) == rx'
      && TakeTurn(Append(rx', more)).Fault?
      && rx'.session == rx.session
      && TakeTurn(Append(rx', more)).rx.session == rx.session
      && Deliveries(TakeTurn(Append(rx', more)).actions) == []
  {
    hide OnPayload;
    var rx' := TakeTurn(rx).rx;
    var h := ParseHeader(rx.buf);
    assert |rx'.buf| == |rx.buf|;
    assert rx'.buf[..h.size] == rx.buf[..h.size];
    assert rx'.buf[0] == rx'.buf[..h.size][0] == rx.buf[0];
    assert rx'.buf[1] == rx'.buf[..h.size][1] == rx.buf[1];
    PrefixHeader(rx.buf, rx'.buf);
    TurnKept(rx', more);
    assert Append(rx', []) == rx';
  }

  lemma PrefixHeader(a: bytes, b: bytes)
    requires HasHeader(a) && |b| >= HeaderSize(a[1])
    requires a[..HeaderSize(a[1])] == b[..HeaderSize(a[1])]
    ensures HasHeader(b) && ParseHeader(b) == ParseHeader(a)
  {
    var size := HeaderSize(a[1]);
    HeaderKept(a[..size], a[size..]);
    HeaderKept(b[..size], b[size..]);
    assert a == a[..size] + a[size..] && b == b[..size] + b[size..];
    assert a[1] == a[..size][1] && b[1] == b[..size][1];
  }

  /** Draining what is there first, and what comes later afterwards, is draining it all at once. */
  lemma {:induction false} DrainAppend(rx: Rx, more: bytes)
    ensures var o := Drain(rx);
      Drain(Append(rx, more)) ==
        if o.fault then Outcome(Append(o.rx, more), o.actions, true)
        else After(o.actions, Drain(Append(o.rx, more)))
    decreases |rx.buf|
  {
    hide TakeTurn;
    TurnKept(rx, more);
    match TakeTurn(rx)
    case Handled(rx', actions) =>
      DrainAppend(rx', more);
      var o := Drain(rx');
      if !o.fault {
        assert actions + (o.actions + Drain(Append(o.rx, more)).actions)
            == (actions + o.actions) + Drain(Append(o.rx, more)).actions;
      }
    case Fault(_, _) =>
    case _ =>
      assert Drain(rx) == Outcome(rx, [], false);
  }

  /** After a fault nothing more is ever delivered. */
  lemma {:induction false} FeedAfterFault(rx: Rx, parts: seq<bytes>)
    requires TakeTurn(rx).Fault?
    ensures Feed(rx, parts).rx.session == rx.session
    ensures Deliveries(Feed(rx, parts).actions) == []
    decreases |parts|
  {
    if parts != [] {
      TurnKept(rx, parts[0]);
      var rx1 := Append(rx, parts[0]);
      FaultStays(rx1, []);
      var first := Drain(rx1);
      FaultDeliversNothing(rx1);
      FeedAfterFault(first.rx, parts[1..]);
      DeliveriesAppend(first.actions, Feed(first.rx, parts[1..]).actions);
    }
  }

  lemma FaultDeliversNothing(rx: Rx)
    requires TakeTurn(rx).Fault?
    ensures Deliveries(TakeTurn(rx).actions) == [] && TakeTurn(rx).rx.session == rx.session
  {
  }

  lemma {:induction false} DrainEndsInFault(rx: Rx)
    requires Drain(rx).fault
    ensures TakeTurn(Drain(rx).rx).Fault?
    decreases |rx.buf|
  {
    match TakeTurn(rx)
    case Handled(rx', _) => DrainEndsInFault(rx');
    case Fault(rx', _) => FaultStays(rx, []);
  }

  // ---------------------------------------------------------------- cutting the stream

  /**
    However a stream is cut into reads, dispatching after each read delivers the same events
    and leaves the same chunks as one read of the whole stream; unless the stream runs into
    a fault, it also leaves the same buffer and asks for the same actions.
   */
  lemma {:induction false} CutInvariance(rx: Rx, parts: seq<bytes>)
    requires Drain(rx) == Outcome(rx, [], false)
    ensures var whole, cut := Drain(Append(rx, Concat(parts))), Feed(rx, parts);
      && Deliveries(cut.actions) == Deliveries(whole.actions)
      && cut.rx.session == whole.rx.session
      && cut.fault == whole.fault
      && (!whole.fault ==> cut == whole)
    decreases |parts|
  {
    hide Drain;
    if parts == [] {
      assert Append(rx, []) == rx;
    } else {
      var rx1 := Append(rx, parts[0]);
      var first, tail := Drain(rx1), parts[1..];
      assert Append(rx, Concat(parts)) == Append(rx1, Concat(tail));
      DrainAppend(rx1, Concat(tail));
      if first.fault {
        DrainEndsInFault(rx1);
        FeedAfterFault(first.rx, tail);
        DeliveriesAppend(first.actions, Feed(first.rx, tail).actions);
      } else {
        DrainQuiet(rx1);
        CutInvariance(first.rx, tail);
        DeliveriesAppend(first.actions, Feed(first.rx, tail).actions);
        DeliveriesAppend(first.actions, Drain(Append(first.rx, Concat(tail))).actions);
      }
    }
  }

  // ---------------------------------------------------------------- frames

  /** A frame the receiver takes out of its buffer. */
  predicate Acceptable(p: Piece) {
    && |p.payload| <= MAX_FRAME_SIZE
    && !FragmentedControl(p.fin, p.op)
    && (p.op == PING ==> |p.payload| <= 125)
  }

  /** Whatever key it travels under, an encoded frame is taken in one turn, and taken as it was sent. */
  lemma FrameTurn(f: Frame, rest: bytes, s: Session)
    requires Acceptable(f.piece)
    ensures var (session, actions) := OnPayload(s, f.piece.fin, f.piece.op, f.piece.payload);
      TakeTurn(Rx(EncodeFrame(f) + rest, s)) == Handled(Rx(rest, session), actions)
  {
    var p := f.piece;
    var head, body := EncodeHeader(p.fin, p.op, |p.payload|, f.mask), ApplyMask(f.mask, p.payload);
    var buf := EncodeFrame(f) + rest;
    assert buf == head + (body + rest);
    HeaderRoundTrip(p.fin, p.op, |p.payload|, f.mask, body + rest);
    assert buf[|head|..|head| + |body|] == body;
    assert buf[|head| + |body|..] == rest;
    MaskTwice(f.mask, p.payload);
  }

  function OnPieces(s: Session, ps: seq<Piece>): (Session, seq<Action>)
    decreases |ps|
  {
    if ps == [] then (s, [])
    else
      var (s1, first) := OnPayload(s, ps[0].fin, ps[0].op, ps[0].payload);
      var (s2, others) := OnPieces(s1, ps[1..]);
      (s2, first + others)
  }

  function PiecesOf(fs: seq<Frame>): (r: seq<Piece>)
    ensures |r| == |fs|
  {
    seq(|fs|, i requires 0 <= i < |fs| => fs[i].piece)
  }

  /** A stream of acceptable frames is received frame by frame, with nothing left over. */
  lemma {:induction false} DrainFrames(fs: seq<Frame>, s: Session)
    requires forall f | f in fs :: Acceptable(f.piece)
    ensures var (session, actions) := OnPieces(s, PiecesOf(fs));
      Drain(Rx(EncodeAll(fs), s)) == Outcome(Rx([], session), actions, false)
    decreases |fs|
  {
    hide OnPayload;
    if fs != [] {
      var rest := EncodeAll(fs[1..]);
      FrameTurn(fs[0], rest, s);
      assert PiecesOf(fs)[1..] == PiecesOf(fs[1..]);
      var (s1, first) := OnPayload(s, fs[0].piece.fin, fs[0].piece.op, fs[0].piece.payload);
      DrainFrames(fs[1..], s1);
    }
  }

  // ---------------------------------------------------------------- one message

  predicate IsControl(p: Piece) {
    p.fin && ((p.op == PING && |p.payload| <= 125) || p.op == PONG)
  }

  /** The pieces of `ps` that are not control frames. */
  function DataPieces(ps: seq<Piece>): seq<Piece> {
    if ps == [] then []
    else if IsControl(ps[0]) then DataPieces(ps[1..])
    else [ps[0]] + DataPieces(ps[1..])
  }

  function ControlEvents(ps: seq<Piece>): seq<Event> {
    if ps == [] then []
    else if IsControl(ps[0]) then
      [if ps[0].op == PING then PingReceived(ps[0].payload) else PongReceived(ps[0].payload)] + ControlEvents(ps[1..])
    else ControlEvents(ps[1..])
  }

  predicate OfMessage(e: Event) {
    e.Message? || e.Fragment?
  }

  function MessageEvents(es: seq<Event>): seq<Event> {
    if es == [] then []
    else if OfMessage(es[0]) then [es[0]] + MessageEvents(es[1..])
    else MessageEvents(es[1..])
  }

  function OtherEvents(es: seq<Event>): seq<Event> {
    if es == [] then []
    else if OfMessage(es[0]) then OtherEvents(es[1..])
    else [es[0]] + OtherEvents(es[1..])
  }

  /** `n` FRAGMENT events and then the message. */
  function Expected(n: nat, kind: Kind, payload: bytes): seq<Event> {
    if n == 0 then [Message(kind, payload)] else [Fragment] + Expected(n - 1, kind, payload)
  }

  function KindOf(op: opcode): Kind {
    if op == TEXT_FRAME then MsgText else MsgBinary
  }

  /** Control frames pass through a session without touching it. */
  lemma ControlPasses(s: Session, p: Piece)
    requires IsControl(p)
    ensures OnPayload(s, p.fin, p.op, p.payload).0 == s
    ensures Deliveries(OnPayload(s, p.fin, p.op, p.payload).1)
         == [if p.op == PING then PingReceived(p.payload) else PongReceived(p.payload)]
  {
    var actions := OnPayload(s, p.fin, p.op, p.payload).1;
    assert actions[1..][1..] == [];
    assert Deliveries(actions) == Deliveries(actions[1..]) == [actions[1].event] + Deliveries(actions[1..][1..]);
  }

  /** The receiver in the middle of a message: `from` fragments of it are stored. */
  ghost predicate Midway(s: Session, op: opcode, tiles: seq<bytes>, from: nat)
    requires from <= |tiles|
  {
    s.chunks == tiles[..from] && (from > 0 ==> s.kind == KindOf(op))
  }

  lemma EmitsMessage(kind: Kind, payload: bytes)
    requires kind == MsgText ==> Utf8.Validates(payload)
    ensures Emit(kind, payload) == [Deliver(Message(kind, payload))]
  {
  }

  /** A fragment that is not the last. */
  lemma InnerFragment(s: Session, op: opcode, tiles: seq<bytes>, from: nat)
    requires op == TEXT_FRAME || op == BINARY_FRAME
    requires from < |tiles| - 1 && Midway(s, op, tiles, from)
    ensures var (s', actions) := OnPayload(s, false, if from == 0 then op else CONTINUATION, tiles[from]);
      Midway(s', op, tiles, from + 1) && actions == [Deliver(Fragment)]
  {
  }

  lemma OnlyFragment(s: Session, op: opcode, payload: bytes)
    requires op == TEXT_FRAME || op == BINARY_FRAME
    requires s.chunks == []
    ensures OnPayload(s, true, op, payload) == (Session([], KindOf(op)), Emit(KindOf(op), payload))
  {
    assert [] + Emit(KindOf(op), payload) == Emit(KindOf(op), payload);
  }

  lemma FinalContinuation(s: Session, payload: bytes)
    requires s.chunks != []
    ensures OnPayload(s, true, CONTINUATION, payload)
         == (Session([], s.kind), Emit(s.kind, Concat(s.chunks + [payload])))
  {
    var whole := Concat(s.chunks + [payload]);
    assert [] + Emit(s.kind, whole) == Emit(s.kind, whole);
  }

  lemma LoneFragment(s: Session, op: opcode, tiles: seq<bytes>)
    requires op == TEXT_FRAME || op == BINARY_FRAME
    requires |tiles| == 1 && Midway(s, op, tiles, 0)
    requires op == TEXT_FRAME ==> Utf8.Validates(Concat(tiles))
    ensures var (s', actions) := OnPayload(s, true, op, tiles[0]);
      s'.chunks == [] && actions == [Deliver(Message(KindOf(op), Concat(tiles)))]
  {
    hide OnPayload, Utf8.Validates, Emit, Concat;
    ConcatOne(tiles[0]);
    assert tiles == [tiles[0]];
    EmitsMessage(KindOf(op), tiles[0]);
    OnlyFragment(s, op, tiles[0]);
  }

  lemma LastFragment(s: Session, op: opcode, tiles: seq<bytes>)
    requires op == TEXT_FRAME || op == BINARY_FRAME
    requires |tiles| > 1 && Midway(s, op, tiles, |tiles| - 1)
    requires op == TEXT_FRAME ==> Utf8.Validates(Concat(tiles))
    ensures var (s', actions) := OnPayload(s, true, CONTINUATION, tiles[|tiles| - 1]);
      s'.chunks == [] && actions == [Deliver(Message(KindOf(op), Concat(tiles)))]
  {
    hide OnPayload, Utf8.Validates, Emit, Concat;
    var last := tiles[|tiles| - 1];
    assert s.chunks + [last] == tiles;
    EmitsMessage(KindOf(op), Concat(tiles));
    FinalContinuation(s, last);
  }

  lemma ConcatOne(part: bytes)
    ensures Concat([part]) == part
  {
  }

  lemma {:induction false} MessagePieces(s: Session, op: opcode, tiles: seq<bytes>, from: nat, ps: seq<Piece>)
    requires op == TEXT_FRAME || op == BINARY_FRAME
    requires from < |tiles| && Midway(s, op, tiles, from)
    requires op == TEXT_FRAME ==> Utf8.Validates(Concat(tiles))
    requires DataPieces(ps) == Pieces(op, tiles, from)
    ensures var (s', actions) := OnPieces(s, ps);
      && s'.chunks == []
      && MessageEvents(Deliveries(actions)) == Expected(|tiles| - 1 - from, KindOf(op), Concat(tiles))
      && OtherEvents(Deliveries(actions)) == ControlEvents(ps)
    decreases |ps|
  {
    hide OnPayload, Utf8.Validates;
    PiecesCount(op, tiles, from);
    var p, rest := ps[0], ps[1..];
    var (s1, first) := OnPayload(s, p.fin, p.op, p.payload);
    var (s2, others) := OnPieces(s1, rest);
    DeliveriesAppend(first, others);
    if IsControl(p) {
      ControlPasses(s, p);
      MessagePieces(s, op, tiles, from, rest);
      SplitFirst(Deliveries(first)[0], Deliveries(others));
    } else {
      assert DataPieces(ps) == [p] + DataPieces(rest);
      assert Pieces(op, tiles, from)[0] == p && Pieces(op, tiles, from)[1..] == Pieces(op, tiles, from + 1);
      assert DataPieces(rest) == DataPieces(ps)[1..] == Pieces(op, tiles, from + 1);
      if |tiles| == 1 {
        LoneFragment(s, op, tiles);
      } else if from == |tiles| - 1 {
        LastFragment(s, op, tiles);
      } else {
        InnerFragment(s, op, tiles, from);
      }
      assert Deliveries(first) == [first[0].event] by { assert first[1..] == []; }
      SplitFirst(first[0].event, Deliveries(others));
      if from == |tiles| - 1 {
        OnlyControls(s1, rest);
      } else {
        MessagePieces(s1, op, tiles, from + 1, rest);
      }
    }
  }

  lemma SplitFirst(e: Event, es: seq<Event>)
    ensures MessageEvents([e] + es) == (if OfMessage(e) then [e] else []) + MessageEvents(es)
    ensures OtherEvents([e] + es) == (if OfMessage(e) then [] else [e]) + OtherEvents(es)
  {
  }

  lemma {:induction false} OnlyControls(s: Session, ps: seq<Piece>)
    requires DataPieces(ps) == []
    ensures OnPieces(s, ps).0 == s
    ensures MessageEvents(Deliveries(OnPieces(s, ps).1)) == []
    ensures OtherEvents(Deliveries(OnPieces(s, ps).1)) == ControlEvents(ps)
    decreases |ps|
  {
    if ps != [] {
      ControlPasses(s, ps[0]);
      var first := OnPayload(s, ps[0].fin, ps[0].op, ps[0].payload).1;
      var others := OnPieces(s, ps[1..]).1;
      OnlyControls(s, ps[1..]);
      DeliveriesAppend(first, others);
      SplitFirst(Deliveries(first)[0], Deliveries(others));
    }
  }

  lemma {:induction false} PiecesAcceptable(ps: seq<Piece>)
    requires forall p | p in DataPieces(ps) :: Acceptable(p)
    requires forall p | p in ps && IsControl(p) :: |p.payload| <= MAX_FRAME_SIZE
    ensures forall p | p in ps :: Acceptable(p)
    decreases |ps|
  {
    if ps != [] {
      assert forall p | p in DataPieces(ps[1..]) :: p in DataPieces(ps);
      PiecesAcceptable(ps[1..]);
      if !IsControl(ps[0]) {
        assert ps[0] == DataPieces(ps)[0] && ps[0] in DataPieces(ps);
      }
    }
  }

  /** The pieces of any message, with control frames in between, as the session sees them. */
  lemma WholeMessage(op: opcode, payload: bytes, ps: seq<Piece>, kind: Kind)
    requires op == TEXT_FRAME || op == BINARY_FRAME
    requires op == TEXT_FRAME ==> Utf8.IsUtf8(payload)
    requires DataPieces(ps) == Fragments(op, payload)
    ensures var (s', actions) := OnPieces(Session([], kind), ps);
      && s'.chunks == []
      && MessageEvents(Deliveries(actions)) == Expected(Steps(|payload|) - 1, KindOf(op), payload)
      && OtherEvents(Deliveries(actions)) == ControlEvents(ps)
  {
    hide OnPieces, Utf8.Validates, Utf8.IsUtf8;
    StepsFit(|payload|);
    TilesTile(payload, Steps(|payload|));
    Utf8.ValidatesExactly(payload);
    MessagePieces(Session([], kind), op, Tiles(payload, Steps(|payload|)), 0, ps);
  }

  // ---------------------------------------------------------------- any number of messages

  datatype Sending = Sending(op: opcode, payload: bytes)

  ghost predicate Sendable(m: Sending) {
    (m.op == TEXT_FRAME || m.op == BINARY_FRAME) && (m.op == TEXT_FRAME ==> Utf8.IsUtf8(m.payload))
  }

  function AllFragments(ms: seq<Sending>): seq<Piece> {
    if ms == [] then [] else Fragments(ms[0].op, ms[0].payload) + AllFragments(ms[1..])
  }

  /** What is delivered for messages sent one after the other. */
  function AllExpected(ms: seq<Sending>): seq<Event> {
    if ms == [] then []
    else Expected(Steps(|ms[0].payload|) - 1, KindOf(ms[0].op), ms[0].payload) + AllExpected(ms[1..])
  }

  lemma {:induction false} SplitData(ps: seq<Piece>, a: seq<Piece>, b: seq<Piece>) returns (i: nat)
    requires DataPieces(ps) == a + b
    ensures i <= |ps| && DataPieces(ps[..i]) == a && DataPieces(ps[i..]) == b
    decreases |ps|
  {
    hide IsControl;
    if a == [] {
      i := 0;
      assert ps[0..] == ps && a + b == b;
    } else {
      var skip := IsControl(ps[0]);
      assert !skip ==> (a + b)[1..] == a[1..] + b && (a + b)[0] == a[0];
      i := SplitData(ps[1..], if skip then a else a[1..], b);
      i := i + 1;
      assert ps[..i][1..] == ps[1..][..i - 1] && ps[i..] == ps[1..][i - 1..];
    }
  }

  lemma {:induction false} OnPiecesAppend(s: Session, ps: seq<Piece>, qs: seq<Piece>)
    ensures var (s1, first) := OnPieces(s, ps);
      var (s2, others) := OnPieces(s1, qs);
      OnPieces(s, ps + qs) == (s2, first + others)
    decreases |ps|
  {
    hide OnPayload;
    if ps == [] {
      assert ps + qs == qs && [] + OnPieces(s, qs).1 == OnPieces(s, qs).1;
    } else {
      assert (ps + qs)[1..] == ps[1..] + qs;
      var (s1, first) := OnPayload(s, ps[0].fin, ps[0].op, ps[0].payload);
      var (s2, more) := OnPieces(s1, ps[1..]);
      OnPiecesAppend(s1, ps[1..], qs);
      assert first + (more + OnPieces(s2, qs).1) == first + more + OnPieces(s2, qs).1;
    }
  }

  lemma {:induction false} MessagesAppend(a: seq<Event>, b: seq<Event>)
    ensures MessageEvents(a + b) == MessageEvents(a) + MessageEvents(b)
  {
    hide OfMessage;
    if a == [] {
      assert a + b == b;
    } else {
      assert (a + b)[1..] == a[1..] + b;
      MessagesAppend(a[1..], b);
    }
  }

  lemma {:induction false} OthersAppend(a: seq<Event>, b: seq<Event>)
    ensures OtherEvents(a + b) == OtherEvents(a) + OtherEvents(b)
  {
    hide OfMessage;
    if a == [] {
      assert a + b == b;
    } else {
      assert (a + b)[1..] == a[1..] + b;
      OthersAppend(a[1..], b);
    }
  }

  lemma {:induction false} ControlsAppend(a: seq<Piece>, b: seq<Piece>)
    ensures ControlEvents(a + b) == ControlEvents(a) + ControlEvents(b)
  {
    if a == [] {
      assert a + b == b;
    } else {
      assert (a + b)[1..] == a[1..] + b;
      ControlsAppend(a[1..], b);
    }
  }

  /** The pieces of any messages, with control frames in between, as the session sees them. */
  lemma {:induction false} WholeMessages(ms: seq<Sending>, ps: seq<Piece>, kind: Kind)
    requires forall m | m in ms :: Sendable(m)
    requires DataPieces(ps) == AllFragments(ms)
    ensures var (s', actions) := OnPieces(Session([], kind), ps);
      && s'.chunks == []
      && MessageEvents(Deliveries(actions)) == AllExpected(ms)
      && OtherEvents(Deliveries(actions)) == ControlEvents(ps)
    decreases |ms|
  {
    hide OnPieces, Fragments, DataPieces, Utf8.IsUtf8, MessageEvents, OtherEvents, ControlEvents, Deliveries, Expected;
    if ms == [] {
      OnlyControls(Session([], kind), ps);
    } else {
      var i := SplitData(ps, Fragments(ms[0].op, ms[0].payload), AllFragments(ms[1..]));
      var first, rest := ps[..i], ps[i..];
      var (s1, now) := OnPieces(Session([], kind), first);
      var (s2, later) := OnPieces(s1, rest);
      assert ps == first + rest;
      assert Sendable(ms[0]);
      WholeMessage(ms[0].op, ms[0].payload, first, kind);
      WholeMessages(ms[1..], rest, s1.kind);
      assert s1 == Session([], s1.kind);
      OnPiecesAppend(Session([], kind), first, rest);
      DeliveriesAppend(now, later);
      MessagesAppend(Deliveries(now), Deliveries(later));
      OthersAppend(Deliveries(now), Deliveries(later));
      ControlsAppend(first, rest);
    }
  }

  /**
    Message round trip. Take the frames of any text and binary messages, masked with any keys or
    not at all, with control frames in between; cut their bytes in any way. For each message in
    turn the receiver emits one FRAGMENT per fragment but the last and then exactly the message
    sent, passes on each control frame in order, and is left with no stored chunk and no byte.
   */
  lemma MessageRoundTrip(ms: seq<Sending>, fs: seq<Frame>, parts: seq<bytes>, kind: Kind)
    requires forall m | m in ms :: Sendable(m)
    requires DataPieces(PiecesOf(fs)) == AllFragments(ms)
    requires forall f | f in fs && IsControl(f.piece) :: |f.piece.payload| <= 125
    requires Concat(parts) == EncodeAll(fs)
    ensures var o := Feed(Rx([], Session([], kind)), parts);
      && !o.fault && o.rx.buf == [] && o.rx.session.chunks == []
      && MessageEvents(Deliveries(o.actions)) == AllExpected(ms)
      && OtherEvents(Deliveries(o.actions)) == ControlEvents(PiecesOf(fs))
  {
    hide OnPieces, Drain, Feed, Sendable, AllFragments, AllExpected, DataPieces, ControlEvents, MessageEvents;
    hide OtherEvents, Deliveries, EncodeAll, Concat;
    var s := Session([], kind);
    AllAcceptable(ms, fs);
    DrainFrames(fs, s);
    WholeMessages(ms, PiecesOf(fs), kind);
    assert Append(Rx([], s), Concat(parts)) == Rx(EncodeAll(fs), s);
    NothingToDrain(s);
    CutInvariance(Rx([], s), parts);
  }

  lemma NothingToDrain(s: Session)
    ensures Drain(Rx([], s)) == Outcome(Rx([], s), [], false)
  {
  }

  lemma {:induction false} FragmentsAcceptable(ms: seq<Sending>)
    requires forall m | m in ms :: Sendable(m)
    ensures forall p | p in AllFragments(ms) :: Acceptable(p)
  {
    hide Fragments, Utf8.IsUtf8;
    if ms != [] {
      FragmentsTile(ms[0].op, ms[0].payload);
      assert Sendable(ms[0]);
      FragmentsAcceptable(ms[1..]);
    }
  }

  lemma AllAcceptable(ms: seq<Sending>, fs: seq<Frame>)
    requires forall m | m in ms :: Sendable(m)
    requires DataPieces(PiecesOf(fs)) == AllFragments(ms)
    requires forall f | f in fs && IsControl(f.piece) :: |f.piece.payload| <= 125
    ensures forall f | f in fs :: Acceptable(f.piece)
  {
    hide Sendable, AllFragments, DataPieces, Acceptable;
    var ps := PiecesOf(fs);
    FragmentsAcceptable(ms);
    forall p | p in ps && IsControl(p) ensures |p.payload| <= MAX_FRAME_SIZE {
      var i :| 0 <= i < |ps| && ps[i] == p;
      assert fs[i] in fs;
    }
    PiecesAcceptable(ps);
    forall f | f in fs ensures Acceptable(f.piece) {
      var i :| 0 <= i < |fs| && fs[i] == f;
      assert ps[i] in ps;
    }
  }
}
