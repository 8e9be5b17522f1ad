/**
  Frames of section 5.2 of RFC 6455: the layout `sendFragment` writes, the header `dispatch`
  reads, and the tiling of a long message into fragments.
 */
module WebSocketFrame {
  import opened Bytes

  const CONTINUATION := 0
  const TEXT_FRAME := 1
  const BINARY_FRAME := 2
  const CLOSE := 8
  const PING := 9
  const PONG := 10

  const CHUNK_SIZE := 32768
  const MAX_FRAME_SIZE := 0x8000_0000_0000_0000

  type opcode = x: nat | x < 16

  datatype Mask = NoMask | Mask(k0: byte, k1: byte, k2: byte, k3: byte)

  /** What a frame says, apart from the masking key it travels under. */
  datatype Piece = Piece(fin: bool, op: opcode, payload: bytes)

  datatype Frame = Frame(piece: Piece, mask: Mask)

  function KeyByte(m: Mask, i: nat): byte {
    if m.NoMask? then 0
    else if i % 4 == 0 then m.k0
    else if i % 4 == 1 then m.k1
    else if i % 4 == 2 then m.k2
    else m.k3
  }

  /** Mask or unmask a payload. */
  function ApplyMask(m: Mask, payload: bytes): (r: bytes)
    ensures |r| == |payload|
  {
    if m.NoMask? then payload
    else seq(|payload|, i requires 0 <= i < |payload| => Xor(payload[i], KeyByte(m, i)))
  }

  /** Unmasking undoes masking. */
  lemma MaskTwice(m: Mask, payload: bytes)
    ensures ApplyMask(m, ApplyMask(m, payload)) == payload
  {
    forall i | 0 <= i < |payload| ensures ApplyMask(m, ApplyMask(m, payload))[i] == payload[i] {
      XorTwice(payload[i], KeyByte(m, i));
    }
  }

  // ---------------------------------------------------------------- writing

  /** `n >> 8k`. */
  function Shift(n: nat, k: nat): nat {
    if k == 0 then n else Shift(n, k - 1) / 256
  }

  /** `(n >> 8k) & 0xff`. */
  function Octet(n: nat, k: nat): byte {
    Shift(n, k) % 256
  }

  /** The payload length in 7, 7+16 or 7+64 bits. */
  function EncodeLength(n: nat, maskBit: nat): bytes
    requires maskBit in {0, 128}
  {
    if n < 126 then [n + maskBit]
    else if n < 65536 then [126 + maskBit, Octet(n, 1), Octet(n, 0)]
    else [127 + maskBit, Octet(n, 7), Octet(n, 6), Octet(n, 5), Octet(n, 4),
                         Octet(n, 3), Octet(n, 2), Octet(n, 1), Octet(n, 0)]
  }

  function EncodeKey(m: Mask): bytes {
    if m.NoMask? then [] else [m.k0, m.k1, m.k2, m.k3]
  }

  function EncodeHeader(fin: bool, op: opcode, n: nat, m: Mask): bytes {
    [op + (if fin then 128 else 0)] + EncodeLength(n, if m.NoMask? then 0 else 128) + EncodeKey(m)
  }

  function EncodeFrame(f: Frame): bytes {
    EncodeHeader(f.piece.fin, f.piece.op, |f.piece.payload|, f.mask) + ApplyMask(f.mask, f.piece.payload)
  }

  function EncodeAll(fs: seq<Frame>): bytes {
    if fs == [] then [] else EncodeFrame(fs[0]) + EncodeAll(fs[1..])
  }

  lemma {:induction false} EncodeAllAppend(a: seq<Frame>, b: seq<Frame>)
    ensures EncodeAll(a + b) == EncodeAll(a) + EncodeAll(b)
  {
    if a == [] {
      assert a + b == b;
    } else {
      assert (a + b)[1..] == a[1..] + b;
      EncodeAllAppend(a[1..], b);
    }
  }

  // ---------------------------------------------------------------- reading

  datatype Header = Header(fin: bool, rsv1: bool, rsv2: bool, rsv3: bool, op: opcode,
                           size: nat, length: nat, mask: Mask)

  datatype HeaderResult = Incomplete | Complete(header: Header)

  /** The size of the header the first two octets announce. */
  function HeaderSize(b1: byte): nat {
    2 + (if b1 % 128 == 126 then 2 else 0) + (if b1 % 128 == 127 then 8 else 0) + (if b1 >= 128 then 4 else 0)
  }

  predicate HasHeader(buf: bytes) {
    |buf| >= 2 && |buf| >= HeaderSize(buf[1])
  }

  /** Most significant octet first. */
  function BigEndian(s: bytes): nat {
    if s == [] then 0 else BigEndian(s[..|s| - 1]) * 256 + s[|s| - 1]
  }

  function PayloadLength(buf: bytes): nat
    requires HasHeader(buf)
  {
    var n0 := buf[1] % 128;
    if n0 < 126 then n0 else if n0 == 126 then BigEndian(buf[2..4]) else BigEndian(buf[2..10])
  }

  function ParseHeader(buf: bytes): Header
    requires HasHeader(buf)
  {
    var size := HeaderSize(buf[1]);
    Header(buf[0] >= 128, buf[0] / 64 % 2 == 1, buf[0] / 32 % 2 == 1, buf[0] / 16 % 2 == 1, buf[0] % 16,
           size, PayloadLength(buf),
           if buf[1] >= 128 then Mask(buf[size - 4], buf[size - 3], buf[size - 2], buf[size - 1]) else NoMask)
  }

  function Pow256(k: nat): nat {
    if k == 0 then 1 else 256 * Pow256(k - 1)
  }

  lemma {:induction false} ShiftBound(n: nat, k: nat, m: nat)
    requires n < Pow256(m + k)
    ensures Shift(n, k) < Pow256(m)
  {
    if k > 0 {
      ShiftBound(n, k - 1, m + 1);
    }
  }

  /** The octets of `n` from place 7 down to place `k`. */
  function TopOctets(n: nat, k: nat): bytes
    requires k <= 8
    decreases 8 - k
  {
    if k == 8 then [] else TopOctets(n, k + 1) + [Octet(n, k)]
  }

  lemma {:induction false} TopOctetsValue(n: nat, k: nat)
    requires k <= 8 && Shift(n, 8) == 0
    ensures BigEndian(TopOctets(n, k)) == Shift(n, k)
    decreases 8 - k
  {
    if k < 8 {
      TopOctetsValue(n, k + 1);
      assert TopOctets(n, k)[..|TopOctets(n, k)| - 1] == TopOctets(n, k + 1);
    }
  }

  lemma LengthBounds(n: nat)
    ensures n < 65536 ==> Shift(n, 2) == 0
    ensures n < 0x1_0000_0000_0000_0000 ==> Shift(n, 8) == 0
  {
    assert Pow256(2) == 65536;
    assert Pow256(4) == 65536 * Pow256(2);
    assert Pow256(6) == 65536 * Pow256(4);
    assert Pow256(8) == 65536 * Pow256(6);
    if n < 65536 { ShiftBound(n, 2, 0); }
    if n < 0x1_0000_0000_0000_0000 { ShiftBound(n, 8, 0); }
  }

  lemma ShortLengthRoundTrip(n: nat)
    requires n < 65536
    ensures BigEndian([Octet(n, 1), Octet(n, 0)]) == n
  {
    LengthBounds(n);
    assert [Octet(n, 1), Octet(n, 0)][..1] == [Octet(n, 1)];
    assert BigEndian([Octet(n, 1)]) == Octet(n, 1) == n / 256;
  }

  lemma LongLengthRoundTrip(n: nat)
    requires n < 0x1_0000_0000_0000_0000
    ensures BigEndian([Octet(n, 7), Octet(n, 6), Octet(n, 5), Octet(n, 4),
                       Octet(n, 3), Octet(n, 2), Octet(n, 1), Octet(n, 0)]) == n
  {
    LengthBounds(n);
    TopOctetsValue(n, 0);
    assert TopOctets(n, 6) == [Octet(n, 7), Octet(n, 6)];
    assert TopOctets(n, 4) == TopOctets(n, 6) + [Octet(n, 5), Octet(n, 4)];
    assert TopOctets(n, 2) == TopOctets(n, 4) + [Octet(n, 3), Octet(n, 2)];
    assert TopOctets(n, 0) == TopOctets(n, 2) + [Octet(n, 1), Octet(n, 0)];
    assert TopOctets(n, 0) == [Octet(n, 7), Octet(n, 6), Octet(n, 5), Octet(n, 4),
                               Octet(n, 3), Octet(n, 2), Octet(n, 1), Octet(n, 0)];
  }

  lemma LengthRoundTrip(buf: bytes, n: nat, m: Mask)
    requires n < 0x1_0000_0000_0000_0000
    requires var len := EncodeLength(n, if m.NoMask? then 0 else 128);
      |buf| >= 1 + |len| + |EncodeKey(m)| && buf[1..1 + |len|] == len
    ensures HasHeader(buf) && PayloadLength(buf) == n
    ensures HeaderSize(buf[1]) == 1 + |EncodeLength(n, if m.NoMask? then 0 else 128)| + |EncodeKey(m)|
    ensures buf[1] >= 128 <==> m.Mask?
  {
    var len := EncodeLength(n, if m.NoMask? then 0 else 128);
    assert buf[1] == len[0];
    if 126 <= n < 65536 {
      ShortLengthRoundTrip(n);
      assert buf[2..4] == len[1..] == [Octet(n, 1), Octet(n, 0)];
    } else if n >= 65536 {
      LongLengthRoundTrip(n);
      assert buf[2..10] == len[1..];
    }
  }

  /** A header is read back as written, whatever follows it. */
  lemma HeaderRoundTrip(fin: bool, op: opcode, n: nat, m: Mask, rest: bytes)
    requires n < 0x1_0000_0000_0000_0000
    ensures var h := EncodeHeader(fin, op, n, m);
      && HasHeader(h + rest)
      && ParseHeader(h + rest) == Header(fin, false, false, false, op, |h|, n, m)
  {
    var len, key := EncodeLength(n, if m.NoMask? then 0 else 128), EncodeKey(m);
    var lead: byte := op + (if fin then 128 else 0);
    var buf := EncodeHeader(fin, op, n, m) + rest;
    FourParts(lead, len, key, rest);
    LengthRoundTrip(buf, n, m);
    LeadBits(lead, fin, op);
    if m.Mask? {
      KeyRoundTrip(buf, 1 + |len|, m);
    }
  }

  lemma KeyRoundTrip(buf: bytes, at: nat, m: Mask)
    requires m.Mask? && at + 4 <= |buf| && buf[at..at + 4] == EncodeKey(m)
    ensures Mask(buf[at], buf[at + 1], buf[at + 2], buf[at + 3]) == m
  {
  }

  lemma FourParts(lead: byte, len: bytes, key: bytes, rest: bytes)
    ensures var buf := [lead] + len + key + rest;
      buf[0] == lead && buf[1..1 + |len|] == len && buf[1 + |len|..1 + |len| + |key|] == key
  {
  }

  lemma LeadBits(lead: byte, fin: bool, op: opcode)
    requires lead == op + if fin then 128 else 0
    ensures (lead >= 128 <==> fin) && lead % 16 == op
    ensures lead / 64 % 2 == 0 && lead / 32 % 2 == 0 && lead / 16 % 2 == 0
  {
  }

  // ---------------------------------------------------------------- fragments

  /** How many fragments a message of `n` octets is sent in. */
  function Steps(n: nat): (steps: nat)
    ensures steps > 0
  {
    if n < CHUNK_SIZE then 1 else n / CHUNK_SIZE
  }

  /** All fragments but the last are `CHUNK_SIZE` octets long; the last takes what is left. */
  function Tiles(payload: bytes, steps: nat): seq<bytes>
    requires steps > 0 && (steps - 1) * CHUNK_SIZE <= |payload|
    decreases steps
  {
    if steps == 1 then [payload]
    else [payload[..CHUNK_SIZE]] + Tiles(payload[CHUNK_SIZE..], steps - 1)
  }

  /** Fragments `from` and on of a message of `|tiles|` fragments. */
  function Pieces(kind: opcode, tiles: seq<bytes>, from: nat): seq<Piece>
    requires from <= |tiles|
    decreases |tiles| - from
  {
    if from == |tiles| then []
    else [Piece(from == |tiles| - 1, if from == 0 then kind else CONTINUATION, tiles[from])]
         + Pieces(kind, tiles, from + 1)
  }

  lemma StepsFit(n: nat)
    ensures (Steps(n) - 1) * CHUNK_SIZE <= n < (Steps(n) + 1) * CHUNK_SIZE
  {
  }

  /** The fragments of a message. */
  function Fragments(kind: opcode, payload: bytes): seq<Piece> {
    StepsFit(|payload|);
    Pieces(kind, Tiles(payload, Steps(|payload|)), 0)
  }

  function Concat(parts: seq<bytes>): bytes {
    if parts == [] then [] else parts[0] + Concat(parts[1..])
  }

  lemma {:induction false} ConcatAppend(a: seq<bytes>, b: seq<bytes>)
    ensures Concat(a + b) == Concat(a) + Concat(b)
  {
    if a == [] {
      assert a + b == b;
    } else {
      assert (a + b)[1..] == a[1..] + b;
      ConcatAppend(a[1..], b);
    }
  }

  lemma {:induction false} TilesTile(payload: bytes, steps: nat)
    requires steps > 0 && (steps - 1) * CHUNK_SIZE <= |payload|
    ensures |Tiles(payload, steps)| == steps
    ensures Concat(Tiles(payload, steps)) == payload
    ensures forall i | 0 <= i < steps - 1 :: |Tiles(payload, steps)[i]| == CHUNK_SIZE
    ensures |Tiles(payload, steps)[steps - 1]| == |payload| - (steps - 1) * CHUNK_SIZE
    decreases steps
  {
    if steps == 1 {
      assert Concat([payload]) == payload + Concat([]);
    } else {
      var rest := payload[CHUNK_SIZE..];
      TilesTile(rest, steps - 1);
      assert payload == payload[..CHUNK_SIZE] + rest;
    }
  }

  /** Where the fragments lie in the payload. */
  lemma {:induction false} TileAt(payload: bytes, steps: nat, i: nat)
    requires i < steps && (steps - 1) * CHUNK_SIZE <= |payload|
    ensures |Tiles(payload, steps)| == steps
    ensures Tiles(payload, steps)[i]
         == payload[i * CHUNK_SIZE..if i == steps - 1 then |payload| else (i + 1) * CHUNK_SIZE]
    decreases steps
  {
    TilesTile(payload, steps);
    if i > 0 {
      TileAt(payload[CHUNK_SIZE..], steps - 1, i - 1);
    }
  }

  lemma FragmentAt(kind: opcode, payload: bytes, i: nat)
    requires i < Steps(|payload|)
    ensures var steps := Steps(|payload|);
      && (steps - 1) * CHUNK_SIZE <= |payload|
      && |Fragments(kind, payload)| == steps
      && Fragments(kind, payload)[i] == Piece(
           i == steps - 1,
           if i == 0 then kind else CONTINUATION,
           payload[i * CHUNK_SIZE..if i == steps - 1 then |payload| else (i + 1) * CHUNK_SIZE])
  {
    StepsFit(|payload|);
    TileAt(payload, Steps(|payload|), i);
    PiecesAt(kind, Tiles(payload, Steps(|payload|)), 0, i);
  }

  lemma {:induction false} PiecesAt(kind: opcode, tiles: seq<bytes>, from: nat, i: nat)
    requires from <= i < |tiles|
    ensures |Pieces(kind, tiles, from)| == |tiles| - from
    ensures Pieces(kind, tiles, from)[i - from]
         == Piece(i == |tiles| - 1, if i == 0 then kind else CONTINUATION, tiles[i])
    decreases i - from
  {
    if from < i {
      PiecesAt(kind, tiles, from + 1, i);
    } else {
      PiecesCount(kind, tiles, from);
    }
  }

  lemma {:induction false} PiecesCount(kind: opcode, tiles: seq<bytes>, from: nat)
    requires from <= |tiles|
    ensures |Pieces(kind, tiles, from)| == |tiles| - from
    decreases |tiles| - from
  {
    if from < |tiles| {
      PiecesCount(kind, tiles, from + 1);
    }
  }

  function Payloads(pieces: seq<Piece>): (r: seq<bytes>)
    ensures |r| == |pieces|
  {
    seq(|pieces|, i requires 0 <= i < |pieces| => pieces[i].payload)
  }

  lemma PiecesShape(kind: opcode, tiles: seq<bytes>)
    ensures var fs := Pieces(kind, tiles, 0);
      && |fs| == |tiles|
      && Payloads(fs) == tiles
      && (forall i | 0 <= i < |fs| ::
            fs[i] == Piece(i == |tiles| - 1, if i == 0 then kind else CONTINUATION, tiles[i]))
  {
    var fs := Pieces(kind, tiles, 0);
    PiecesCount(kind, tiles, 0);
    forall i | 0 <= i < |fs|
      ensures fs[i] == Piece(i == |tiles| - 1, if i == 0 then kind else CONTINUATION, tiles[i])
    {
      PiecesAt(kind, tiles, 0, i);
    }
  }

  /**
    The fragments of any message tile it, only the first carries the opcode, only the last
    carries FIN, and all are too short for the 64-bit length field.
   */
  lemma FragmentsTile(kind: opcode, payload: bytes)
    ensures var fs := Fragments(kind, payload);
      && |fs| == Steps(|payload|) == (if |payload| < 65536 then 1 else |payload| / 32768)
      && Concat(Payloads(fs)) == payload
      && (forall i | 0 <= i < |fs| :: |fs[i].payload| < 65536)
      && (forall i | 0 <= i < |fs| :: fs[i].fin <==> i == |fs| - 1)
      && (forall i | 0 <= i < |fs| :: fs[i].op == if i == 0 then kind else CONTINUATION)
  {
    var steps := Steps(|payload|);
    StepsFit(|payload|);
    TilesTile(payload, steps);
    PiecesShape(kind, Tiles(payload, steps));
  }
}
