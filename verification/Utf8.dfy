/**
  The table-driven UTF-8 decoder and its specification: the scalar values of section 3 and
  the octet grammar of section 4 of RFC 3629.
 */
module Utf8 {
  import opened Bytes

  // ---------------------------------------------------------------- specification

  predicate IsScalar(v: int) {
    0 <= v < 0xD800 || 0xE000 <= v < 0x110000
  }

  /** The octets of one scalar value, as laid out in section 3 of RFC 3629. */
  function Encode(v: nat): bytes
    requires IsScalar(v)
  {
    if v < 0x80 then [v]
    else if v < 0x800 then [0xC0 + v / 64, 0x80 + v % 64]
    else if v < 0x10000 then [0xE0 + v / 64 / 64, 0x80 + v / 64 % 64, 0x80 + v % 64]
    else [0xF0 + v / 64 / 64 / 64, 0x80 + v / 64 / 64 % 64, 0x80 + v / 64 % 64, 0x80 + v % 64]
  }

  predicate AllScalars(vs: seq<nat>) {
    forall i | 0 <= i < |vs| :: IsScalar(vs[i])
  }

  function EncodeAll(vs: seq<nat>): bytes
    requires AllScalars(vs)
  {
    if vs == [] then [] else Encode(vs[0]) + EncodeAll(vs[1..])
  }

  predicate Tail(b: byte) {
    0x80 <= b <= 0xBF
  }

  /** UTF8-char of section 4 of RFC 3629. */
  predicate IsChar(c: bytes) {
    || (|c| == 1 && c[0] <= 0x7F)
    || (|c| == 2 && 0xC2 <= c[0] <= 0xDF && Tail(c[1]))
    || (|c| == 3 && Tail(c[2]) &&
          (|| (c[0] == 0xE0 && 0xA0 <= c[1] <= 0xBF)
           || (0xE1 <= c[0] <= 0xEC && Tail(c[1]))
           || (c[0] == 0xED && 0x80 <= c[1] <= 0x9F)
           || (0xEE <= c[0] <= 0xEF && Tail(c[1]))))
    || (|c| == 4 && Tail(c[2]) && Tail(c[3]) &&
          (|| (c[0] == 0xF0 && 0x90 <= c[1] <= 0xBF)
           || (0xF1 <= c[0] <= 0xF3 && Tail(c[1]))
           || (c[0] == 0xF4 && 0x80 <= c[1] <= 0x8F)))
  }

  /** UTF8-octets: any number of characters, one after the other. */
  ghost predicate IsUtf8(s: bytes)
    decreases |s|
  {
    s == [] || exists n | 1 <= n <= |s| :: IsChar(s[..n]) && IsUtf8(s[n..])
  }

  /** The scalar value of one character. */
  function ScalarOf(c: bytes): nat
    requires IsChar(c)
  {
    var lead: int := c[0];
    if |c| == 1 then lead
    else if |c| == 2 then (lead - 0xC0) * 64 + TailBits(c[1])
    else if |c| == 3 then ((lead - 0xE0) * 64 + TailBits(c[1])) * 64 + TailBits(c[2])
    else (((lead - 0xF0) * 64 + TailBits(c[1])) * 64 + TailBits(c[2])) * 64 + TailBits(c[3])
  }

  function TailBits(b: byte): int {
    b - 0x80
  }

  lemma Split64(q: int, r: int)
    requires 0 <= r < 64
    ensures (q * 64 + r) / 64 == q && (q * 64 + r) % 64 == r
  {
  }

  lemma CharEncodes3(c: bytes)
    requires IsChar(c) && |c| == 3
    ensures IsScalar(ScalarOf(c)) && Encode(ScalarOf(c)) == c
  {
  }

  lemma CharEncodes4(c: bytes)
    requires IsChar(c) && |c| == 4
    ensures IsScalar(ScalarOf(c)) && Encode(ScalarOf(c)) == c
  {
  }

  /** Every character of the grammar is the encoding of its scalar value. */
  lemma CharEncodes(c: bytes)
    requires IsChar(c)
    ensures IsScalar(ScalarOf(c)) && Encode(ScalarOf(c)) == c
  {
    if |c| == 2 {
      var lead: int := c[0];
      Split64(lead - 0xC0, TailBits(c[1]));
    } else if |c| == 3 {
      CharEncodes3(c);
    } else if |c| == 4 {
      CharEncodes4(c);
    }
  }

  /** Every encoding is a character of the grammar, with that scalar value. */
  lemma EncodingIsChar(v: nat)
    requires IsScalar(v)
    ensures IsChar(Encode(v)) && ScalarOf(Encode(v)) == v
  {
    assert v == v / 64 * 64 + v % 64;
    assert v / 64 == v / 64 / 64 * 64 + v / 64 % 64;
    assert v / 64 / 64 == v / 64 / 64 / 64 * 64 + v / 64 / 64 % 64;
  }

  // ---------------------------------------------------------------- the decoder

  const ACCEPT := 0
  const REJECT := 1

  datatype Decoder = Decoder(state: nat, codepoint: nat)

  const START := Decoder(ACCEPT, 0)

  /** The state after one more octet, by octet ranges; `DecodeNextByte` looks it up in the table. */
  function Delta(state: nat, b: byte): nat {
    if state == 0 then
      if b <= 0x7F then 0
      else if 0xC2 <= b <= 0xDF then 2
      else if b == 0xE0 then 4
      else if b == 0xED then 5
      else if 0xE1 <= b <= 0xEF then 3
      else if b == 0xF0 then 6
      else if 0xF1 <= b <= 0xF3 then 7
      else if b == 0xF4 then 8
      else 1
    else if state == 2 then if Tail(b) then 0 else 1
    else if state == 3 then if Tail(b) then 2 else 1
    else if state == 4 then if 0xA0 <= b <= 0xBF then 2 else 1
    else if state == 5 then if 0x80 <= b <= 0x9F then 2 else 1
    else if state == 6 then if 0x90 <= b <= 0xBF then 3 else 1
    else if state == 7 then if Tail(b) then 3 else 1
    else if state == 8 then if 0x80 <= b <= 0x8F then 3 else 1
    else 1
  }

  /** The payload bits of a lead octet; what is left of an octet that cannot lead is of no interest. */
  function LeadBits(b: byte): nat {
    if b < 0x80 then b
    else if b < 0x90 then b % 128
    else if b < 0xA0 then 0
    else if b < 0xC0 then b % 2
    else if b < 0xC2 then 0
    else if b < 0xE0 then b - 0xC0
    else if b < 0xF0 then b - 0xE0
    else if b < 0xF5 then b - 0xF0
    else 0
  }

  function Next(d: Decoder, b: byte): Decoder {
    Decoder(
      Delta(d.state, b),
      if d.state != ACCEPT then (b % 64 + d.codepoint * 64) % 0x1_0000_0000 else LeadBits(b))
  }

  /** Feed octets until they run out or one is rejected. */
  function Feed(d: Decoder, s: bytes): Decoder
    decreases |s|
  {
    if s == [] then d
    else
      var d' := Next(d, s[0]);
      if d'.state == REJECT then d' else Feed(d', s[1..])
  }

  /** The code points the decoder shows, one each time it is back in the accepting state. */
  function Shown(d: Decoder, s: bytes): seq<nat>
    decreases |s|
  {
    if s == [] then []
    else
      var d' := Next(d, s[0]);
      if d'.state == REJECT then []
      else if d'.state == ACCEPT then [d'.codepoint] + Shown(d', s[1..])
      else Shown(d', s[1..])
  }

  // ---------------------------------------------------------------- the lookup table

  /** The entry in column `i` of a row of sixteen. */
  function Row(i: nat, x0: nat, x1: nat, x2: nat, x3: nat, x4: nat, x5: nat, x6: nat, x7: nat,
               x8: nat, x9: nat, x10: nat, x11: nat, x12: nat, x13: nat, x14: nat, x15: nat): nat
  {
    if i == 0 then x0
    else if i == 1 then x1
    else if i == 2 then x2
    else if i == 3 then x3
    else if i == 4 then x4
    else if i == 5 then x5
    else if i == 6 then x6
    else if i == 7 then x7
    else if i == 8 then x8
    else if i == 9 then x9
    else if i == 10 then x10
    else if i == 11 then x11
    else if i == 12 then x12
    else if i == 13 then x13
    else if i == 14 then x14
    else x15
  }

  /** The octet classes: the first 256 entries of the table, in rows of sixteen. */
  function ClassRow(r: nat, i: nat): nat
  {
    if r < 8 then Row(i, 0, 0, 0, 0, 0, 0, 0, 0, 0, 0, 0, 0, 0, 0, 0, 0)
    else if r == 8 then Row(i, 1, 1, 1, 1, 1, 1, 1, 1, 1, 1, 1, 1, 1, 1, 1, 1)
    else if r == 9 then Row(i, 9, 9, 9, 9, 9, 9, 9, 9, 9, 9, 9, 9, 9, 9, 9, 9)
    else if r < 12 then Row(i, 7, 7, 7, 7, 7, 7, 7, 7, 7, 7, 7, 7, 7, 7, 7, 7)
    else if r == 12 then Row(i, 8, 8, 2, 2, 2, 2, 2, 2, 2, 2, 2, 2, 2, 2, 2, 2)
    else if r == 13 then Row(i, 2, 2, 2, 2, 2, 2, 2, 2, 2, 2, 2, 2, 2, 2, 2, 2)
    else if r == 14 then Row(i, 0xa, 0x3, 0x3, 0x3, 0x3, 0x3, 0x3, 0x3, 0x3, 0x3, 0x3, 0x3, 0x3, 0x4, 0x3, 0x3)
    else Row(i, 0xb, 0x6, 0x6, 0x6, 0x5, 0x8, 0x8, 0x8, 0x8, 0x8, 0x8, 0x8, 0x8, 0x8, 0x8, 0x8)
  }

  /** The transitions: the other 144 entries, one row of sixteen for each state. */
  function StateRow(state: nat, i: nat): nat
  {
    if state == 0 then Row(i, 0x0, 0x1, 0x2, 0x3, 0x5, 0x8, 0x7, 0x1, 0x1, 0x1, 0x4, 0x6, 0x1, 0x1, 0x1, 0x1)
    else if state == 1 then Row(i, 1, 1, 1, 1, 1, 1, 1, 1, 1, 1, 1, 1, 1, 1, 1, 1)
    else if state == 2 then Row(i, 1, 0, 1, 1, 1, 1, 1, 0, 1, 0, 1, 1, 1, 1, 1, 1)
    else if state == 3 then Row(i, 1, 2, 1, 1, 1, 1, 1, 2, 1, 2, 1, 1, 1, 1, 1, 1)
    else if state == 4 then Row(i, 1, 1, 1, 1, 1, 1, 1, 2, 1, 1, 1, 1, 1, 1, 1, 1)
    else if state == 5 then Row(i, 1, 2, 1, 1, 1, 1, 1, 1, 1, 2, 1, 1, 1, 1, 1, 1)
    else if state == 6 then Row(i, 1, 1, 1, 1, 1, 1, 1, 3, 1, 3, 1, 1, 1, 1, 1, 1)
    else if state == 7 then Row(i, 1, 3, 1, 1, 1, 1, 1, 3, 1, 3, 1, 1, 1, 1, 1, 1)
    else Row(i, 1, 3, 1, 1, 1, 1, 1, 1, 1, 1, 1, 1, 1, 1, 1, 1)
  }

  /** The table entry at an index. */
  function Utf8d(i: nat): nat
    requires i < 400
  {
    if i < 256 then ClassRow(i / 16, i % 16) else StateRow(i / 16 - 16, i % 16)
  }

  /** What `0xff >> kind` leaves of an octet, as a modulus. */
  function LeadModulus(kind: nat): nat {
    if kind == 0 then 256 else if kind == 1 then 128 else if kind == 2 then 64
    else if kind == 3 then 32 else if kind == 4 then 16 else if kind == 5 then 8
    else if kind == 6 then 4 else if kind == 7 then 2 else 1
  }

  function Class(b: byte): nat {
    if b < 0x80 then 0
    else if b < 0x90 then 1
    else if b < 0xA0 then 9
    else if b < 0xC0 then 7
    else if b < 0xC2 then 8
    else if b < 0xE0 then 2
    else if b == 0xE0 then 0xa
    else if b == 0xED then 4
    else if b < 0xF0 then 3
    else if b == 0xF0 then 0xb
    else if b < 0xF4 then 6
    else if b == 0xF4 then 5
    else 8
  }

  lemma ClassLow(b: byte)
    requires b < 0xC0
    ensures Utf8d(b) == Class(b)
  {
  }

  lemma ClassHigh(b: byte)
    requires b >= 0xC0
    ensures Utf8d(b) == Class(b)
  {
  }

  lemma TransitionFromLead(b: byte)
    ensures StateRow(0, Class(b)) == Delta(0, b)
  {
  }

  /** Inside a character only the three classes of continuation octets matter. */
  lemma RowElsewhere(state: nat, kind: nat)
    requires 1 <= state < 9 && kind < 12 && kind !in {1, 7, 9}
    ensures StateRow(state, kind) == 1
  {
  }

  lemma RowInside(state: nat)
    requires 1 <= state < 9
    ensures StateRow(state, 1) == Delta(state, 0x80)
    ensures StateRow(state, 9) == Delta(state, 0x90)
    ensures StateRow(state, 7) == Delta(state, 0xA0)
  {
  }

  lemma DeltaInside(state: nat, b: byte)
    requires 1 <= state < 9
    ensures Delta(state, b) ==
      if Class(b) == 1 then Delta(state, 0x80)
      else if Class(b) == 9 then Delta(state, 0x90)
      else if Class(b) == 7 then Delta(state, 0xA0)
      else 1
  {
  }

  lemma LeadBitsByClass(b: byte)
    ensures b % LeadModulus(Class(b)) == LeadBits(b)
  {
  }

  lemma EntryIndex(state: nat, kind: nat)
    requires kind < 16
    ensures (256 + state * 16 + kind) / 16 - 16 == state && (256 + state * 16 + kind) % 16 == kind
  {
  }

  /** The table encodes the transitions and the payload bits given above by ranges. */
  lemma TableIsDelta(state: nat, b: byte)
    requires state < 9
    ensures Utf8d(b) < 12
    ensures Utf8d(256 + state * 16 + Utf8d(b)) == Delta(state, b)
    ensures b % LeadModulus(Utf8d(b)) == LeadBits(b)
  {
    if b < 0xC0 { ClassLow(b); } else { ClassHigh(b); }
    EntryIndex(state, Class(b));
    LeadBitsByClass(b);
    if state == 0 {
      TransitionFromLead(b);
    } else {
      RowInside(state);
      DeltaInside(state, b);
      if Class(b) !in {1, 7, 9} {
        RowElsewhere(state, Class(b));
      }
    }
  }

  // ---------------------------------------------------------------- the validator

  /** Decode one octet by table lookup. */
  method DecodeNextByte(state: nat, codepoint: nat, b: byte) returns (state': nat, codepoint': nat)
    requires state < 9
    ensures state' < 9 && Decoder(state', codepoint') == Next(Decoder(state, codepoint), b)
  {
    TableIsDelta(state, b);
    var kind := Utf8d(b);
    codepoint' := if state != ACCEPT then (b % 64 + codepoint * 64) % 0x1_0000_0000 else b % LeadModulus(kind);
    state' := Utf8d(256 + state * 16 + kind);
  }

  class Utf8Validator {
    var state: nat
    var codepoint: nat

    ghost predicate Valid()
      reads this
    {
      state < 9
    }

    function Value(): Decoder
      reads this
    {
      Decoder(state, codepoint)
    }

    constructor ()
      ensures Valid() && Value() == START
    {
      state, codepoint := ACCEPT, 0;
    }

    method Consume(b: byte) returns (ok: bool)
      requires Valid()
      modifies this
      ensures Valid() && Value() == Next(old(Value()), b)
      ensures ok <==> state != REJECT
    {
      state, codepoint := DecodeNextByte(state, codepoint, b);
      ok := state != REJECT;
    }

    method Decode(s: bytes) returns (ok: bool)
      requires Valid()
      modifies this
      ensures Valid() && Value() == Feed(old(Value()), s)
      ensures ok <==> s == [] || state != REJECT
    {
      for i := 0 to |s|
        invariant Valid()
        invariant Feed(Value(), s[i..]) == Feed(old(Value()), s)
        invariant i > 0 ==> state != REJECT
      {
        assert s[i..][1..] == s[i + 1..];
        var accepted := Consume(s[i]);
        if !accepted {
          return false;
        }
      }
      return true;
    }

    method Complete() returns (done: bool)
      ensures done <==> state == ACCEPT
    {
      done := state == ACCEPT;
    }

    method Reset()
      modifies this
      ensures Valid() && Value() == START
    {
      state, codepoint := ACCEPT, 0;
    }
  }

  /** Whether a whole string is accepted. */
  predicate Validates(s: bytes) {
    Feed(START, s).state == ACCEPT
  }

  method ValidateUtf8(s: bytes) returns (valid: bool)
    ensures valid <==> IsUtf8(s)
    ensures valid <==> Validates(s)
  {
    var v := new Utf8Validator();
    var ok := v.Decode(s);
    ValidatesExactly(s);
    if !ok {
      return false;
    }
    valid := v.Complete();
  }

  // ---------------------------------------------------------------- decoding one character

  /** Continuation octets carry six bits each. */
  lemma NextTail(d: Decoder, b: byte)
    requires 2 <= d.state < 9 && d.codepoint < 0x20000
    ensures Delta(d.state, b) != REJECT ==>
      Tail(b) && Next(d, b) == Decoder(Delta(d.state, b), d.codepoint * 64 + TailBits(b))
  {
  }

  /** How many octets a character with this lead octet has; 0 when no character starts so. */
  function LengthFromLead(b: byte): nat {
    var q := Delta(ACCEPT, b);
    if q == 0 then 1 else if q == 2 then 2 else if q in {3, 4, 5} then 3 else if q in {6, 7, 8} then 4 else 0
  }

  lemma CharLength(c: bytes)
    requires IsChar(c)
    ensures |c| == LengthFromLead(c[0])
  {
  }

  /** What feeding `s` to `d` does is what feeding `s'` to `d'` does, with `shown` shown before. */
  ghost predicate Reduces(d: Decoder, s: bytes, shown: seq<nat>, d': Decoder, s': bytes) {
    Feed(d, s) == Feed(d', s') && Shown(d, s) == shown + Shown(d', s')
  }

  /** The number of continuation octets a state still wants. */
  function Wanted(state: nat): nat {
    if state == 2 then 1 else if state in {3, 4, 5} then 2 else if state in {6, 7, 8} then 3 else 0
  }

  /** The string starts with continuation octets that lead from the state back to acceptance. */
  predicate Completes(state: nat, s: bytes)
    decreases Wanted(state)
  {
    || state == ACCEPT
    || (2 <= state < 9 && s != [] && Delta(state, s[0]) != REJECT && Completes(Delta(state, s[0]), s[1..]))
  }

  /** The code point after `n` continuation octets. */
  function Accumulated(cp: nat, s: bytes, n: nat): nat
    requires n <= |s|
    requires forall i | 0 <= i < n :: Tail(s[i])
    decreases n
  {
    if n == 0 then cp
    else
      assert Tail(s[0]);
      Accumulated(cp * 64 + TailBits(s[0]), s[1..], n - 1)
  }

  lemma {:induction false} CompletesWithTails(state: nat, s: bytes)
    requires Completes(state, s)
    ensures Wanted(state) <= |s| && forall i | 0 <= i < Wanted(state) :: Tail(s[i])
    decreases Wanted(state)
  {
  }

  /** A code point small enough for the octets still wanted not to overflow 32 bits. */
  predicate Fits(d: Decoder) {
    d.codepoint < if Wanted(d.state) == 1 then 0x20000 else if Wanted(d.state) == 2 then 0x800 else 0x20
  }

  /** Inside a character the decoder consumes the continuation octets it wants, or does not accept. */
  lemma {:induction false} FeedTails(d: Decoder, s: bytes)
    requires 2 <= d.state < 9 && Fits(d)
    ensures Completes(d.state, s) ==>
      && Wanted(d.state) <= |s| && (forall i | 0 <= i < Wanted(d.state) :: Tail(s[i]))
      && var cp := Accumulated(d.codepoint, s, Wanted(d.state));
         Reduces(d, s, [cp], Decoder(ACCEPT, cp), s[Wanted(d.state)..])
    ensures !Completes(d.state, s) ==> Feed(d, s).state != ACCEPT
    decreases Wanted(d.state)
  {
    if s != [] && Delta(d.state, s[0]) != REJECT {
      NextTail(d, s[0]);
      var d', rest := Next(d, s[0]), s[1..];
      assert Wanted(d'.state) == Wanted(d.state) - 1;
      if d'.state != ACCEPT {
        FeedTails(d', rest);
      }
      if Completes(d.state, s) {
        CompletesWithTails(d.state, s);
        assert rest[Wanted(d'.state)..] == s[Wanted(d.state)..];
      }
    }
  }

  /** The string starts with a character of `n` octets, which the decoder consumes and shows. */
  ghost predicate ConsumesChar(d: Decoder, s: bytes, n: nat)
    requires 1 <= n <= |s| && IsChar(s[..n])
  {
    var v := ScalarOf(s[..n]);
    Reduces(d, s, [v], Decoder(ACCEPT, v), s[n..])
  }

  /** A lead octet followed by the continuation octets it wants is a character, and nothing else is. */
  lemma CompletesIsChar(s: bytes)
    requires s != []
    ensures var n := LengthFromLead(s[0]);
      (1 <= n <= |s| && IsChar(s[..n])) <==> Completes(Delta(ACCEPT, s[0]), s[1..])
  {
  }

  lemma CharValue(s: bytes, n: nat)
    requires 2 <= n <= |s| && n == LengthFromLead(s[0]) && IsChar(s[..n])
    requires forall i | 0 <= i < n - 1 :: Tail(s[1..][i])
    ensures Accumulated(LeadBits(s[0]), s[1..], n - 1) == ScalarOf(s[..n])
  {
  }

  /**
    From the accepting state the decoder consumes exactly one character and shows its scalar
    value; when no character starts the string it ends elsewhere.
   */
  lemma FeedChar(d: Decoder, s: bytes)
    requires d.state == ACCEPT && s != []
    ensures var n := LengthFromLead(s[0]);
      if 1 <= n <= |s| && IsChar(s[..n]) then ConsumesChar(d, s, n) else Feed(d, s).state != ACCEPT
  {
    var n, d', rest := LengthFromLead(s[0]), Next(d, s[0]), s[1..];
    CompletesIsChar(s);
    if n >= 2 {
      FeedTails(d', rest);
      if Completes(d'.state, rest) {
        CharValue(s, n);
        assert rest[n - 1..] == s[n..];
      }
    }
  }

  // ---------------------------------------------------------------- main results

  /** Acceptance from any accepting decoder is membership in the grammar. */
  lemma {:induction false} FeedExactly(d: Decoder, s: bytes)
    requires d.state == ACCEPT
    ensures Feed(d, s).state == ACCEPT <==> IsUtf8(s)
    decreases |s|
  {
    if s != [] {
      var n := LengthFromLead(s[0]);
      FeedChar(d, s);
      if 1 <= n <= |s| && IsChar(s[..n]) {
        FeedExactly(Decoder(ACCEPT, ScalarOf(s[..n])), s[n..]);
      }
      if IsUtf8(s) {
        var k :| 1 <= k <= |s| && IsChar(s[..k]) && IsUtf8(s[k..]);
        CharLength(s[..k]);
        FeedExactly(Decoder(ACCEPT, ScalarOf(s[..k])), s[k..]);
      }
    }
  }

  /** A string is accepted exactly when it is in the grammar of section 4 of RFC 3629. */
  lemma ValidatesExactly(s: bytes)
    ensures Validates(s) <==> IsUtf8(s)
  {
    FeedExactly(START, s);
  }

  /** The code points shown while accepting a string are the scalar values whose encoding it is. */
  lemma {:induction false} ShownEncodes(d: Decoder, s: bytes)
    requires d.state == ACCEPT && Feed(d, s).state == ACCEPT
    ensures AllScalars(Shown(d, s)) && EncodeAll(Shown(d, s)) == s
    decreases |s|
  {
    if s != [] {
      var n := LengthFromLead(s[0]);
      FeedChar(d, s);
      var d' := Decoder(ACCEPT, ScalarOf(s[..n]));
      ShownEncodes(d', s[n..]);
      CharEncodes(s[..n]);
      var rest := Shown(d', s[n..]);
      assert Shown(d, s) == [d'.codepoint] + rest;
      assert ([d'.codepoint] + rest)[1..] == rest;
      assert s == s[..n] + s[n..];
    }
  }

  /** Every encoded sequence of scalar values is accepted, and exactly those values are shown. */
  lemma {:induction false} EncodingIsShown(d: Decoder, vs: seq<nat>)
    requires d.state == ACCEPT && AllScalars(vs)
    ensures Feed(d, EncodeAll(vs)).state == ACCEPT
    ensures Shown(d, EncodeAll(vs)) == vs
    decreases |vs|
  {
    if vs != [] {
      var c, rest := Encode(vs[0]), EncodeAll(vs[1..]);
      EncodingIsChar(vs[0]);
      CharLength(c);
      assert (c + rest)[..|c|] == c && (c + rest)[|c|..] == rest;
      FeedChar(d, c + rest);
      EncodingIsShown(Decoder(ACCEPT, vs[0]), vs[1..]);
    }
  }

  /** Decoding pieces in turn is decoding their concatenation; after a rejection only the state agrees. */
  lemma {:induction false} FeedPieces(d: Decoder, a: bytes, b: bytes)
    requires d.state != REJECT
    ensures Feed(Feed(d, a), b).state == Feed(d, a + b).state
    ensures Feed(d, a).state != REJECT || b == [] ==> Feed(Feed(d, a), b) == Feed(d, a + b)
    decreases |a|
  {
    if a == [] {
      assert a + b == b;
    } else {
      assert (a + b)[0] == a[0] && (a + b)[1..] == a[1..] + b;
      var d' := Next(d, a[0]);
      if d'.state != REJECT {
        FeedPieces(d', a[1..], b);
      }
    }
  }
}
