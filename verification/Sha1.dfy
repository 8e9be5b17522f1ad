/**
  SHA-1 as the handshake key generator computes it, in place over a rotating register file and
  a circular message schedule, against the definition in section 6.1.2 of FIPS 180-4.
 */
module Sha1 {
  type word = bv32

  // ---------------------------------------------------------------- FIPS 180-4

  function Rotl1(x: word): word { (x << 1) | (x >> 31) }
  function Rotl5(x: word): word { (x << 5) | (x >> 27) }
  function Rotl30(x: word): word { (x << 30) | (x >> 2) }

  lemma Rotations(x: word)
    ensures Rotl1(x) == x.RotateLeft(1) && Rotl5(x) == x.RotateLeft(5) && Rotl30(x) == x.RotateLeft(30)
  {
  }

  function Ch(x: word, y: word, z: word): word { (x & y) ^ (!x & z) }
  function Parity(x: word, y: word, z: word): word { x ^ y ^ z }
  function Maj(x: word, y: word, z: word): word { (x & y) ^ (x & z) ^ (y & z) }

  /** The logical function of round `t`. */
  function Logic(t: nat, x: word, y: word, z: word): word {
    if t < 20 then Ch(x, y, z)
    else if t < 40 then Parity(x, y, z)
    else if t < 60 then Maj(x, y, z)
    else Parity(x, y, z)
  }

  function Constant(t: nat): word {
    if t < 20 then 0x5a827999
    else if t < 40 then 0x6ed9eba1
    else if t < 60 then 0x8f1bbcdc
    else 0xca62c1d6
  }

  /** The constants are the square roots of 2, 3, 5 and 10, in units of 2 to the power of -30, cut off. */
  lemma ConstantsAreRoots(t: nat)
    ensures var k, n := Constant(t) as int, if t < 20 then 2 else if t < 40 then 3 else if t < 60 then 5 else 10;
      k * k <= n * 0x1000_0000_0000_0000 < (k + 1) * (k + 1)
  {
  }

  /** The message schedule. */
  function Schedule(block: seq<word>, t: nat): word
    requires |block| == 16
  {
    if t < 16 then block[t]
    else Mix(Schedule(block, t - 3), Schedule(block, t - 8), Schedule(block, t - 14), Schedule(block, t - 16))
  }

  function Mix(w: word, x: word, y: word, z: word): word {
    Rotl1(w ^ x ^ y ^ z)
  }

  /** The working variables. */
  datatype Registers = Registers(a: word, b: word, c: word, d: word, e: word)

  function Sum5(r: word, f: word, e: word, k: word, w: word): word {
    r + f + e + k + w
  }

  function Round(r: Registers, t: nat, w: word): Registers {
    Registers(Sum5(Rotl5(r.a), Logic(t, r.b, r.c, r.d), r.e, Constant(t), w), r.a, Rotl30(r.b), r.c, r.d)
  }

  function Rounds(r: Registers, block: seq<word>, t: nat): Registers
    requires |block| == 16
  {
    if t == 0 then r else Round(Rounds(r, block, t - 1), t - 1, Schedule(block, t - 1))
  }

  /** The hash value after one more block. */
  function Compress(h: Registers, block: seq<word>): Registers
    requires |block| == 16
  {
    var r := Rounds(h, block, 80);
    Registers(Plus(h.a, r.a), Plus(h.b, r.b), Plus(h.c, r.c), Plus(h.d, r.d), Plus(h.e, r.e))
  }

  function Plus(x: word, y: word): word { x + y }

  // ---------------------------------------------------------------- the source's expressions

  function ChFast(x: word, y: word, z: word): word { (x & (y ^ z)) ^ z }
  function MajFast(x: word, y: word, z: word): word { ((x | y) & z) | (x & y) }
  /** The sum as the source adds it up. */
  function Bump(e: word, f: word, w: word, k: word, r: word): word { e + (f + w + k + r) }

  lemma AndOverXor(x: bv32, y: bv32, z: bv32)
    ensures x & (y ^ z) == (x & y) ^ (x & z)
  {
  }

  lemma XorAssociates(x: bv32, y: bv32, z: bv32)
    ensures (x ^ y) ^ z == x ^ (y ^ z)
  {
  }

  lemma MaskOut(x: bv32, z: bv32)
    ensures (x & z) ^ z == !x & z
  {
  }

  lemma SameCh(x: word, y: word, z: word)
    ensures ChFast(x, y, z) == Ch(x, y, z)
  {
    AndOverXor(x, y, z);
    XorAssociates(x & y, x & z, z);
    MaskOut(x, z);
  }

  lemma MajorityIdentity(x: bv32, y: bv32, z: bv32)
    ensures ((x | y) & z) | (x & y) == (x & y) ^ (x & z) ^ (y & z)
  {
  }

  lemma SameMaj(x: word, y: word, z: word)
    ensures MajFast(x, y, z) == Maj(x, y, z)
  {
    MajorityIdentity(x, y, z);
  }

  lemma SameSum(e: word, f: word, w: word, k: word, r: word)
    ensures Bump(e, f, w, k, r) == Sum5(r, f, e, k, w)
  {
  }

  /** The next schedule word, from a ring of the last sixteen. */
  function Blk(b: seq<word>, i: nat): word
    requires |b| == 16 && i < 16
  {
    Mix(b[(i + 13) % 16], b[(i + 8) % 16], b[(i + 2) % 16], b[i])
  }

  // ---------------------------------------------------------------- the representation

  /** The working variables before round `t`, in a register file that turns by one slot a round. */
  function View(a: seq<word>, t: nat): Registers
    requires |a| == 5
  {
    Registers(a[(t + 4) % 5], a[(t + 3) % 5], a[(t + 2) % 5], a[(t + 1) % 5], a[t % 5])
  }

  /** Before round `t` the ring holds the block, or the last sixteen schedule words. */
  ghost predicate Holds(b: seq<word>, block: seq<word>, t: nat) {
    && |b| == 16 && |block| == 16
    && var low := if t < 16 then 0 else t - 16;
       forall k | low <= k < low + 16 :: b[k % 16] == Schedule(block, k)
  }

  lemma RingIndex(t: nat, ahead: nat)
    requires t >= 16
    ensures (t % 16 + ahead) % 16 == (t - 16 + ahead) % 16
  {
    var q, r := t / 16 - 1, t % 16 + ahead;
    assert t - 16 + ahead == 16 * q + r;
    RingWraps(q, r);
  }

  lemma RingWraps(q: nat, r: nat)
    ensures (16 * q + r) % 16 == r % 16
  {
  }

  lemma RingDistinct(t: nat, k: nat)
    requires k < t <= k + 15
    ensures k % 16 != t % 16
  {
  }

  lemma RingStart(block: seq<word>)
    requires |block| == 16
    ensures Holds(block, block, 0)
  {
  }

  lemma RingWord(b: seq<word>, block: seq<word>, t: nat, ahead: nat)
    requires ahead < 16 <= t && Holds(b, block, t)
    ensures b[(t % 16 + ahead) % 16] == Schedule(block, t - 16 + ahead)
  {
    hide Schedule;
    RingIndex(t, ahead);
    assert b[(t - 16 + ahead) % 16] == Schedule(block, t - 16 + ahead);
  }

  /** Replacing the oldest word of the ring by `Blk` moves the ring on by one round. */
  lemma RingStep(b: seq<word>, block: seq<word>, t: nat)
    requires |b| == 16 && |block| == 16 && t >= 16 && Holds(b, block, t)
    ensures Blk(b, t % 16) == Schedule(block, t)
    ensures Holds(b[t % 16 := Blk(b, t % 16)], block, t + 1)
  {
    hide Holds, Blk;
    RingNext(b, block, t);
    RingMoves(b, block, t, Blk(b, t % 16));
  }

  lemma RingNext(b: seq<word>, block: seq<word>, t: nat)
    requires |b| == 16 && |block| == 16 && t >= 16 && Holds(b, block, t)
    ensures Blk(b, t % 16) == Schedule(block, t)
  {
    hide Mix, Holds, Schedule, Blk;
    var i := t % 16;
    RingWord(b, block, t, 13);
    RingWord(b, block, t, 8);
    RingWord(b, block, t, 2);
    RingWord(b, block, t, 0);
    BlkReads(b, i);
    ScheduleStep(block, t);
  }

  lemma BlkReads(b: seq<word>, i: nat)
    requires |b| == 16 && i < 16
    ensures Blk(b, i) == Mix(b[(i + 13) % 16], b[(i + 8) % 16], b[(i + 2) % 16], b[(i + 0) % 16])
  {
    hide Mix;
  }

  lemma ScheduleStep(block: seq<word>, t: nat)
    requires |block| == 16 && t >= 16
    ensures Schedule(block, t) == Mix(Schedule(block, t - 16 + 13), Schedule(block, t - 16 + 8),
                                      Schedule(block, t - 16 + 2), Schedule(block, t - 16 + 0))
  {
    hide Mix;
  }

  lemma RingMoves(b: seq<word>, block: seq<word>, t: nat, w: word)
    requires t >= 16 && Holds(b, block, t) && w == Schedule(block, t)
    ensures Holds(b[t % 16 := w], block, t + 1)
  {
    hide Schedule;
    forall k | t - 15 <= k < t + 1
      ensures b[t % 16 := w][k % 16] == Schedule(block, k)
    {
      if k < t {
        RingDistinct(t, k);
        assert b[k % 16] == Schedule(block, k);
      }
    }
  }

  /** Writing the two registers a round changes turns the file by one slot. */
  lemma FileStep(a: seq<word>, t: nat, fresh_: word, turned: word)
    requires |a| == 5
    ensures var r := View(a, t);
      View(a[t % 5 := fresh_][(t + 3) % 5 := turned], t + 1) == Registers(fresh_, r.a, turned, r.c, r.d)
  {
  }

  // ---------------------------------------------------------------- the code

  /** The round function of round `t`, as the source writes it. */
  function LogicFast(t: nat, x: word, y: word, z: word): word {
    if t < 20 then ChFast(x, y, z)
    else if t < 40 then Parity(x, y, z)
    else if t < 60 then MajFast(x, y, z)
    else Parity(x, y, z)
  }

  lemma SameLogic(t: nat, x: word, y: word, z: word)
    ensures LogicFast(t, x, y, z) == Logic(t, x, y, z)
  {
    SameCh(x, y, z);
    SameMaj(x, y, z);
  }

  lemma SameSlot(s: nat, t: nat, k: nat)
    requires s % 5 == t % 5
    ensures (k + s) % 5 == (t + k) % 5
  {
    assert s == 5 * (s / 5) + s % 5 && t == 5 * (t / 5) + s % 5;
    Wraps(s / 5, s % 5 + k);
    Wraps(t / 5, s % 5 + k);
  }

  lemma Wraps(q: nat, r: nat)
    ensures (5 * q + r) % 5 == r % 5
  {
  }

  lemma Apart(s: nat)
    ensures s % 5 != (3 + s) % 5
  {
  }

  /** The register work of round `t`, on the slots the source addresses from `s`. */
  method Turn(a: array<word>, s: nat, ghost t: nat, k: word, f: word, w: word)
    requires a.Length == 5 && s % 5 == t % 5 && k == Constant(t)
    requires f == LogicFast(t, a[(3 + s) % 5], a[(2 + s) % 5], a[(1 + s) % 5])
    modifies a
    ensures View(a[..], t + 1) == Round(View(old(a[..]), t), t, w)
  {
    hide Rotl5, Rotl30, Sum5, Bump, Logic, LogicFast, Constant;
    ghost var before := a[..];
    ghost var r := View(before, t);
    var slot, other := s % 5, (3 + s) % 5;
    assert slot == t % 5;
    assert other == (t + 3) % 5 by { SameSlot(s, t, 3); }
    assert f == LogicFast(t, r.b, r.c, r.d) by { SameSlot(s, t, 1); SameSlot(s, t, 2); }
    assert a[(4 + s) % 5] == r.a by { SameSlot(s, t, 4); }
    SameLogic(t, r.b, r.c, r.d);
    SameSum(r.e, f, w, k, Rotl5(r.a));
    Apart(s);
    a[slot] := Bump(a[slot], f, w, k, Rotl5(a[(4 + s) % 5]));
    a[other] := Rotl30(a[other]);
    FileStep(before, t, Bump(r.e, f, w, k, Rotl5(r.a)), Rotl30(r.b));
    assert a[..] == before[t % 5 := Bump(r.e, f, w, k, Rotl5(r.a))][(t + 3) % 5 := Rotl30(r.b)];
  }

  /** The ring slot and the register slot the source addresses in step `i` of a loop. */
  function RingSlot(state: nat, i: nat): nat {
    if state <= 2 then i else if state == 3 then (i + 4) % 16 else if state == 4 then (i + 8) % 16 else (i + 12) % 16
  }

  function RegisterSlot(state: nat, i: nat): nat {
    if state == 2 then 1 + i else i
  }

  predicate IsLoop(state: nat, base: nat, count: nat) {
    (state, base, count) in {(1, 0, 16), (2, 16, 4), (3, 20, 20), (4, 40, 20), (5, 60, 20)}
  }

  lemma RingSlotFits(state: nat, base: nat, count: nat, i: nat)
    requires IsLoop(state, base, count) && i < count
    ensures RingSlot(state, i) == (base + i) % 16
  {
  }

  lemma RegisterSlotFits(state: nat, base: nat, count: nat, i: nat)
    requires IsLoop(state, base, count) && i < count
    ensures RegisterSlot(state, i) % 5 == (base + i) % 5
  {
  }

  /** One loop of the source: `count` rounds from round `base` on, in state 1 to 5. */
  method Loop(state: nat, base: nat, count: nat, a: array<word>, b: array<word>,
              ghost start: Registers, ghost block: seq<word>)
    requires a.Length == 5 && b.Length == 16 && a != b && |block| == 16
    requires IsLoop(state, base, count)
    requires View(a[..], base) == Rounds(start, block, base) && Holds(b[..], block, base)
    modifies a, b
    ensures View(a[..], base + count) == Rounds(start, block, base + count) && Holds(b[..], block, base + count)
  {
    hide View, Round, Rotl1, Rotl5, Rotl30, Ch, Maj, Parity, ChFast, MajFast, RingSlot, RegisterSlot;
    for i := 0 to count
      invariant View(a[..], base + i) == Rounds(start, block, base + i) && Holds(b[..], block, base + i)
    {
      ghost var t := base + i;
      var j, s := RingSlot(state, i), RegisterSlot(state, i);
      RingSlotFits(state, base, count, i);
      RegisterSlotFits(state, base, count, i);
      if state > 1 {
        RingStep(b[..], block, t);
        ghost var ring := b[..];
        b[j] := Blk(b[..], j);
        assert b[..] == ring[t % 16 := Blk(ring, t % 16)];
      }
      assert b[j] == Schedule(block, t);
      var x, y, z := a[(3 + s) % 5], a[(2 + s) % 5], a[(1 + s) % 5];
      if state <= 2 {
        Turn(a, s, t, 0x5a827999, ChFast(x, y, z), b[j]);
      } else if state == 3 {
        Turn(a, s, t, 0x6ed9eba1, Parity(x, y, z), b[j]);
      } else if state == 4 {
        Turn(a, s, t, 0x8f1bbcdc, MajFast(x, y, z), b[j]);
      } else {
        Turn(a, s, t, 0xca62c1d6, Parity(x, y, z), b[j]);
      }
    }
  }

  function HashValue(h: seq<word>): Registers
    requires |h| == 5
  {
    Registers(h[0], h[1], h[2], h[3], h[4])
  }

  lemma RoundsStart(r: Registers, block: seq<word>)
    requires |block| == 16
    ensures Rounds(r, block, 0) == r
  {
  }

  /** The last loop of the source: add the working variables to the hash value. */
  method AddInto(hash: array<word>, a: array<word>)
    requires hash.Length == 5 && a.Length == 5 && hash != a
    modifies hash
    ensures forall j | 0 <= j < 5 :: hash[j] == Plus(old(hash[j]), a[4 - j])
  {
    hide Plus;
    for i := 0 to 5
      invariant forall j | 0 <= j < 5 :: hash[j] == if j < i then Plus(old(hash[j]), a[4 - j]) else old(hash[j])
    {
      hash[i] := Plus(hash[i], a[4 - i]);
    }
  }

  /** Before the first round and after the last, the file is the working variables in reverse. */
  lemma ViewEnds(a: seq<word>)
    requires |a| == 5
    ensures View(a, 0) == View(a, 80) == Registers(a[4], a[3], a[2], a[1], a[0])
  {
  }

  /** The eighty rounds, in the five loops of the source. */
  method AllRounds(a: array<word>, b: array<word>, ghost start: Registers, ghost block: seq<word>)
    requires a.Length == 5 && b.Length == 16 && a != b && b[..] == block
    requires View(a[..], 0) == start
    modifies a, b
    ensures View(a[..], 80) == Rounds(start, block, 80)
  {
    hide Rounds, Schedule, Holds, View;
    RingStart(block);
    RoundsStart(start, block);
    Loop(1, 0, 16, a, b, start, block);
    Loop(2, 16, 4, a, b, start, block);
    Loop(3, 20, 20, a, b, start, block);
    Loop(4, 40, 20, a, b, start, block);
    Loop(5, 60, 20, a, b, start, block);
  }

  /** Compress one block into the hash value, in place. */
  method Sha1Block(hash: array<word>, b: array<word>)
    requires hash.Length == 5 && b.Length == 16 && hash != b
    modifies hash, b
    ensures HashValue(hash[..]) == Compress(HashValue(old(hash[..])), old(b[..]))
  {
    hide Rounds, View, Plus;
    var a := new word[5][hash[4], hash[3], hash[2], hash[1], hash[0]];
    ViewEnds(a[..]);
    AllRounds(a, b, HashValue(hash[..]), b[..]);
    ViewEnds(a[..]);
    AddInto(hash, a);
  }
}
