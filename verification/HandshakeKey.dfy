/**
  The accept key of the opening handshake: `generate` against the definition in section 4.2.2 of
  RFC 6455, built from the whole of SHA-1 (FIPS 180-4) and base64 (section 4 of RFC 4648).
 */
module HandshakeKey {
  import opened Sha1

  type octet = bv8

  // ---------------------------------------------------------------- SHA-1 of a message

  function Word(x: octet, y: octet, z: octet, w: octet): word {
    ((x as bv32) << 24) | ((y as bv32) << 16) | ((z as bv32) << 8) | (w as bv32)
  }

  function WordAt(block: seq<octet>, i: nat): word
    requires 4 * i + 3 < |block|
  {
    Word(block[4 * i], block[4 * i + 1], block[4 * i + 2], block[4 * i + 3])
  }

  /** Section 5.2.1: a block of 64 octets as sixteen big-endian words. */
  function WordsOf(block: seq<octet>): (words: seq<word>)
    requires |block| == 64
    ensures |words| == 16 && forall i | 0 <= i < 16 :: words[i] == WordAt(block, i)
  {
    seq(16, i requires 0 <= i < 16 => WordAt(block, i))
  }

  function Zeros(n: nat): (z: seq<octet>)
    ensures |z| == n && forall i | 0 <= i < n :: z[i] == 0
  {
    seq(n, _ => 0)
  }

  function Low(n: nat): octet
    requires n < 256
  {
    n as octet
  }

  /** `n` as `width` big-endian octets. */
  function BigEndian(n: nat, width: nat): (o: seq<octet>)
    ensures |o| == width
  {
    if width == 0 then [] else BigEndian(n / 256, width - 1) + [Low(n % 256)]
  }

  /** Section 5.1.1: a one bit, zeros up to 56 octets of a block, and the length in bits. */
  function Pad(message: seq<octet>): seq<octet> {
    message + [0x80] + Zeros((55 - |message|) % 64) + BigEndian(8 * |message|, 8)
  }

  function Process(h: Registers, padded: seq<octet>): Registers
    decreases |padded|
  {
    if |padded| < 64 then h else Process(Compress(h, WordsOf(padded[..64])), padded[64..])
  }

  /** Section 5.3.1. */
  function Initial(): Registers {
    Registers(0x67452301, 0xefcdab89, 0x98badcfe, 0x10325476, 0xc3d2e1f0)
  }

  function WordOctets(w: word): (o: seq<octet>)
    ensures |o| == 4
  {
    [Octet3(w), Octet2(w), Octet1(w), Octet0(w)]
  }

  function Octet0(w: word): octet { (w & 0xff) as bv8 }
  function Octet1(w: word): octet { ((w >> 8) & 0xff) as bv8 }
  function Octet2(w: word): octet { ((w >> 16) & 0xff) as bv8 }
  function Octet3(w: word): octet { ((w >> 24) & 0xff) as bv8 }

  function WordsOctets(words: seq<word>): (o: seq<octet>)
    ensures |o| == 4 * |words|
  {
    if words == [] then [] else WordsOctets(words[..|words| - 1]) + WordOctets(words[|words| - 1])
  }

  function Digest(h: Registers): (o: seq<octet>)
    ensures |o| == 20
  {
    WordsOctets([h.a, h.b, h.c, h.d, h.e])
  }

  function Hash(message: seq<octet>): (o: seq<octet>)
    ensures |o| == 20
  {
    Digest(Process(Initial(), Pad(message)))
  }

  // ---------------------------------------------------------------- base64

  /** Table 1 of RFC 4648. */
  function Letter(n: nat): char
    requires n < 64
  {
    if n < 26 then ('A' as int + n) as char
    else if n < 52 then ('a' as int + (n - 26)) as char
    else if n < 62 then ('0' as int + (n - 52)) as char
    else if n == 62 then '+'
    else '/'
  }

  /** Three octets as one 24-bit group. */
  function Group(x: octet, y: octet, z: octet): bv32 {
    ((x as bv32) << 16) | ((y as bv32) << 8) | (z as bv32)
  }

  /** The four 6-bit values of a group, most significant first. */
  function Sextet(g: bv32, k: nat): (v: bv8)
    requires k < 4
    ensures v < 64
  {
    if k == 0 then ((g >> 18) & 63) as bv8
    else if k == 1 then ((g >> 12) & 63) as bv8
    else if k == 2 then ((g >> 6) & 63) as bv8
    else (g & 63) as bv8
  }

  function Value(g: bv32, k: nat): (n: nat)
    requires k < 4
    ensures n < 64
  {
    Sextet(g, k) as nat
  }

  function Quad(x: octet, y: octet, z: octet): (s: string)
    ensures |s| == 4
  {
    var g := Group(x, y, z);
    [Letter(Value(g, 0)), Letter(Value(g, 1)), Letter(Value(g, 2)), Letter(Value(g, 3))]
  }

  /** A last group of one or two octets is filled up with zero bits, and with `=`. */
  function Base64(data: seq<octet>): string
    decreases |data|
  {
    if |data| == 0 then []
    else if |data| == 1 then Quad(data[0], 0, 0)[..2] + ['=', '=']
    else if |data| == 2 then Quad(data[0], data[1], 0)[..3] + ['=']
    else Quad(data[0], data[1], data[2]) + Base64(data[3..])
  }

  // ---------------------------------------------------------------- the accept key

  /** The ASCII codes of "258EAFA5-E914-47DA-95CA-C5AB0DC85B11", four characters at a time. */
  function GuidPart(i: nat): (p: seq<octet>)
    ensures |p| == 4
  {
    if i == 0 then [0x32, 0x35, 0x38, 0x45]      // 258E
    else if i == 1 then [0x41, 0x46, 0x41, 0x35] // AFA5
    else if i == 2 then [0x2d, 0x45, 0x39, 0x31] // -E91
    else if i == 3 then [0x34, 0x2d, 0x34, 0x37] // 4-47
    else if i == 4 then [0x44, 0x41, 0x2d, 0x39] // DA-9
    else if i == 5 then [0x35, 0x43, 0x41, 0x2d] // 5CA-
    else if i == 6 then [0x43, 0x35, 0x41, 0x42] // C5AB
    else if i == 7 then [0x30, 0x44, 0x43, 0x38] // 0DC8
    else [0x35, 0x42, 0x31, 0x31]                // 5B11
  }

  function GuidText(i: nat): (t: string)
    ensures |t| == 4
  {
    if i == 0 then "258E" else if i == 1 then "AFA5" else if i == 2 then "-E91" else if i == 3 then "4-47"
    else if i == 4 then "DA-9" else if i == 5 then "5CA-" else if i == 6 then "C5AB" else if i == 7 then "0DC8"
    else "5B11"
  }

  /** The parts are the ASCII codes of the text. */
  lemma GuidSpelled(i: nat, k: nat)
    requires i < 9 && k < 4
    ensures GuidText(i)[k] as int == GuidPart(i)[k] as int
  {
  }

  function GuidParts(n: nat): (g: seq<octet>)
    ensures |g| == 4 * n
  {
    if n == 0 then [] else GuidParts(n - 1) + GuidPart(n - 1)
  }

  function Guid(): (g: seq<octet>)
    ensures |g| == 36
  {
    GuidParts(9)
  }

  /** Section 4.2.2 of RFC 6455. */
  function AcceptKey(key: seq<octet>): string {
    Base64(Hash(key + Guid()))
  }

  // ---------------------------------------------------------------- what the source hashes

  /** The C string a buffer holds: everything before the first NUL. */
  function CString(s: seq<octet>): (c: seq<octet>)
    ensures c <= s && 0 !in c
    ensures |c| < |s| ==> s[|c|] == 0
  {
    if s == [] || s[0] == 0 then [] else [s[0]] + CString(s[1..])
  }

  /** What `strncpy` leaves in the first 24 octets of the zeroed input buffer. */
  function Normalize(key: seq<octet>): (k: seq<octet>)
    ensures |k| == 24
  {
    var c := CString(key);
    if |c| <= 24 then c + Zeros(24 - |c|) else c[..24]
  }

  /** A key is hashed as it stands exactly when it has 24 octets and NULs only at its end. */
  lemma NormalizeFixes(key: seq<octet>)
    ensures Normalize(key) == key <==> |key| == 24 && forall i, j | 0 <= i < j < 24 :: key[i] == 0 ==> key[j] == 0
  {
  }

  /** What is hashed, octet by octet: the key up to its first NUL, then zeros, 24 octets in all. */
  lemma NormalizeExactly(key: seq<octet>, i: nat)
    requires i < 24
    ensures Normalize(key)[i] == if i < |key| && 0 !in key[..i] then key[i] else 0
  {
    var c := CString(key);
    if i < |key| && i > |c| {
      assert key[..i][|c|] == 0;
    } else if i < |key| {
      assert key[..i] == c[..i];
    }
  }

  /** The four values of a base64 group are its 24 bits, six at a time. */
  lemma QuadBits(x: octet, y: octet, z: octet)
    ensures var g := Group(x, y, z);
      var high := ((Sextet(g, 0) as bv32) << 6) | (Sextet(g, 1) as bv32);
      var low := ((Sextet(g, 2) as bv32) << 6) | (Sextet(g, 3) as bv32);
      (high << 12) | low == ((x as bv32) << 16) | ((y as bv32) << 8) | (z as bv32)
  {
  }

  /** The initial hash value counts through the sixteen digits, up in two words and down in the next two. */
  lemma InitialDigits()
    ensures WordOctets(Initial().a) == [0x67, 0x45, 0x23, 0x01] && WordOctets(Initial().b) == [0xef, 0xcd, 0xab, 0x89]
    ensures Initial().c == !Initial().a && Initial().d == !Initial().b
    ensures WordOctets(Initial().e) == [0xc3, 0xd2, 0xe1, 0xf0]
  {
  }

  // ---------------------------------------------------------------- the two blocks

  /** The input and the constant fill one block up to its last word, so a second block follows. */
  lemma TwoBlocks(key: seq<octet>)
    requires |key| == 24
    ensures Pad(key + Guid()) == (key + Guid() + [0x80, 0, 0, 0]) + (Zeros(56) + BigEndian(480, 8))
  {
    hide Guid, BigEndian;
    assert (55 - 60) % 64 == 59;
    assert [0x80] + Zeros(59) == [0x80, 0, 0, 0] + Zeros(56);
  }

  lemma Lows()
    ensures Low(0) == 0 && Low(1) == 1 && Low(224) == 224
  {
  }

  lemma BitLength()
    ensures BigEndian(480, 8) == [0, 0, 0, 0, 0, 0, 1, 224]
  {
    hide Low;
    Lows();
    assert BigEndian(0, 6) == [0, 0, 0, 0, 0, 0];
    assert BigEndian(1, 7) == BigEndian(0, 6) + [1];
  }

  lemma ProcessOne(h: Registers, block: seq<octet>, rest: seq<octet>)
    requires |block| == 64
    ensures Process(h, block + rest) == Process(Compress(h, WordsOf(block)), rest)
  {
  }

  lemma ProcessTwo(h: Registers, first: seq<octet>, second: seq<octet>)
    requires |first| == |second| == 64
    ensures Process(h, first + second) == Compress(Compress(h, WordsOf(first)), WordsOf(second))
  {
    hide Compress, WordsOf;
    ProcessOne(h, first, second);
    ProcessOne(Compress(h, WordsOf(first)), second, []);
    assert second + [] == second;
  }

  /** The nine words of the constant, as the source writes them. */
  function GuidWord(i: nat): word {
    if i == 0 then 0x32353845 else if i == 1 then 0x41464135 else if i == 2 then 0x2d453931
    else if i == 3 then 0x342d3437 else if i == 4 then 0x44412d39 else if i == 5 then 0x3543412d
    else if i == 6 then 0x43354142 else if i == 7 then 0x30444338 else 0x35423131
  }

  lemma {:induction false} PartAt(n: nat, i: nat, k: nat)
    requires i < n && k < 4
    ensures GuidParts(n)[4 * i + k] == GuidPart(i)[k]
  {
    hide GuidPart;
    if i < n - 1 {
      PartAt(n - 1, i, k);
    }
  }

  lemma PartWord(i: nat)
    requires i < 9
    ensures WordAt(GuidPart(i), 0) == GuidWord(i)
  {
  }

  lemma GuidWords(i: nat)
    requires i < 9
    ensures WordAt(Guid(), i) == GuidWord(i)
  {
    hide GuidPart, GuidParts, GuidWord, Word;
    PartAt(9, i, 0);
    PartAt(9, i, 1);
    PartAt(9, i, 2);
    PartAt(9, i, 3);
    PartWord(i);
  }

  /** The words of the first block: six of the input, nine of the constant, and the one bit. */
  lemma FirstBlock(key: seq<octet>, i: nat)
    requires |key| == 24 && i < 16
    ensures WordAt(key + Guid() + [0x80, 0, 0, 0], i) ==
      if i < 6 then WordAt(key, i) else if i < 15 then GuidWord(i - 6) else 0x80000000
  {
    hide Guid, GuidWord, Word;
    var block := key + Guid() + [0x80, 0, 0, 0];
    if i < 6 {
    } else if i < 15 {
      GuidWords(i - 6);
    } else {
      EndWord();
    }
  }

  lemma EndWord()
    ensures Word(0x80, 0, 0, 0) == 0x80000000 && Word(0, 0, 1, 224) == 480 && Word(0, 0, 0, 0) == 0
  {
  }

  lemma SecondBlock(i: nat)
    requires i < 16
    ensures WordAt(Zeros(56) + BigEndian(480, 8), i) == if i < 15 then 0 else 480
  {
    hide BigEndian, Word;
    BitLength();
    EndWord();
  }

  // ---------------------------------------------------------------- the code

  /** The source's table of characters, eight at a time. */
  function TablePart(k: nat): (t: string)
    ensures |t| == 8
  {
    if k == 0 then "ABCDEFGH" else if k == 1 then "IJKLMNOP" else if k == 2 then "QRSTUVWX"
    else if k == 3 then "YZabcdef" else if k == 4 then "ghijklmn" else if k == 5 then "opqrstuv"
    else if k == 6 then "wxyz0123" else "456789+/"
  }

  lemma PartIsLetters(k: nat, i: nat)
    requires k < 8 && i < 8
    ensures TablePart(k)[i] == Letter(8 * k + i)
  {
    assert k == 0 || k == 1 || k == 2 || k == 3 || k == 4 || k == 5 || k == 6 || k == 7;
  }

  function Table(n: nat): (c: char)
    requires n < 64
    ensures c == Letter(n)
  {
    PartIsLetters(n / 8, n % 8);
    TablePart(n / 8)[n % 8]
  }

  /** The source's expressions for the four values of a group. */
  function Bits0(x: octet): octet { (x >> 2) & 63 }
  function Bits1(x: octet, y: octet): octet { ((x & 3) << 4) | ((y & 240) >> 4) }
  function Bits2(y: octet, z: octet): octet { ((y & 15) << 2) | ((z & 192) >> 6) }
  function Bits3(z: octet): octet { z & 63 }

  lemma SameSextets(x: octet, y: octet, z: octet)
    ensures Bits0(x) < 64 && Bits1(x, y) < 64 && Bits2(y, z) < 64 && Bits3(z) < 64
    ensures var g := Group(x, y, z);
      Bits0(x) == Sextet(g, 0) && Bits1(x, y) == Sextet(g, 1) && Bits2(y, z) == Sextet(g, 2) && Bits3(z) == Sextet(g, 3)
  {
  }

  /** Four characters, written from `at` on. */
  method WriteFour(a: char, b: char, c: char, d: char, dst: array<char>, at: nat)
    requires at + 4 <= dst.Length
    modifies dst
    ensures dst[..] == old(dst[..at]) + [a, b, c, d] + old(dst[at + 4..])
  {
    dst[at] := a;
    dst[at + 1] := b;
    dst[at + 2] := c;
    dst[at + 3] := d;
  }

  /** The four characters of one whole group. */
  method WriteGroup(x: octet, y: octet, z: octet, dst: array<char>, at: nat)
    requires at + 4 <= dst.Length
    modifies dst
    ensures dst[..] == old(dst[..at]) + Quad(x, y, z) + old(dst[at + 4..])
  {
    hide Letter, Table, TablePart, Group, Sextet, Bits0, Bits1, Bits2, Bits3;
    SameSextets(x, y, z);
    WriteFour(Table(Bits0(x) as nat), Table(Bits1(x, y) as nat), Table(Bits2(y, z) as nat), Table(Bits3(z) as nat),
              dst, at);
  }

  /** The three characters of the last pair and the padding. */
  method WritePair(x: octet, y: octet, dst: array<char>)
    requires dst.Length >= 28
    modifies dst
    ensures Bits0(x) < 64 && Bits1(x, y) < 64 && Bits2(y, 0) < 64
    ensures dst[..] == old(dst[..24])
      + [Letter(Bits0(x) as nat), Letter(Bits1(x, y) as nat), Letter(Bits2(y, 0) as nat), '=']
      + old(dst[28..])
  {
    hide Letter, Table, TablePart, Group, Sextet, Bits0, Bits1, Bits2, Bits3;
    SameSextets(x, y, 0);
    WriteFour(Table(Bits0(x) as nat), Table(Bits1(x, y) as nat), Table(Bits2(y, 0) as nat), '=', dst, 24);
  }

  lemma {:induction false} Base64Append(data: seq<octet>, x: octet, y: octet, z: octet, rest: seq<octet>)
    requires |data| % 3 == 0
    ensures Base64(data + [x, y, z] + rest) == Base64(data) + Quad(x, y, z) + Base64(rest)
    decreases |data|
  {
    hide Quad;
    var whole := data + [x, y, z] + rest;
    if |data| == 0 {
      assert whole[3..] == rest;
    } else {
      assert whole[3..] == data[3..] + [x, y, z] + rest;
      Base64Append(data[3..], x, y, z, rest);
    }
  }

  /** Encode the twenty octets of a digest. */
  method EncodeDigest(src: seq<octet>, dst: array<char>)
    requires |src| == 20 && dst.Length >= 28
    modifies dst
    ensures dst[..28] == Base64(src) && dst[28..] == old(dst[28..])
  {
    hide Quad, Base64, Letter, Table, TablePart, Group, Sextet, Bits0, Bits1, Bits2, Bits3;
    var i, at := 0, 0;
    EncodeNothing();
    while i < 18
      invariant 0 <= i <= 18 && i % 3 == 0 && 3 * at == 4 * i
      invariant dst[..at] == Base64(src[..i])
      invariant dst[28..] == old(dst[28..])
    {
      ghost var before := dst[..at];
      WriteGroup(src[i], src[i + 1], src[i + 2], dst, at);
      assert dst[..at + 4] == before + Quad(src[i], src[i + 1], src[i + 2]);
      Base64Append(src[..i], src[i], src[i + 1], src[i + 2], []);
      EncodeNothing();
      assert src[..i] + [src[i], src[i + 1], src[i + 2]] + [] == src[..i + 3];
      assert Base64(src[..i]) + Quad(src[i], src[i + 1], src[i + 2]) + Base64([]) == dst[..at + 4];
      i, at := i + 3, at + 4;
    }
    LastGroup(src);
    ghost var before := dst[..24];
    WritePair(src[18], src[19], dst);
    assert dst[..28] == before + [Letter(Bits0(src[18]) as nat), Letter(Bits1(src[18], src[19]) as nat),
                                  Letter(Bits2(src[19], 0) as nat), '='];
  }

  lemma EncodeNothing()
    ensures Base64([]) == []
  {
  }

  lemma LastGroup(src: seq<octet>)
    requires |src| == 20
    ensures Bits0(src[18]) < 64 && Bits1(src[18], src[19]) < 64 && Bits2(src[19], 0) < 64
    ensures Base64(src) == Base64(src[..18])
      + [Letter(Bits0(src[18]) as nat), Letter(Bits1(src[18], src[19]) as nat), Letter(Bits2(src[19], 0) as nat), '=']
  {
    hide Letter, Base64, Bits0, Bits1, Bits2;
    LastPair(src[18], src[19]);
    var last := [src[18], src[19]];
    assert src == src[..15] + [src[15], src[16], src[17]] + last;
    assert src[..18] == src[..15] + [src[15], src[16], src[17]] + [];
    Base64Append(src[..15], src[15], src[16], src[17], last);
    Base64Append(src[..15], src[15], src[16], src[17], []);
    EncodeNothing();
  }

  lemma LastPair(x: octet, y: octet)
    ensures Bits0(x) < 64 && Bits1(x, y) < 64 && Bits2(y, 0) < 64
    ensures Base64([x, y]) == [Letter(Bits0(x) as nat), Letter(Bits1(x, y) as nat), Letter(Bits2(y, 0) as nat), '=']
  {
  }

  // ---------------------------------------------------------------- generate

  /** The first block as the source builds it. */
  method InputBlock(input: seq<octet>) returns (b: array<word>)
    requires |input| == 24
    ensures fresh(b) && b.Length == 16
    ensures b[..] == WordsOf(input + Guid() + [0x80, 0, 0, 0])
  {
    hide Guid, GuidWord, Word;
    b := new word[16](i => if 6 <= i < 15 then GuidWord(i - 6) else if i == 15 then 0x80000000 else 0);
    for i := 0 to 6
      invariant forall j | 0 <= j < i :: b[j] == WordAt(input, j)
      invariant forall j | 6 <= j < 16 :: b[j] == if j < 15 then GuidWord(j - 6) else 0x80000000
    {
      b[i] := WordAt(input, i);
    }
    ghost var words := WordsOf(input + Guid() + [0x80, 0, 0, 0]);
    forall j | 0 <= j < 16 ensures b[j] == words[j] {
      FirstBlock(input, j);
    }
  }

  method LastBlock() returns (b: array<word>)
    ensures fresh(b) && b.Length == 16
    ensures b[..] == WordsOf(Zeros(56) + BigEndian(480, 8))
  {
    hide BigEndian, Word;
    b := new word[16](i => if i == 15 then 480 else 0);
    forall j | 0 <= j < 16 ensures b[j] == WordsOf(Zeros(56) + BigEndian(480, 8))[j] {
      SecondBlock(j);
    }
  }

  /** The hash value as big-endian octets. */
  method DigestOctets(hash: array<word>) returns (o: seq<octet>)
    requires hash.Length == 5
    ensures o == Digest(HashValue(hash[..]))
  {
    hide WordOctets;
    o := [];
    for i := 0 to 5
      invariant o == WordsOctets(hash[..i])
    {
      o := o + WordOctets(hash[i]);
      assert hash[..i + 1][..i] == hash[..i];
    }
    assert hash[..5] == [hash[0], hash[1], hash[2], hash[3], hash[4]];
  }

  /** The source's `generate`: the accept key of what `strncpy` keeps of the client's key. */
  method Generate(key: seq<octet>, output: array<char>)
    requires output.Length >= 28
    modifies output
    ensures output[..28] == AcceptKey(Normalize(key))
    ensures output[28..] == old(output[28..])
  {
    hide Normalize, Pad, Process, Digest, Base64, WordsOf, Guid, Compress, BigEndian;
    var input := Normalize(key);
    var hash := new word[5][0x67452301, 0xefcdab89, 0x98badcfe, 0x10325476, 0xc3d2e1f0];
    var b := InputBlock(input);
    Sha1Block(hash, b);
    var last := LastBlock();
    Sha1Block(hash, last);
    TwoBlocks(input);
    ProcessTwo(Initial(), input + Guid() + [0x80, 0, 0, 0], Zeros(56) + BigEndian(480, 8));
    var digest := DigestOctets(hash);
    EncodeDigest(digest, output);
  }
}
