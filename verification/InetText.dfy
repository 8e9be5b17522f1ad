/**
  The address texts of `inet_pton` and `inet_ntop`: numerals, dotted quads, and the text forms of
  section 2.2 of RFC 4291 with one run of zero groups written `::`. A text is a C string without
  its terminator.
 */
module InetText {
  import opened Wrappers
  import opened Bytes
  import opened Numerals

  // ---------------------------------------------------------------- dotted quads

  /** Octets as decimal numerals with dots between them. */
  function Dotted(a: bytes): string {
    if a == [] then [] else if |a| == 1 then Numeral(Decimal, a[0])
    else Numeral(Decimal, a[0]) + "." + Dotted(a[1..])
  }

  /** The `AF_INET` loop of `inet_pton`, from octet `i` on. */
  function ParseOctets(i: nat, s: string): Option<bytes>
    requires i < 4
    decreases 4 - i
  {
    var j := Run(Decimal, s, 3);
    if j == 0 || (j > 1 && s[0] == '0') || Value(Decimal, s[..j]) > 255 then None
    else
      var v := Value(Decimal, s[..j]);
      if j == |s| && i == 3 then Some([v])
      else if j == |s| || s[j] != '.' || i == 3 then None
      else Prefixed([v], ParseOctets(i + 1, s[j + 1..]))
  }

  function Prefixed(done: bytes, r: Option<bytes>): Option<bytes> {
    match r
    case None => None
    case Some(rest) => Some(done + rest)
  }

  lemma PrefixedNothing(r: Option<bytes>)
    ensures Prefixed([], r) == r
  {
    assert r.Some? ==> [] + r.value == r.value;
  }

  lemma PrefixedMore(done: bytes, v: byte, r: Option<bytes>)
    ensures Prefixed(done, Prefixed([v], r)) == Prefixed(done + [v], r)
  {
    assert r.Some? ==> done + ([v] + r.value) == done + [v] + r.value;
  }

  function ParseV4(s: string): Option<bytes> {
    ParseOctets(0, s)
  }

  lemma {:induction false} OctetsSound(i: nat, s: string)
    requires i < 4 && ParseOctets(i, s).Some?
    ensures var a := ParseOctets(i, s).value; |a| == 4 - i && s == Dotted(a)
    decreases 4 - i
  {
    hide DigitVal, Value, Numeral, Run;
    var j := Run(Decimal, s, 3);
    DecimalCanonical(s[..j]);
    if j < |s| {
      OctetsSound(i + 1, s[j + 1..]);
      assert s == s[..j] + "." + s[j + 1..];
    }
  }

  /** The parser's step on the numeral of an octet with nothing or a dot behind it. */
  lemma OctetTaken(i: nat, v: byte, rest: string)
    requires i < 4 && (rest == [] || rest[0] == '.')
    ensures ParseOctets(i, Numeral(Decimal, v) + rest) ==
      if (rest == []) != (i == 3) then None
      else if i == 3 then Some([v])
      else Prefixed([v], ParseOctets(i + 1, rest[1..]))
  {
    hide Value, Numeral, Run;
    var t := Numeral(Decimal, v);
    NumeralTaken(v, rest);
    assert rest != [] ==> (t + rest)[|t|] == rest[0] && (t + rest)[|t| + 1..] == rest[1..];
  }

  lemma NumeralTaken(v: byte, rest: string)
    requires rest == [] || rest[0] == '.'
    ensures var t := Numeral(Decimal, v);
      var s := t + rest;
      && 1 <= |t| <= 3 && Run(Decimal, s, 3) == |t| && s[..|t|] == t && Digits(Decimal, t) && Value(Decimal, t) == v
      && (|t| > 1 ==> s[0] != '0')
  {
    hide Value, Numeral, Run, DigitVal;
    var t := Numeral(Decimal, v);
    NumeralValue(Decimal, v);
    NumeralShort(Decimal, v);
    NumeralStart(Decimal, v);
    DotIsNoDigit();
    RunTakes(Decimal, t, rest, 3);
    assert (t + rest)[0] == t[0];
  }

  lemma DotIsNoDigit()
    ensures DigitVal(Decimal, '.') < 0
  {
  }

  lemma {:induction false} OctetsComplete(i: nat, a: bytes)
    requires i < 4 && |a| == 4 - i
    ensures ParseOctets(i, Dotted(a)) == Some(a)
    decreases 4 - i
  {
    hide ParseOctets, Numeral;
    var t := Numeral(Decimal, a[0]);
    if i == 3 {
      OctetTaken(i, a[0], "");
      assert a == [a[0]] && t + "" == t;
    } else {
      var rest := "." + Dotted(a[1..]);
      OctetTaken(i, a[0], rest);
      OctetsComplete(i + 1, a[1..]);
      assert Dotted(a) == t + rest && rest[1..] == Dotted(a[1..]);
      assert a == [a[0]] + a[1..];
    }
  }

  lemma ExampleNumerals()
    ensures Numeral(Decimal, 192) == "192" && Numeral(Decimal, 0) == "0"
    ensures Numeral(Decimal, 2) == "2" && Numeral(Decimal, 255) == "255"
  {
    assert Numeral(Decimal, 19) == "19" && Numeral(Decimal, 25) == "25";
  }

  lemma ExampleQuad()
    ensures Dotted([192, 0, 2, 255]) == "192.0.2.255"
  {
    hide Numeral;
    ExampleNumerals();
    var a: bytes := [192, 0, 2, 255];
    assert a[1..] == [0, 2, 255] && a[1..][1..] == [2, 255] && a[1..][1..][1..] == [255];
    assert Dotted([2, 255]) == "2.255";
    assert Dotted([0, 2, 255]) == "0.2.255";
  }

  /** The parser accepts exactly the dotted quads, each as the four octets it prints. */
  lemma V4Exact(s: string, a: bytes)
    ensures ParseV4(s) == Some(a) <==> |a| == 4 && s == Dotted(a)
  {
    if ParseV4(s) == Some(a) {
      OctetsSound(0, s);
    }
    if |a| == 4 {
      OctetsComplete(0, a);
    }
  }

  /** `inet_pton` for `AF_INET`, writing to `a` from `at` on. */
  method PtonV4(text: string, a: array<byte>, at: nat) returns (ok: bool)
    requires at + 4 <= a.Length
    modifies a
    ensures ok == ParseV4(text).Some?
    ensures ok ==> a[at..at + 4] == ParseV4(text).value
    ensures a[..at] == old(a[..at]) && a[at + 4..] == old(a[at + 4..])
  {
    hide Value, Run;
    var s := text;
    PrefixedNothing(ParseV4(text));
    assert a[at..at] == [];
    for i := 0 to 4
      invariant i < 4 ==> ParseV4(text) == Prefixed(a[at..at + i], ParseOctets(i, s))
      invariant i == 4 ==> ParseV4(text) == None
      invariant a[..at] == old(a[..at]) && a[at + 4..] == old(a[at + 4..])
    {
      var v, j := ReadNumber(Decimal, s, 3);
      if j == 0 || (j > 1 && s[0] == '0') || v > 255 {
        return false;
      }
      ghost var done := a[at..at + i];
      a[at + i] := v;
      assert a[at..at + i + 1] == done + [v];
      if i < 3 && j < |s| {
        PrefixedMore(done, v, ParseOctets(i + 1, s[j + 1..]));
      }
      if j == |s| && i == 3 {
        return true;
      }
      if j == |s| || s[j] != '.' {
        return false;
      }
      s := s[j + 1..];
    }
    return false;
  }
}
