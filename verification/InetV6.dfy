/** The IPv6 side of `inet_pton`: the parser accepts exactly the text forms of RFC 4291. */
module InetV6 {
  import opened Wrappers
  import opened Bytes
  import opened Numerals
  import opened InetText

  type group = x: int | 0 <= x < 65536

  // ---------------------------------------------------------------- text forms

  /** One piece between colons: up to four hexadecimal digits, or a dotted quad in the last place. */
  datatype Item = Group(text: string) | Quad(octets: bytes)

  predicate GroupText(t: string) {
    1 <= |t| <= 4 && Digits(Hexadecimal, t)
  }

  predicate IsItem(x: Item) {
    match x
    case Group(t) => GroupText(t)
    case Quad(o) => |o| == 4
  }

  predicate Items(xs: seq<Item>) {
    forall i | 0 <= i < |xs| :: IsItem(xs[i]) && (xs[i].Quad? ==> i == |xs| - 1)
  }

  function Text(x: Item): string {
    match x
    case Group(t) => t
    case Quad(o) => Dotted(o)
  }

  function GroupValue(t: string): group
    requires |t| <= 4 && Digits(Hexadecimal, t)
  {
    FourDigits(t);
    Value(Hexadecimal, t)
  }

  lemma FourDigits(t: string)
    requires |t| <= 4 && Digits(Hexadecimal, t)
    ensures Value(Hexadecimal, t) < 65536
  {
    hide DigitVal;
    var n := |t|;
    if n > 0 { assert Value(Hexadecimal, t[..1]) < 16 by { assert t[..1][..0] == []; } }
    if n > 1 { assert Value(Hexadecimal, t[..2]) < 256 by { assert t[..2][..1] == t[..1]; } }
    if n > 2 { assert Value(Hexadecimal, t[..3]) < 4096 by { assert t[..3][..2] == t[..2]; } }
    if n > 3 { assert Value(Hexadecimal, t[..4]) < 65536 by { assert t[..4][..3] == t[..3]; } }
    assert t[..n] == t;
  }

  function Pair(x: int, y: int): group
    requires 0 <= x < 256 && 0 <= y < 256
  {
    256 * x + y
  }

  function QuadGroups(o: bytes): seq<group>
    requires |o| == 4
  {
    [Pair(o[0], o[1]), Pair(o[2], o[3])]
  }

  function ItemGroups(x: Item): (g: seq<group>)
    requires IsItem(x)
    ensures |g| == if x.Group? then 1 else 2
  {
    match x
    case Group(t) => [GroupValue(t)]
    case Quad(o) => QuadGroups(o)
  }

  /** The groups a colon-separated list stands for. */
  function Groups(xs: seq<Item>): (g: seq<group>)
    requires Items(xs)
    ensures |g| >= |xs|
    ensures (forall x | x in xs :: x.Group?) ==> |g| == |xs|
  {
    if xs == [] then [] else ItemGroups(xs[0]) + Groups(xs[1..])
  }

  function Join(xs: seq<Item>): string {
    if xs == [] then [] else if |xs| == 1 then Text(xs[0]) else Text(xs[0]) + ":" + Join(xs[1..])
  }

  function Zeros(n: nat): (z: seq<group>)
    ensures |z| == n && forall i | 0 <= i < n :: z[i] == 0
  {
    seq(n, _ => 0)
  }

  /** A list of items, or two with a gap of one or more zero groups between them. */
  datatype Form = Form(left: seq<Item>, gap: bool, right: seq<Item>)

  predicate AllGroups(xs: seq<Item>) {
    forall x | x in xs :: x.Group?
  }

  predicate WellFormed(f: Form) {
    && Items(f.left) && Items(f.right)
    && if f.gap then AllGroups(f.left) && |f.left| + |Groups(f.right)| <= 7
       else f.right == [] && |Groups(f.left)| == 8
  }

  function Spell(f: Form): string {
    if f.gap then Join(f.left) + "::" + Join(f.right) else Join(f.left)
  }

  function Denotes(f: Form): (g: seq<group>)
    requires WellFormed(f)
    ensures |g| == 8
  {
    if f.gap then Groups(f.left) + Zeros(8 - |f.left| - |Groups(f.right)|) + Groups(f.right)
    else Groups(f.left)
  }

  // ---------------------------------------------------------------- the parser

  /** The groups read, one zero standing in for the gap, and the gap's place or -1. */
  datatype Scanned = Scanned(groups: seq<group>, gap: int)

  /** The `AF_INET6` loop of `inet_pton`, with the groups read so far. */
  function Scan(ip: seq<group>, brk: int, s: string): (r: Option<Scanned>)
    requires |ip| <= 7 && -1 <= brk < |ip|
    ensures r.Some? ==>
      && |r.value.groups| <= 8 && -1 <= r.value.gap < |r.value.groups|
      && (r.value.gap < 0 ==> |r.value.groups| == 8)
    decreases 8 - |ip|
  {
    var i := |ip|;
    if s != [] && s[0] == ':' && brk < 0 then
      if |s| == 1 then Some(Scanned(ip + [0], i))
      else if i == 7 then None
      else Scan(ip + [0], i, s[1..])
    else
      var j := Run(Hexadecimal, s, 4);
      if j == 0 then None
      else
        var v := GroupValue(s[..j]);
        if j == |s| && (brk >= 0 || i == 7) then Some(Scanned(ip + [v], brk))
        else if i == 7 || j == |s| then None
        else if s[j] == ':' then Scan(ip + [v], brk, s[j + 1..])
        else if s[j] != '.' || (i < 6 && brk < 0) then None
        else WithQuad(ip, brk, ParseV4(s))
  }

  function WithQuad(ip: seq<group>, brk: int, o: Option<bytes>): Option<Scanned> {
    if o.Some? && |o.value| == 4 then Some(Scanned(ip + QuadGroups(o.value), brk)) else None
  }

  /** The re-expansion of the gap. */
  function Expand(r: Scanned): (g: seq<group>)
    requires |r.groups| <= 8 && -1 <= r.gap < |r.groups| && (r.gap < 0 ==> |r.groups| == 8)
    ensures |g| == 8
  {
    if r.gap < 0 then r.groups
    else r.groups[..r.gap] + Zeros(8 - |r.groups|) + r.groups[r.gap..]
  }

  /** A text that starts with a colon must start with two, and is read from the second. */
  function Begin(s: string): Option<string> {
    if s == [] || s[0] != ':' then Some(s) else if |s| > 1 && s[1] == ':' then Some(s[1..]) else None
  }

  function ParseV6(s: string): Option<seq<group>> {
    match Begin(s)
    case None => None
    case Some(t) =>
      match Scan([], -1, t)
      case None => None
      case Some(r) => Some(Expand(r))
  }

  // ---------------------------------------------------------------- every text form is accepted

  lemma ColonIsNoDigit()
    ensures DigitVal(Hexadecimal, ':') < 0 && DigitVal(Hexadecimal, '.') < 0
  {
  }

  /** What follows a group that starts the rest of the text. */
  lemma ReadsGroup(t: string, rest: string)
    requires GroupText(t) && (rest != [] ==> rest[0] == ':' || rest[0] == '.')
    ensures Run(Hexadecimal, t + rest, 4) == |t| && (t + rest)[..|t|] == t && (t + rest)[|t|..] == rest
    ensures t[0] != ':'
  {
    hide DigitVal;
    ColonIsNoDigit();
    RunTakes(Hexadecimal, t, rest, 4);
    assert DigitVal(Hexadecimal, t[0]) >= 0;
  }

  lemma ReadsQuad(o: bytes)
    requires |o| == 4
    ensures var s := Dotted(o); var j := Run(Hexadecimal, s, 4);
      1 <= j < |s| && s[j] == '.' && s[0] != ':' && ParseV4(s) == Some(o)
  {
    hide Run, DigitVal, ParseV4, Numeral;
    var t := Numeral(Decimal, o[0]);
    NumeralValue(Decimal, o[0]);
    NumeralShort(Decimal, o[0]);
    forall i | 0 <= i < |t| ensures DigitVal(Hexadecimal, t[i]) >= 0 {
      DecimalBack(t[i]);
    }
    ReadsGroup(t, "." + Dotted(o[1..]));
    assert Dotted(o) == t + ("." + Dotted(o[1..]));
    V4Exact(Dotted(o), o);
  }

  lemma ScanColon(ip: seq<group>, rest: string)
    requires |ip| <= 7 && (rest != [] ==> |ip| <= 6)
    ensures Scan(ip, -1, ":" + rest) ==
      if rest == [] then Some(Scanned(ip + [0], |ip|)) else Scan(ip + [0], |ip|, rest)
  {
  }

  lemma ScanGroup(ip: seq<group>, brk: int, t: string, rest: string)
    requires |ip| <= 6 && -1 <= brk < |ip| && GroupText(t)
    ensures Scan(ip, brk, t + (":" + rest)) == Scan(ip + [GroupValue(t)], brk, rest)
  {
    hide Run, GroupValue, ParseV4, QuadGroups, Digits;
    var s := t + (":" + rest);
    ReadsGroup(t, ":" + rest);
    assert s[0] == t[0] && s[|t|] == ':' && s[|t| + 1..] == rest;
  }

  lemma ScanLastGroup(ip: seq<group>, brk: int, t: string)
    requires |ip| <= 7 && -1 <= brk < |ip| && GroupText(t) && (brk >= 0 || |ip| == 7)
    ensures Scan(ip, brk, t) == Some(Scanned(ip + [GroupValue(t)], brk))
  {
    hide Run, GroupValue, ParseV4, QuadGroups, Digits;
    ReadsGroup(t, "");
    assert t + "" == t;
  }

  lemma ScanQuad(ip: seq<group>, brk: int, o: bytes)
    requires |ip| <= 6 && -1 <= brk < |ip| && |o| == 4 && (brk >= 0 || |ip| == 6)
    ensures Scan(ip, brk, Dotted(o)) == Some(Scanned(ip + QuadGroups(o), brk))
  {
    hide Run, GroupValue, ParseV4, QuadGroups, Digits, Dotted;
    ReadsQuad(o);
  }

  lemma GroupsOne(x: Item)
    requires IsItem(x)
    ensures Items([x]) && Groups([x]) == ItemGroups(x) && Join([x]) == Text(x)
  {
  }

  lemma GroupsMore(ip: seq<group>, xs: seq<Item>)
    requires Items(xs) && xs != [] && xs[0].Group?
    ensures GroupText(xs[0].text) && Items(xs[1..]) && |Groups(xs)| == 1 + |Groups(xs[1..])|
    ensures ip + Groups(xs) == ip + [GroupValue(xs[0].text)] + Groups(xs[1..])
    ensures AllGroups(xs) ==> AllGroups(xs[1..])
  {
  }

  lemma JoinMore(xs: seq<Item>)
    requires |xs| > 1
    ensures Join(xs) == Text(xs[0]) + (":" + Join(xs[1..]))
  {
  }

  lemma {:induction false} RunParses(ip: seq<group>, brk: int, xs: seq<Item>)
    requires |ip| <= 7 && -1 <= brk < |ip| && Items(xs) && xs != []
    requires |ip| + |Groups(xs)| <= 8 && (brk < 0 ==> |ip| + |Groups(xs)| == 8)
    ensures Scan(ip, brk, Join(xs)) == Some(Scanned(ip + Groups(xs), brk))
    decreases |xs|
  {
    hide Scan, GroupValue, QuadGroups, Dotted, Digits, Groups, Join;
    var x := xs[0];
    if |xs| == 1 {
      assert xs == [x];
      GroupsOne(x);
      if x.Quad? {
        ScanQuad(ip, brk, x.octets);
      } else {
        ScanLastGroup(ip, brk, x.text);
      }
    } else {
      assert x.Group?;
      GroupsMore(ip, xs);
      JoinMore(xs);
      ScanGroup(ip, brk, x.text, Join(xs[1..]));
      RunParses(ip + [GroupValue(x.text)], brk, xs[1..]);
    }
  }

  /** What is left to read before the gap is seen: its first colon is already consumed. */
  function UpToGap(left: seq<Item>, right: seq<Item>): string {
    if left == [] then ":" + Join(right) else Join(left) + "::" + Join(right)
  }

  lemma UpToGapStep(left: seq<Item>, right: seq<Item>)
    requires left != []
    ensures UpToGap(left, right) == Text(left[0]) + (":" + UpToGap(left[1..], right))
  {
  }

  lemma JoinAlone(x: Item)
    ensures Join([x]) == Text(x)
  {
  }

  lemma {:induction false} GapParses(ip: seq<group>, left: seq<Item>, right: seq<Item>)
    requires Items(left) && AllGroups(left) && Items(right)
    requires |ip| + |left| + 1 + |Groups(right)| <= 8
    ensures Scan(ip, -1, UpToGap(left, right)) ==
      Some(Scanned(ip + Groups(left) + [0] + Groups(right), |ip| + |left|))
    decreases |left|
  {
    hide Scan, GroupValue, QuadGroups, Digits, Join, Groups;
    if left == [] {
      JoinNothing();
      ScanColon(ip, Join(right));
      assert ip + Groups(left) == ip;
      if right == [] {
        assert ip + [0] + Groups(right) == ip + [0];
      } else {
        JoinSome(right);
        RunParses(ip + [0], |ip|, right);
      }
    } else {
      var t := left[0].text;
      GroupsMore(ip, left);
      UpToGapStep(left, right);
      ScanGroup(ip, -1, t, UpToGap(left[1..], right));
      GapParses(ip + [GroupValue(t)], left[1..], right);
    }
  }

  lemma JoinNothing()
    ensures Join([]) == [] && Groups([]) == []
  {
  }

  lemma JoinSome(xs: seq<Item>)
    requires Items(xs) && xs != []
    ensures Join(xs) != [] && Join(xs)[0] != ':'
  {
    hide DigitVal, Run, ParseV4;
    match xs[0]
    case Group(t) =>
      assert IsItem(xs[0]);
      ReadsGroup(t, "");
      assert Join(xs)[0] == t[0];
    case Quad(o) =>
      assert IsItem(xs[0]);
      ReadsQuad(o);
  }

  // ---------------------------------------------------------------- only text forms are accepted

  /** A text read after the gap, or without one. */
  ghost predicate ReadRun(ip: seq<group>, brk: int, s: string, xs: seq<Item>) {
    && |ip| <= 7 && -1 <= brk < |ip|
    && Items(xs) && xs != [] && s == Join(xs)
    && |ip| + |Groups(xs)| <= 8 && (brk < 0 ==> |ip| + |Groups(xs)| == 8)
  }

  /** A text read up to the gap and beyond. */
  ghost predicate ReadGap(ip: seq<group>, brk: int, s: string, left: seq<Item>, right: seq<Item>) {
    && brk < 0 && Items(left) && AllGroups(left) && Items(right) && s == UpToGap(left, right)
    && |ip| + |left| + 1 + |Groups(right)| <= 8
  }

  lemma RunPrepend(ip: seq<group>, brk: int, t: string, s: string, xs: seq<Item>)
    requires GroupText(t) && ReadRun(ip + [GroupValue(t)], brk, s, xs) && brk < |ip|
    ensures ReadRun(ip, brk, t + (":" + s), [Group(t)] + xs)
  {
  }

  lemma GapPrepend(ip: seq<group>, brk: int, t: string, s: string, left: seq<Item>, right: seq<Item>)
    requires GroupText(t) && ReadGap(ip + [GroupValue(t)], brk, s, left, right)
    ensures ReadGap(ip, brk, t + (":" + s), [Group(t)] + left, right)
  {
    hide GroupValue, Digits, Groups, Join, UpToGap;
    var all := [Group(t)] + left;
    assert all[1..] == left;
    assert IsItem(all[0]);
    assert Items(all);
    UpToGapStep(all, right);
  }

  lemma GapHere(ip: seq<group>, s: string, right: seq<Item>)
    requires |ip| <= 7 && s != [] && s[0] == ':'
    requires if |s| == 1 then right == [] else ReadRun(ip + [0], |ip|, s[1..], right)
    ensures ReadGap(ip, -1, s, [], right)
  {
  }

  lemma LastGroupRead(ip: seq<group>, brk: int, t: string)
    requires |ip| <= 7 && -1 <= brk < |ip| && GroupText(t) && (brk >= 0 || |ip| == 7)
    ensures ReadRun(ip, brk, t, [Group(t)])
  {
  }

  lemma QuadRead(ip: seq<group>, brk: int, s: string, o: bytes)
    requires |ip| <= 6 && -1 <= brk < |ip| && ParseV4(s) == Some(o) && (brk >= 0 || |ip| == 6)
    ensures |o| == 4 && ReadRun(ip, brk, s, [Quad(o)])
  {
    hide Groups, Join, ParseV4, QuadGroups;
    V4Exact(s, o);
    GroupsOne(Quad(o));
  }

  lemma {:induction false} ScanSound(ip: seq<group>, brk: int, s: string)
      returns (left: seq<Item>, gap: bool, right: seq<Item>)
    requires |ip| <= 7 && -1 <= brk < |ip| && Scan(ip, brk, s).Some?
    ensures if gap then ReadGap(ip, brk, s, left, right) else ReadRun(ip, brk, s, left)
    ensures brk >= 0 ==> !gap
    decreases 8 - |ip|
  {
    hide Run, GroupValue, ParseV4, QuadGroups, Digits, ReadRun, ReadGap;
    var i := |ip|;
    if s != [] && s[0] == ':' && brk < 0 {
      if |s| == 1 {
        left, gap, right := [], true, [];
      } else {
        left, gap, right := ScanSound(ip + [0], i, s[1..]);
        left, gap, right := [], true, left;
      }
      GapHere(ip, s, right);
    } else {
      var j := Run(Hexadecimal, s, 4);
      var t := s[..j];
      if j == |s| {
        assert t == s;
        LastGroupRead(ip, brk, t);
        left, gap, right := [Group(t)], false, [];
      } else if s[j] == ':' {
        var rest := s[j + 1..];
        assert s == t + (":" + rest);
        left, gap, right := ScanSound(ip + [GroupValue(t)], brk, rest);
        if gap {
          GapPrepend(ip, brk, t, rest, left, right);
        } else {
          RunPrepend(ip, brk, t, rest, left);
        }
        left := [Group(t)] + left;
      } else {
        left, gap, right := [Quad(ParseV4(s).value)], false, [];
        QuadRead(ip, brk, s, ParseV4(s).value);
      }
    }
  }

  lemma SpellBegins(f: Form)
    requires WellFormed(f)
    ensures Begin(Spell(f)) == Some(if f.gap then UpToGap(f.left, f.right) else Join(f.left))
  {
    hide Groups, Join, AllGroups;
    JoinNothing();
    var s := Spell(f);
    if f.left == [] {
      assert s[..2] == "::";
      assert s[1..] == UpToGap(f.left, f.right);
    } else {
      JoinSome(f.left);
      assert s[0] == Join(f.left)[0];
    }
  }

  /** What the parser makes of a text form. */
  lemma FormParses(f: Form)
    requires WellFormed(f)
    ensures ParseV6(Spell(f)) == Some(Denotes(f))
  {
    hide Scan, Groups, Join, Spell, UpToGap, Expand, Begin;
    SpellBegins(f);
    JoinNothing();
    if f.gap {
      GapParses([], f.left, f.right);
      ExpandGap(Groups(f.left), Groups(f.right));
    } else {
      RunParses([], -1, f.left);
      assert [] + Groups(f.left) == Groups(f.left);
      ExpandPlain(Groups(f.left));
    }
  }

  lemma ExpandPlain(g: seq<group>)
    requires |g| == 8
    ensures Expand(Scanned(g, -1)) == g
  {
  }

  lemma ExpandGap(left: seq<group>, right: seq<group>)
    requires |left| + |right| <= 7
    ensures Expand(Scanned([] + left + [0] + right, |left|)) == left + Zeros(8 - |left| - |right|) + right
  {
  }

  /** `inet_pton` accepts nothing but text forms. */
  lemma ParsedForm(s: string) returns (f: Form)
    requires ParseV6(s).Some?
    ensures WellFormed(f) && Spell(f) == s
  {
    hide Scan, Groups, Join;
    JoinNothing();
    var left, gap, right := ScanSound([], -1, Begin(s).value);
    if left != [] {
      JoinSome(left);
      assert (Join(left) + "::" + Join(right))[0] == Join(left)[0];
    }
    if gap {
      f := Form(left, true, right);
      if left == [] {
        assert Begin(s).value[0] == ':';
        assert s == ":" + Begin(s).value;
        assert "::" + Join(right) == ":" + (":" + Join(right));
        assert [] + "::" == "::";
      }
    } else {
      f := Form(left, false, []);
    }
  }

  /** The parser accepts exactly the text forms of an address, each as the address it denotes. */
  lemma V6Exact(s: string, g: seq<group>)
    ensures ParseV6(s) == Some(g) <==> exists f :: WellFormed(f) && Spell(f) == s && Denotes(f) == g
  {
    hide ParseV6, Spell, WellFormed, Denotes;
    if ParseV6(s).Some? {
      var f := ParsedForm(s);
      FormParses(f);
    }
    forall f | WellFormed(f) && Spell(f) == s && Denotes(f) == g ensures ParseV6(s) == Some(g) {
      FormParses(f);
    }
  }

  function ExampleForm(): Form {
    Form([Group("2001"), Group("DB8")], true, [Group("8"), Group("800"), Group("200C"), Group("417A")])
  }

  /** The example of section 2.2 of RFC 4291, letters in upper case and a gap. */
  lemma ExampleAddress()
    ensures ParseV6("2001:DB8::8:800:200C:417A") == Some([0x2001, 0xDB8, 0, 0, 8, 0x800, 0x200C, 0x417A])
  {
    hide ParseV6, WellFormed, Denotes, Spell, ExampleForm;
    ExampleText();
    ExampleMeaning();
    FormParses(ExampleForm());
  }

  lemma ExampleText()
    ensures Spell(ExampleForm()) == "2001:DB8::8:800:200C:417A"
  {
    hide Join;
    ExampleLeft();
    ExampleRight();
    assert "2001:DB8" + "::" + "8:800:200C:417A" == "2001:DB8::8:800:200C:417A";
  }

  lemma ExampleLeft()
    ensures Join([Group("2001"), Group("DB8")]) == "2001:DB8"
  {
    hide Join;
    JoinMore([Group("2001"), Group("DB8")]);
    assert [Group("2001"), Group("DB8")][1..] == [Group("DB8")];
    JoinAlone(Group("DB8"));
  }

  lemma ExampleRight()
    ensures Join([Group("8"), Group("800"), Group("200C"), Group("417A")]) == "8:800:200C:417A"
  {
    hide Join;
    var c := [Group("800"), Group("200C"), Group("417A")];
    ExampleTail();
    JoinMore([Group("8")] + c);
    assert ([Group("8")] + c)[1..] == c;
    assert [Group("8")] + c == [Group("8"), Group("800"), Group("200C"), Group("417A")];
  }

  lemma ExampleTail()
    ensures Join([Group("800"), Group("200C"), Group("417A")]) == "800:200C:417A"
  {
    hide Join;
    var d := [Group("200C"), Group("417A")];
    JoinMore([Group("800")] + d);
    JoinMore(d);
    JoinAlone(Group("417A"));
    assert ([Group("800")] + d)[1..] == d && d[1..] == [Group("417A")];
    assert Join(d) == "200C:417A";
    assert [Group("800")] + d == [Group("800"), Group("200C"), Group("417A")];
  }

  lemma ExampleMeaning()
    ensures WellFormed(ExampleForm()) && Denotes(ExampleForm()) == [0x2001, 0xDB8, 0, 0, 8, 0x800, 0x200C, 0x417A]
  {
    hide GroupValue, GroupText;
    var f := ExampleForm();
    ExampleGroups();
    assert f.left[1..] == [Group("DB8")] && Groups(f.left) == [0x2001, 0xDB8];
    assert f.right[1..][1..] == [Group("200C"), Group("417A")] && f.right[1..][1..][1..] == [Group("417A")];
    assert Groups(f.right[1..][1..]) == [0x200C, 0x417A];
    assert Groups(f.right) == [8, 0x800, 0x200C, 0x417A];
  }

  lemma ExampleGroups()
    ensures GroupText("2001") && GroupText("DB8") && GroupText("8") && GroupText("800")
    ensures GroupText("200C") && GroupText("417A")
    ensures GroupValue("2001") == 0x2001 && GroupValue("DB8") == 0xDB8 && GroupValue("8") == 8
    ensures GroupValue("800") == 0x800 && GroupValue("200C") == 0x200C && GroupValue("417A") == 0x417A
  {
    hide Value;
    Places(Hexadecimal, "2001");
    Places(Hexadecimal, "DB8");
    Places(Hexadecimal, "8");
    Places(Hexadecimal, "800");
    Places(Hexadecimal, "200C");
    Places(Hexadecimal, "417A");
  }

  // ---------------------------------------------------------------- the code

  /** The loop of `inet_pton` over an uninitialised `ip`. With `quad`, the dotted rest of the text is still to come. */
  method ScanText(text: string, ip: array<group>) returns (ok: bool, last: nat, brk: int, quad: bool, rest: string)
    requires ip.Length == 8
    modifies ip
    ensures !ok ==> Scan([], -1, text) == None
    ensures ok ==> last <= 7 && -1 <= brk <= last && (brk < 0 ==> last == 7)
    ensures ok && !quad ==> Scan([], -1, text) == Some(Scanned(ip[..last + 1], brk))
    ensures ok && quad ==> 1 <= last && brk < last - 1
    ensures ok && quad ==> Scan([], -1, text) == WithQuad(ip[..last - 1], brk, ParseV4(rest))
  {
    hide Run, GroupValue, ParseV4, QuadGroups, Digits, WithQuad;
    var i, s := 0, text;
    brk, quad := -1, false;
    assert ip[..0] == [];
    while true
      invariant 0 <= i <= 7 && -1 <= brk < i && Scan([], -1, text) == Scan(ip[..i], brk, s)
      decreases 8 - i
    {
      ghost var done := ip[..i];
      if s != [] && s[0] == ':' && brk < 0 {
        ip[i] := 0;
        assert ip[..i + 1] == done + [0];
        if |s| == 1 {
          return true, i, i, false, s;
        }
        if i == 7 {
          return false, 0, 0, false, s;
        }
        brk, i, s := i, i + 1, s[1..];
        continue;
      }
      var v, j := ReadNumber(Hexadecimal, s, 4);
      if j == 0 {
        return false, 0, 0, false, s;
      }
      ReadValue(s[..j]);
      ip[i] := v;
      assert ip[..i] == done && ip[..i + 1] == done + [GroupValue(s[..j])];
      if j == |s| && (brk >= 0 || i == 7) {
        return true, i, brk, false, s;
      }
      if i == 7 {
        return false, 0, 0, false, s;
      }
      if j == |s| || s[j] != ':' {
        if j == |s| || s[j] != '.' || (i < 6 && brk < 0) {
          return false, 0, 0, false, s;
        }
        return true, i + 1, brk, true, s;
      }
      i, s := i + 1, s[j + 1..];
    }
  }

  lemma ReadValue(t: string)
    requires |t| <= 4 && Digits(Hexadecimal, t)
    ensures GroupValue(t) == Value(Hexadecimal, t) < 65536
  {
  }

  /** The `memmove` towards the end of `ip`. */
  method MoveUp(ip: array<group>, last: nat, brk: nat)
    requires ip.Length == 8 && brk <= last <= 7
    modifies ip
    ensures forall x | 0 <= x < brk :: ip[x] == old(ip[x])
    ensures forall x | brk + 7 - last <= x < 8 :: ip[x] == old(ip[x - 7 + last])
  {
    var k := last;
    while k >= brk
      invariant brk - 1 <= k <= last
      invariant forall x | 0 <= x <= k :: ip[x] == old(ip[x])
      invariant forall x | k + 7 - last < x < 8 :: ip[x] == old(ip[x - 7 + last])
    {
      ip[k + 7 - last] := ip[k];
      k := k - 1;
    }
  }

  /** The `memmove` and the zero fill that open the gap. */
  method OpenGap(ip: array<group>, last: nat, brk: nat)
    requires ip.Length == 8 && brk <= last <= 7
    modifies ip
    ensures ip[..] == Expand(Scanned(old(ip[..last + 1]), brk))
  {
    hide Expand;
    ghost var groups := ip[..last + 1];
    MoveUp(ip, last, brk);
    for j := 0 to 7 - last
      invariant forall x | 0 <= x < brk :: ip[x] == groups[x]
      invariant forall x | brk <= x < brk + j :: ip[x] == 0
      invariant forall x | brk + 7 - last <= x < 8 :: ip[x] == groups[x - 7 + last]
    {
      ip[brk + j] := 0;
    }
    GapOpened(ip[..], groups, brk);
  }

  lemma GapOpened(ip: seq<group>, groups: seq<group>, brk: nat)
    requires |ip| == 8 && 1 <= |groups| <= 8 && brk < |groups|
    requires forall x | 0 <= x < brk :: ip[x] == groups[x]
    requires forall x | brk <= x < brk + 8 - |groups| :: ip[x] == 0
    requires forall x | brk + 8 - |groups| <= x < 8 :: ip[x] == groups[x - 8 + |groups|]
    ensures ip == Expand(Scanned(groups, brk))
  {
    var gap := brk + 8 - |groups|;
    assert ip[brk..gap] == Zeros(8 - |groups|) && ip[..brk] == groups[..brk] && ip[gap..] == groups[brk..];
    assert ip == ip[..brk] + ip[brk..gap] + ip[gap..];
  }

  /** Groups as octets, high octet first. */
  function GroupBytes(g: seq<group>): (a: bytes)
    ensures |a| == 2 * |g|
  {
    if g == [] then [] else GroupBytes(g[..|g| - 1]) + [g[|g| - 1] / 256, g[|g| - 1] % 256]
  }

  function GroupsOf(a: bytes): (g: seq<group>)
    requires |a| % 2 == 0
    ensures |g| == |a| / 2
  {
    if a == [] then [] else GroupsOf(a[..|a| - 2]) + [Pair(a[|a| - 2], a[|a| - 1])]
  }

  lemma {:induction false} BytesBack(a: bytes)
    requires |a| % 2 == 0
    ensures GroupBytes(GroupsOf(a)) == a
  {
    hide Pair;
    if a != [] {
      var rest, x, y := a[..|a| - 2], a[|a| - 2], a[|a| - 1];
      BytesBack(rest);
      BytesMore(GroupsOf(rest), Pair(x, y));
      PairBack(x, y);
      assert a == rest + [x, y];
    }
  }

  lemma BytesMore(g: seq<group>, w: group)
    ensures GroupBytes(g + [w]) == GroupBytes(g) + [w / 256, w % 256]
  {
  }

  /** The octets of each group, the high one first. */
  lemma {:induction false} GroupOctets(g: seq<group>, i: nat)
    requires i < |g|
    ensures GroupBytes(g)[2 * i] == g[i] / 256 && GroupBytes(g)[2 * i + 1] == g[i] % 256
  {
    if i < |g| - 1 {
      GroupOctets(g[..|g| - 1], i);
    }
  }

  /** Each group of an address from its two octets. */
  lemma {:induction false} OctetsGroup(a: bytes, i: nat)
    requires |a| % 2 == 0 && 2 * i + 1 < |a|
    ensures GroupsOf(a)[i] == 256 * a[2 * i] as int + a[2 * i + 1]
  {
    if 2 * i + 2 < |a| {
      OctetsGroup(a[..|a| - 2], i);
    }
  }

  lemma PairBack(x: int, y: int)
    requires 0 <= x < 256 && 0 <= y < 256
    ensures Pair(x, y) / 256 == x && Pair(x, y) % 256 == y
  {
  }

  lemma QuadBytes(g: seq<group>, o: bytes)
    requires |o| == 4
    ensures GroupBytes(g + QuadGroups(o)) == GroupBytes(g) + o
  {
    var all := g + QuadGroups(o);
    PairBack(o[0], o[1]);
    PairBack(o[2], o[3]);
    assert all[..|all| - 1] == g + [Pair(o[0], o[1])];
    assert all[..|all| - 1][..|all| - 2] == g;
    assert o == [o[0], o[1]] + [o[2], o[3]];
  }

  lemma ExpandEnds(p: seq<group>, brk: int, x: group, y: group)
    requires |p| <= 6 && -1 <= brk < |p| && (brk < 0 ==> |p| == 6)
    ensures Expand(Scanned(p + [x, y], brk)) == (if brk < 0 then p else p[..brk] + Zeros(6 - |p|) + p[brk..]) + [x, y]
  {
  }

  lemma {:induction false} GroupBytesFirst(g: seq<group>, h: seq<group>)
    ensures GroupBytes(g + h)[..2 * |g|] == GroupBytes(g)
    decreases |h|
  {
    if h == [] {
      assert g + h == g;
    } else {
      var shorter := h[..|h| - 1];
      assert (g + h)[..|g + h| - 1] == g + shorter;
      GroupBytesFirst(g, shorter);
    }
  }

  method WriteGroups(ip: array<group>, a: array<byte>)
    requires ip.Length == 8 && a.Length >= 16
    modifies a
    ensures a[..16] == GroupBytes(ip[..]) && a[16..] == old(a[16..])
  {
    for j := 0 to 8
      invariant a[..2 * j] == GroupBytes(ip[..j]) && a[16..] == old(a[16..])
    {
      ghost var done := a[..2 * j];
      a[2 * j] := ip[j] / 256;
      a[2 * j + 1] := ip[j] % 256;
      assert a[..2 * (j + 1)] == done + [ip[j] / 256, ip[j] % 256];
      assert ip[..j + 1][..j] == ip[..j];
    }
    assert ip[..8] == ip[..];
  }

  /** `inet_pton` for `AF_INET6`. */
  method PtonV6(text: string, a: array<byte>) returns (ok: bool)
    requires a.Length >= 16
    modifies a
    ensures ok == ParseV6(text).Some?
    ensures ok ==> a[..16] == GroupBytes(ParseV6(text).value)
    ensures a[16..] == old(a[16..])
  {
    hide Scan, Expand, ParseV4, GroupBytes, QuadGroups;
    var s := text;
    if s != [] && s[0] == ':' {
      if |s| == 1 || s[1] != ':' {
        return false;
      }
      s := s[1..];
    }
    var ip := new group[8];
    var last, brk, quad, rest;
    ok, last, brk, quad, rest := ScanText(s, ip);
    if !ok {
      return false;
    }
    ghost var groups := ip[..last + 1];
    ghost var p := if quad then ip[..last - 1] else [];
    assert quad ==> groups == p + [groups[last - 1], groups[last]];
    if brk >= 0 {
      OpenGap(ip, last, brk);
    } else {
      ExpandPlain(groups);
      assert ip[..] == groups;
    }
    assert ip[..] == Expand(Scanned(groups, brk));
    WriteGroups(ip, a);
    if quad {
      ghost var written := a[..12];
      assert written == a[..16][..12];
      ok := PtonV4(rest, a, 12);
      if ok {
        assert a[..12] == written;
        assert a[..16] == written + a[12..16];
        QuadLast(p, brk, groups[last - 1], groups[last], ParseV4(rest).value, written);
      }
    }
  }

  /** Overwriting the last two groups of the expanded text by the quad is reading the quad in place. */
  lemma QuadLast(p: seq<group>, brk: int, x: group, y: group, o: bytes, written: bytes)
    requires |p| <= 6 && -1 <= brk < |p| && (brk < 0 ==> |p| == 6) && |o| == 4
    requires written == GroupBytes(Expand(Scanned(p + [x, y], brk)))[..12]
    ensures GroupBytes(Expand(Scanned(p + QuadGroups(o), brk))) == written + o
  {
    hide Expand, GroupBytes;
    ghost var front := if brk < 0 then p else p[..brk] + Zeros(6 - |p|) + p[brk..];
    ExpandEnds(p, brk, x, y);
    ExpandEnds(p, brk, Pair(o[0], o[1]), Pair(o[2], o[3]));
    GroupBytesFirst(front, [x, y]);
    QuadBytes(front, o);
  }
}
