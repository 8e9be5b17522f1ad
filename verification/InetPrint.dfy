/**
  `inet_ntop`: the full text of an address with the longest run of zeros shortened to `::`, found
  by looking at the characters alone. Whatever is printed parses back to the same address.
 */
module InetPrint {
  import opened Wrappers
  import opened Bytes
  import opened Numerals
  import opened InetText
  import opened InetV6

  // ---------------------------------------------------------------- the full text

  function HexItems(g: seq<group>): (xs: seq<Item>)
    ensures |xs| == |g| && forall i | 0 <= i < |g| :: xs[i] == Group(Numeral(Hexadecimal, g[i]))
  {
    seq(|g|, i requires 0 <= i < |g| => Group(Numeral(Hexadecimal, g[i])))
  }

  /** `memcmp` with ten zeros and two octets of ones. */
  predicate Mapped(a: bytes)
    requires |a| == 16
  {
    (forall i | 0 <= i < 10 :: a[i] == 0) && a[10] == 255 && a[11] == 255
  }

  /** The pieces of the first `snprintf`. */
  function FullItems(a: bytes): seq<Item>
    requires |a| == 16
  {
    if Mapped(a) then HexItems(GroupsOf(a[..12])) + [Quad(a[12..])] else HexItems(GroupsOf(a))
  }

  // ---------------------------------------------------------------- the search

  /** `strspn(s, ":0")`. */
  function Span(s: string): (j: nat)
    ensures j <= |s|
  {
    if s == [] || (s[0] != ':' && s[0] != '0') then 0 else 1 + Span(s[1..])
  }

  /** Where the source measures a span. */
  predicate Candidate(buf: string, p: nat) {
    p < |buf| && (p == 0 || buf[p] == ':')
  }

  /** The search loop from position `i` on. */
  function Search(buf: string, i: nat, best: nat, max: nat): (r: (nat, nat))
    requires i <= |buf|
    ensures if r.1 > max then r.0 + r.1 <= |buf| else r == (best, max)
    decreases |buf| - i
  {
    if i == |buf| then (best, max)
    else if Candidate(buf, i) && Span(buf[i..]) > max then Search(buf, i + 1, i, Span(buf[i..]))
    else Search(buf, i + 1, best, max)
  }

  /** The search finds the first of the longest spans, if one is longer than `max`. */
  lemma {:induction false} SearchFinds(buf: string, i: nat, best: nat, max: nat)
    requires i <= |buf|
    ensures var (b, m) := Search(buf, i, best, max);
      && m >= max && (m == max ==> b == best)
      && (m > max ==> i <= b && Candidate(buf, b) && Span(buf[b..]) == m)
      && (forall p | i <= p && Candidate(buf, p) :: Span(buf[p..]) <= m)
      && (m > max ==> forall p | i <= p < b && Candidate(buf, p) :: Span(buf[p..]) < m)
    decreases |buf| - i
  {
    hide Span;
    if i < |buf| {
      if Candidate(buf, i) && Span(buf[i..]) > max {
        SearchFinds(buf, i + 1, i, Span(buf[i..]));
      } else {
        SearchFinds(buf, i + 1, best, max);
      }
    }
  }

  /** The text `inet_ntop` prints for an IPv6 address. */
  function PrintV6(a: bytes): string
    requires |a| == 16
  {
    Shorten(Join(FullItems(a)))
  }

  function Shorten(buf: string): string {
    var (best, max) := Search(buf, 0, 0, 2);
    if max > 3 then buf[..best] + "::" + buf[best + max..] else buf
  }

  // ---------------------------------------------------------------- characters and items

  predicate IsZero(x: Item) {
    x.Group? && x.text == ['0']
  }

  /** A group without leading zeros. */
  predicate Plain(x: Item) {
    IsItem(x) && x.Group? && (x.text[0] == '0' ==> x.text == ['0'])
  }

  function ZeroRun(xs: seq<Item>): (k: nat)
    ensures k <= |xs| && (forall i | 0 <= i < k :: IsZero(xs[i])) && (k < |xs| ==> !IsZero(xs[k]))
  {
    if xs == [] || !IsZero(xs[0]) then 0 else 1 + ZeroRun(xs[1..])
  }

  lemma NoColon(x: Item, i: nat)
    requires IsItem(x) && i < |Text(x)|
    ensures Text(x)[i] != ':'
  {
    match x
    case Group(t) =>
      ColonIsNoDigit();
      assert DigitVal(Hexadecimal, t[i]) >= 0;
    case Quad(o) =>
      DottedNoColon(o, i);
  }

  lemma {:induction false} DottedNoColon(o: bytes, i: nat)
    requires i < |Dotted(o)|
    ensures Dotted(o)[i] != ':'
  {
    hide Numeral;
    var t := Numeral(Decimal, o[0]);
    NumeralValue(Decimal, o[0]);
    if i < |t| {
      assert Dotted(o)[i] == t[i] && DigitVal(Decimal, t[i]) >= 0;
    } else if i > |t| {
      DottedNoColon(o[1..], i - |t| - 1);
    }
  }

  /** A colon of the text stands between two pieces. */
  lemma {:induction false} ColonSplits(xs: seq<Item>, p: nat) returns (g: nat)
    requires Items(xs) && p < |Join(xs)| && Join(xs)[p] == ':'
    ensures 1 <= g < |xs| && Join(xs)[..p] == Join(xs[..g]) && Join(xs)[p + 1..] == Join(xs[g..])
    decreases |xs|
  {
    hide IsItem, Text, Join;
    JoinNothing();
    var x, t := xs[0], Text(xs[0]);
    JoinAlone(x);
    assert |xs| > 1 by {
      if |xs| == 1 {
        assert xs == [x];
        NoColon(x, p);
      }
    }
    JoinMore(xs);
    if p < |t| {
      NoColon(x, p);
    } else if p == |t| {
      g := 1;
      assert xs[..1] == [x];
    } else {
      var rest := xs[1..];
      g := ColonSplits(rest, p - |t| - 1);
      assert xs[..g + 1][1..] == rest[..g];
      JoinMore(xs[..g + 1]);
      assert Join(xs)[..p] == t + (":" + Join(rest)[..p - |t| - 1]);
      assert rest[g..] == xs[g + 1..];
      g := g + 1;
    }
  }

  /** Between two pieces of the text stands a colon. */
  lemma {:induction false} JoinSplits(xs: seq<Item>, g: nat)
    requires 1 <= g < |xs|
    ensures Join(xs) == Join(xs[..g]) + (":" + Join(xs[g..]))
  {
    hide Join, Text;
    JoinMore(xs);
    if g == 1 {
      assert xs[..1] == [xs[0]];
      JoinAlone(xs[0]);
    } else {
      var rest := xs[1..];
      JoinSplits(rest, g - 1);
      assert xs[..g][1..] == rest[..g - 1] && xs[g..] == rest[g - 1..];
      JoinMore(xs[..g]);
    }
  }

  /** The span at the start of a list covers its leading zeros and the colons after them. */
  lemma {:induction false} SpanCovers(xs: seq<Item>)
    requires xs != [] && (ZeroRun(xs) < |xs| ==> Plain(xs[ZeroRun(xs)]))
    ensures var k, s := ZeroRun(xs), Join(xs);
      Span(s) == (if k == |xs| then 2 * k - 1 else 2 * k) && s[Span(s)..] == Join(xs[k..])
    decreases |xs|
  {
    hide Join;
    JoinNothing();
    if !IsZero(xs[0]) {
      JoinStarts(xs);
      assert xs[0..] == xs;
    } else if |xs| == 1 {
      assert xs == [xs[0]] && xs[1..] == [];
      JoinAlone(xs[0]);
      SpanZero("");
    } else {
      JoinMore(xs);
      SpanCovers(xs[1..]);
      SpanZeroColon(Join(xs[1..]));
      assert xs[1..][ZeroRun(xs[1..])..] == xs[ZeroRun(xs)..];
    }
  }

  lemma JoinStarts(xs: seq<Item>)
    requires xs != [] && Plain(xs[0])
    ensures Join(xs) != [] && Join(xs)[0] == xs[0].text[0] != ':'
  {
  }

  lemma SpanZero(rest: string)
    ensures Span(['0'] + rest) == 1 + Span(rest)
  {
  }

  lemma SpanZeroColon(rest: string)
    ensures var s := ['0'] + (":" + rest); Span(s) == 2 + Span(rest) && s[Span(s)..] == rest[Span(rest)..]
  {
  }

  // ---------------------------------------------------------------- the shortened text

  /** Groups without leading zeros, and no zero group right before a quad. */
  predicate Tidy(xs: seq<Item>) {
    && Items(xs) && xs != []
    && (forall i | 0 <= i < |xs| && xs[i].Group? :: Plain(xs[i]))
    && (forall i | 0 <= i < |xs| && xs[i].Quad? :: 0 < i && !IsZero(xs[i - 1]))
  }

  /** The length of the span measured at piece `g`, from the colon before it if there is one. */
  function SpanAt(xs: seq<Item>, g: nat): nat
    requires g < |xs|
  {
    (if g == 0 then 0 else 1) + Span(Join(xs[g..]))
  }

  lemma QuadSpan(o: bytes)
    requires |o| == 4
    ensures Span(Dotted(o)) <= 1
  {
    hide Numeral;
    var t, rest := Numeral(Decimal, o[0]), "." + Dotted(o[1..]);
    NumeralStart(Decimal, o[0]);
    NumeralValue(Decimal, o[0]);
    assert Dotted(o) == t + rest;
    assert DigitVal(Decimal, t[0]) >= 0;
    if t[0] == '0' {
      SpanZero(rest);
    } else {
      assert Dotted(o)[0] == t[0];
    }
  }

  /** Every measured span, by the zeros it covers. */
  lemma SpanOf(xs: seq<Item>, g: nat)
    requires Tidy(xs) && g < |xs|
    ensures xs[g].Quad? ==> SpanAt(xs, g) <= 2
    ensures xs[g].Group? ==> var k := ZeroRun(xs[g..]);
      && SpanAt(xs, g) == (if g == 0 then 0 else 1) + (if g + k == |xs| then 2 * k - 1 else 2 * k)
      && Join(xs[g..])[Span(Join(xs[g..]))..] == Join(xs[g + k..])
  {
    hide Join, Span;
    var tail := xs[g..];
    if xs[g].Quad? {
      assert IsItem(xs[g]) && tail == [xs[g]];
      JoinAlone(xs[g]);
      QuadSpan(xs[g].octets);
    } else {
      var k := ZeroRun(tail);
      if k < |tail| {
        assert tail[k] == xs[g + k];
        assert k > 0 ==> tail[k - 1] == xs[g + k - 1] && IsZero(tail[k - 1]);
        assert Plain(tail[k]);
      }
      SpanCovers(tail);
      assert tail[k..] == xs[g + k..];
    }
  }

  /** The candidates of the search are the places before the pieces. */
  lemma CandidateIs(xs: seq<Item>, p: nat) returns (g: nat)
    requires Tidy(xs) && Candidate(Join(xs), p)
    ensures g < |xs| && (p == 0 <==> g == 0) && Join(xs)[..p] == Join(xs[..g])
    ensures Join(xs)[p..] == (if g == 0 then Join(xs) else ":" + Join(xs[g..]))
    ensures Span(Join(xs)[p..]) == SpanAt(xs, g)
  {
    hide Join;
    JoinNothing();
    if p == 0 {
      g := 0;
      assert xs[0..] == xs;
    } else {
      g := ColonSplits(xs, p);
      SpanColon(Join(xs[g..]));
      assert Join(xs)[p..] == ":" + Join(xs)[p + 1..];
    }
  }

  lemma SpanColon(rest: string)
    ensures Span(":" + rest) == 1 + Span(rest)
  {
  }

  lemma PlaceOf(xs: seq<Item>, g: nat) returns (p: nat)
    requires Tidy(xs) && g < |xs|
    ensures Candidate(Join(xs), p) && Span(Join(xs)[p..]) == SpanAt(xs, g)
  {
    hide Join;
    if g == 0 {
      JoinSome(xs);
      p := 0;
      assert xs[0..] == xs;
    } else {
      p := |Join(xs[..g])|;
      JoinSplits(xs, g);
      assert Join(xs)[p..] == ":" + Join(xs[g..]);
      SpanColon(Join(xs[g..]));
    }
  }

  predicate ZeroPiece(xs: seq<Item>, g: nat, k: nat) {
    g + k <= |xs| && forall i | g <= i < g + k :: IsZero(xs[i])
  }

  /** A run of zeros gives a span of at least twice its length, or all of the text. */
  lemma RunSpan(xs: seq<Item>, g: nat, k: nat)
    requires Tidy(xs) && ZeroPiece(xs, g, k) && k >= 1
    ensures SpanAt(xs, g) >= if k == |xs| then 2 * k - 1 else 2 * k
  {
    hide Join, Span;
    assert IsZero(xs[g]);
    SpanOf(xs, g);
  }

  lemma {:induction false} GroupsSplit(xs: seq<Item>, g: nat)
    requires Items(xs) && g <= |xs|
    ensures Items(xs[..g]) && Items(xs[g..]) && Groups(xs) == Groups(xs[..g]) + Groups(xs[g..])
  {
    hide IsItem, ItemGroups, Groups, Items;
    JoinNothing();
    ItemsSplit(xs, g);
    if g == 0 {
      assert xs[0..] == xs;
    } else {
      ItemsSplit(xs, 1);
      var rest := xs[1..];
      GroupsFront(xs);
      GroupsSplit(rest, g - 1);
      assert xs[..g][1..] == rest[..g - 1] && xs[g..] == rest[g - 1..];
      GroupsFront(xs[..g]);
    }
  }

  lemma ItemsSplit(xs: seq<Item>, g: nat)
    requires Items(xs) && g <= |xs|
    ensures Items(xs[..g]) && Items(xs[g..])
  {
  }

  lemma GroupsFront(xs: seq<Item>)
    requires Items(xs) && xs != []
    ensures IsItem(xs[0]) && Items(xs[1..]) && Groups(xs) == ItemGroups(xs[0]) + Groups(xs[1..])
  {
  }

  lemma {:induction false} ZeroGroups(xs: seq<Item>)
    requires Items(xs) && forall i | 0 <= i < |xs| :: IsZero(xs[i])
    ensures Groups(xs) == Zeros(|xs|)
  {
    if xs != [] {
      ZeroGroups(xs[1..]);
      ZeroValue();
    }
  }

  lemma ZeroValue()
    ensures Digits(Hexadecimal, ['0']) && GroupValue(['0']) == 0
  {
  }

  lemma BeforeLast(xs: seq<Item>, g: nat)
    requires Items(xs) && g < |xs|
    ensures AllGroups(xs[..g])
  {
  }

  /** Leaving out a run of zero groups denotes the same address. */
  lemma GapDenotes(xs: seq<Item>, g: nat, k: nat)
    requires Items(xs) && |Groups(xs)| == 8 && ZeroPiece(xs, g, k) && k >= 1
    ensures var f := Form(xs[..g], true, xs[g + k..]); WellFormed(f) && Denotes(f) == Groups(xs)
  {
    hide IsItem, Groups, AllGroups;
    GroupsSplit(xs, g);
    GroupsSplit(xs[g..], k);
    assert xs[g..][k..] == xs[g + k..];
    ZeroGroups(xs[g..][..k]);
    BeforeLast(xs, g);
    assert |Groups(xs[..g])| == g by { BeforeLast(xs, g); GroupCount(xs[..g]); }
  }

  lemma GroupCount(xs: seq<Item>)
    requires Items(xs) && AllGroups(xs)
    ensures |Groups(xs)| == |xs|
  {
  }

  lemma RunIsPiece(xs: seq<Item>, g: nat)
    requires g <= |xs|
    ensures ZeroPiece(xs, g, ZeroRun(xs[g..]))
  {
  }

  /** The search loop at work on pieces: the chosen place and the zeros that are left out there. */
  lemma Chosen(xs: seq<Item>) returns (g: nat, k: nat)
    requires Tidy(xs) && Search(Join(xs), 0, 0, 2).1 > 3
    ensures k >= 2 && ZeroPiece(xs, g, k) && Shorten(Join(xs)) == Spell(Form(xs[..g], true, xs[g + k..]))
    ensures g < |xs| && g + k <= |xs| && SpanAt(xs, g) == Search(Join(xs), 0, 0, 2).1
    ensures SpanAt(xs, g) <= (if g > 0 && g + k < |xs| then 2 * k + 1 else 2 * k)
    ensures g == 0 && k == |xs| ==> SpanAt(xs, g) == 2 * k - 1
  {
    hide Join, Span, Search, IsItem, Tidy, Candidate, ZeroPiece, SpanAt, ZeroRun, IsZero, Shorten, Spell;
    var b;
    b, g := BestPlace(xs);
    SpanOf(xs, g);
    k := ZeroRun(xs[g..]);
    RunIsPiece(xs, g);
    TailAfterSpan(xs, g, b, SpanAt(xs, g));
    ShortenCuts(xs, b, SpanAt(xs, g), xs[..g], xs[g + k..]);
  }

  lemma ShortenCuts(xs: seq<Item>, b: nat, m: nat, left: seq<Item>, right: seq<Item>)
    requires m > 3 && Search(Join(xs), 0, 0, 2) == (b, m) && b + m <= |Join(xs)|
    requires Join(xs)[..b] == Join(left) && Join(xs)[b + m..] == Join(right)
    ensures Shorten(Join(xs)) == Spell(Form(left, true, right))
  {
    hide Join, Search;
  }

  /** Where in the text, and before which piece, the search ends. */
  lemma BestPlace(xs: seq<Item>) returns (b: nat, g: nat)
    requires Tidy(xs) && Search(Join(xs), 0, 0, 2).1 > 3
    ensures g < |xs| && xs[g].Group? && b <= |Join(xs)| && Search(Join(xs), 0, 0, 2) == (b, SpanAt(xs, g))
    ensures Join(xs)[..b] == Join(xs[..g])
    ensures Join(xs)[b..] == (if g == 0 then Join(xs) else ":" + Join(xs[g..]))
  {
    hide Join, Span, Search, IsItem, Tidy, ZeroPiece, SpanAt, ZeroRun, IsZero;
    SearchFinds(Join(xs), 0, 0, 2);
    b := Search(Join(xs), 0, 0, 2).0;
    g := CandidateIs(xs, b);
    SpanOf(xs, g);
  }

  lemma TailAfterSpan(xs: seq<Item>, g: nat, b: nat, m: nat)
    requires g < |xs| && b <= |Join(xs)| && m == SpanAt(xs, g) <= |Join(xs)| - b
    requires Join(xs)[b..] == (if g == 0 then Join(xs) else ":" + Join(xs[g..]))
    ensures Join(xs)[b + m..] == Join(xs[g..])[Span(Join(xs[g..]))..]
  {
    hide Join, Span;
    var tail := Join(xs[g..]);
    assert Join(xs)[b + m..] == Join(xs)[b..][m..];
    if g == 0 {
      assert xs[0..] == xs;
    } else {
      assert (":" + tail)[m..] == tail[m - 1..];
    }
  }

  /** What is printed is a text form, and leaves out a longest run of two or more zero groups if there is one. */
  lemma ShortenedForm(xs: seq<Item>) returns (f: Form, g: nat, k: nat)
    requires Tidy(xs) && |Groups(xs)| == 8 && |xs| >= 3
    ensures WellFormed(f) && Spell(f) == Shorten(Join(xs)) && Denotes(f) == Groups(xs)
    ensures if f.gap then k >= 2 && ZeroPiece(xs, g, k) && f.left == xs[..g] && f.right == xs[g + k..] else f.left == xs
    ensures forall h: nat, n: nat | ZeroPiece(xs, h, n) && n >= 2 :: f.gap && n <= k
  {
    hide Join, Span, Search, IsItem, Groups, WellFormed, Denotes, SpanAt, ZeroPiece;
    var max := Search(Join(xs), 0, 0, 2).1;
    if max > 3 {
      g, k := Chosen(xs);
      f := Form(xs[..g], true, xs[g + k..]);
      GapDenotes(xs, g, k);
    } else {
      f, g, k := Form(xs, false, []), 0, 0;
      WholeForm(xs);
    }
    forall h: nat, n: nat | ZeroPiece(xs, h, n) && n >= 2 ensures f.gap && n <= k {
      Bounded(xs, h, n);
      PieceFits(xs, h, n);
      if f.gap {
        PieceFits(xs, g, k);
      }
    }
  }

  lemma PieceFits(xs: seq<Item>, g: nat, k: nat)
    requires ZeroPiece(xs, g, k)
    ensures g + k <= |xs|
  {
  }

  lemma WholeForm(xs: seq<Item>)
    requires Items(xs) && |Groups(xs)| == 8
    ensures var f := Form(xs, false, []); WellFormed(f) && Denotes(f) == Groups(xs)
  {
  }

  /** No span is longer than the one the search ends with. */
  lemma Bounded(xs: seq<Item>, h: nat, n: nat)
    requires Tidy(xs) && ZeroPiece(xs, h, n) && n >= 2
    ensures Search(Join(xs), 0, 0, 2).1 >= if n == |xs| then 2 * n - 1 else 2 * n
  {
    hide Join, Span, Search, IsItem, SpanAt;
    SearchFinds(Join(xs), 0, 0, 2);
    var p := PlaceOf(xs, h);
    RunSpan(xs, h, n);
  }

  // ---------------------------------------------------------------- addresses

  lemma HexPlain(v: group)
    ensures var x := Group(Numeral(Hexadecimal, v));
      Plain(x) && (IsZero(x) <==> v == 0) && ItemGroups(x) == [v]
  {
    NumeralValue(Hexadecimal, v);
    NumeralShort(Hexadecimal, v);
    NumeralStart(Hexadecimal, v);
  }

  lemma {:induction false} HexGroups(g: seq<group>)
    ensures Items(HexItems(g)) && Groups(HexItems(g)) == g
    ensures forall x | x in HexItems(g) :: Plain(x)
  {
    hide Plain, IsItem, ItemGroups, Numeral, Groups;
    JoinNothing();
    var xs := HexItems(g);
    forall i | 0 <= i < |xs| ensures IsItem(xs[i]) && xs[i].Group? && Plain(xs[i]) {
      HexPlain(g[i]);
      PlainIsItem(xs[i]);
    }
    if g != [] {
      HexGroups(g[1..]);
      assert xs[1..] == HexItems(g[1..]);
      GroupsFront(xs);
      HexPlain(g[0]);
    }
  }

  lemma PlainIsItem(x: Item)
    requires Plain(x)
    ensures IsItem(x) && x.Group?
  {
  }

  lemma {:induction false} GroupsOfSplit(a: bytes, o: bytes)
    requires |a| % 2 == 0 && |o| == 4
    ensures GroupsOf(a + o) == GroupsOf(a) + QuadGroups(o)
  {
    var all := a + o;
    assert all[..|all| - 2] == a + o[..2];
    assert (a + o[..2])[..|a|] == a;
  }

  lemma MappedGroups(a: bytes)
    requires |a| == 16 && Mapped(a)
    ensures GroupsOf(a[..12])[5] == 65535
  {
  }

  /** The full text denotes the address. */
  lemma FullTidy(a: bytes)
    requires |a| == 16
    ensures Tidy(FullItems(a)) && Groups(FullItems(a)) == GroupsOf(a) && |FullItems(a)| >= 7
  {
    hide Plain, IsItem, ItemGroups, Numeral, Groups, IsZero, GroupsOf;
    if Mapped(a) {
      var front := GroupsOf(a[..12]);
      var xs, q := HexItems(front), Quad(a[12..]);
      HexGroups(front);
      MappedGroups(a);
      HexPlain(front[5]);
      QuadItem(a[12..]);
      assert FullItems(a) == xs + [q];
      PlainThenQuad(xs, a[12..]);
      GroupsOfSplit(a[..12], a[12..]);
      assert a[..12] + a[12..] == a;
    } else {
      HexGroups(GroupsOf(a));
    }
  }

  lemma QuadItem(o: bytes)
    requires |o| == 4
    ensures IsItem(Quad(o)) && ItemGroups(Quad(o)) == QuadGroups(o)
  {
  }

  lemma PlainThenQuad(xs: seq<Item>, o: bytes)
    requires |o| == 4 && Items(xs) && xs != [] && (forall x | x in xs :: Plain(x)) && !IsZero(xs[|xs| - 1])
    ensures Tidy(xs + [Quad(o)]) && Groups(xs + [Quad(o)]) == Groups(xs) + QuadGroups(o)
  {
    hide Groups, IsZero, QuadGroups, ItemGroups, Plain, IsItem, Tidy;
    var all := xs + [Quad(o)];
    TidyThenQuad(xs, o);
    assert Items(all) by { TidyItems(all); }
    GroupsSplit(all, |xs|);
    assert all[..|xs|] == xs && all[|xs|..] == [Quad(o)];
    QuadItem(o);
    GroupsOne(Quad(o));
  }

  lemma TidyItems(xs: seq<Item>)
    requires Tidy(xs)
    ensures Items(xs)
  {
  }

  lemma TidyThenQuad(xs: seq<Item>, o: bytes)
    requires |o| == 4 && xs != [] && (forall x | x in xs :: Plain(x)) && !IsZero(xs[|xs| - 1])
    ensures Tidy(xs + [Quad(o)])
  {
    hide IsZero, Plain, IsItem;
    var all := xs + [Quad(o)];
    QuadItem(o);
    forall i | 0 <= i < |xs| ensures all[i].Group? && IsItem(all[i]) && Plain(all[i]) {
      assert all[i] == xs[i] && xs[i] in xs;
      PlainIsItem(xs[i]);
    }
  }

  /** Every IPv6 address is read back from its text. */
  lemma V6RoundTrip(a: bytes)
    requires |a| == 16
    ensures ParseV6(PrintV6(a)) == Some(GroupsOf(a)) && GroupBytes(GroupsOf(a)) == a
  {
    hide ParseV6, Shorten, Tidy, FullItems, Groups, GroupsOf, WellFormed, Spell, Denotes;
    FullTidy(a);
    var f, g, k := ShortenedForm(FullItems(a));
    FormParses(f);
    BytesBack(a);
  }

  /** The octets of an IPv4-mapped address. */
  function MappedAddress(o: bytes): (a: bytes)
    requires |o| == 4
    ensures |a| == 16
  {
    [0, 0, 0, 0, 0, 0, 0, 0, 0, 0, 255, 255] + o
  }

  function MappedPieces(o: bytes): seq<Item> {
    [Group("0"), Group("0"), Group("0"), Group("0"), Group("0"), Group("ffff"), Quad(o)]
  }

  /** An IPv4-mapped address is printed with a dotted quad, whatever the four octets are. */
  lemma MappedPrinted(o: bytes)
    requires |o| == 4
    ensures PrintV6(MappedAddress(o)) == "::ffff:" + Dotted(o)
  {
    hide Shorten, Dotted, Join, Groups, GroupsOf, Tidy, WellFormed, Denotes;
    hide MappedAddress, MappedPieces, Spell, FullItems, ZeroPiece;
    MappedItems(o);
    FullTidy(MappedAddress(o));
    var f, g, k := ShortenedForm(MappedPieces(o));
    MappedRun(o, g, k);
    MappedText(o);
  }

  /** The five zeros in front are the only run of two or more. */
  lemma MappedRun(o: bytes, g: nat, k: nat)
    ensures var xs := MappedPieces(o);
      && ZeroPiece(xs, 0, 5) && xs[..0] == [] && xs[5..] == [Group("ffff"), Quad(o)]
      && (ZeroPiece(xs, g, k) && k >= 5 ==> g == 0 && k == 5)
  {
    var xs := MappedPieces(o);
    assert !IsZero(xs[5]) && !IsZero(xs[6]);
    if ZeroPiece(xs, g, k) && k >= 5 {
      assert IsZero(xs[g + k - 1]);
    }
  }

  lemma MappedText(o: bytes)
    ensures Spell(Form([], true, [Group("ffff"), Quad(o)])) == "::ffff:" + Dotted(o)
  {
    hide Join, Dotted;
    var right := [Group("ffff"), Quad(o)];
    JoinNothing();
    JoinMore(right);
    assert right[1..] == [Quad(o)];
    JoinAlone(Quad(o));
  }

  lemma MappedItems(o: bytes)
    requires |o| == 4
    ensures FullItems(MappedAddress(o)) == MappedPieces(o)
  {
    hide GroupsOf, Numeral;
    var a := MappedAddress(o);
    var front := GroupsOf(a[..12]);
    ZeroOctets(5);
    GroupsOfMore(seq(10, _ => 0), 255, 255);
    ShortNumerals();
    assert a[..12] == seq(10, _ => 0) + [255, 255] && a[12..] == o;
    assert front == Zeros(5) + [65535];
    assert HexItems(front) == MappedPieces(o)[..6];
  }

  lemma GroupsOfMore(a: bytes, x: byte, y: byte)
    requires |a| % 2 == 0
    ensures GroupsOf(a + [x, y]) == GroupsOf(a) + [Pair(x, y)]
  {
    assert (a + [x, y])[..|a|] == a;
  }

  lemma {:induction false} ZeroOctets(n: nat)
    ensures GroupsOf(seq(2 * n, _ => 0)) == Zeros(n)
  {
    if n > 0 {
      ZeroOctets(n - 1);
      GroupsOfMore(seq(2 * n - 2, _ => 0), 0, 0);
      assert seq(2 * n, _ => 0 as byte) == seq(2 * n - 2, _ => 0 as byte) + [0, 0];
    }
  }

  lemma ShortNumerals()
    ensures Numeral(Hexadecimal, 0) == "0" && Numeral(Hexadecimal, 65535) == "ffff"
  {
    assert Numeral(Hexadecimal, 15) == "f";
    assert Numeral(Hexadecimal, 255) == "ff";
    assert Numeral(Hexadecimal, 4095) == "fff";
  }

  /** Every IPv4 address is read back from its text. */
  lemma V4RoundTrip(a: bytes)
    requires |a| == 4
    ensures ParseV4(Dotted(a)) == Some(a)
  {
    V4Exact(Dotted(a), a);
  }

  // ---------------------------------------------------------------- the code

  lemma {:induction false} JoinLength(xs: seq<Item>)
    requires Items(xs)
    ensures |Join(xs)| <= 5 * |xs| + 11
    decreases |xs|
  {
    hide IsItem, Items, Dotted;
    if xs != [] {
      ItemsSplit(xs, 1);
      TextLength(xs);
      JoinLength(xs[1..]);
    }
  }

  lemma TextLength(xs: seq<Item>)
    requires Items(xs) && xs != []
    ensures |Text(xs[0])| <= if |xs| == 1 then 16 else 4
  {
    var x := xs[0];
    assert IsItem(x);
    if x.Quad? {
      DottedLength(x.octets);
    }
  }

  lemma {:induction false} DottedLength(o: bytes)
    ensures |Dotted(o)| <= 4 * |o|
  {
    hide Numeral;
    if o != [] {
      NumeralShort(Decimal, o[0]);
      DottedLength(o[1..]);
    }
  }

  /** `memmove` towards the start of the buffer. */
  method MoveDown(buf: array<char>, to: nat, from: nat, count: nat)
    requires to <= from && from + count <= buf.Length
    modifies buf
    ensures buf[..to] == old(buf[..to]) && buf[to..to + count] == old(buf[from..from + count])
  {
    for k := 0 to count
      invariant buf[..to] == old(buf[..to])
      invariant forall x | to <= x < to + k :: buf[x] == old(buf[x - to + from])
      invariant forall x | to + k <= x < buf.Length :: buf[x] == old(buf[x])
    {
      buf[to + k] := buf[from + k];
    }
  }

  /** The search loop over the buffer. */
  method FindLongest(buf: array<char>, n: nat) returns (best: nat, max: nat)
    requires n <= buf.Length
    ensures (best, max) == Search(buf[..n], 0, 0, 2)
  {
    hide Span;
    ghost var text := buf[..n];
    best, max := 0, 2;
    for i := 0 to n
      invariant Search(text, 0, 0, 2) == Search(text, i, best, max)
    {
      if i == 0 || buf[i] == ':' {
        var j := Span(buf[i..n]);
        assert buf[i..n] == text[i..];
        if j > max {
          best, max := i, j;
        }
      }
    }
  }

  /** Two colons over the start of the span, and the rest of the text moved up to them. */
  method Cut(buf: array<char>, n: nat, best: nat, max: nat)
    requires n <= buf.Length && best + max <= n && max > 3
    modifies buf
    ensures buf[..n - max + 2] == old(buf[..best] + "::" + buf[best + max..n])
  {
    ghost var front, back := buf[..best], buf[best + max..n];
    buf[best] := ':';
    buf[best + 1] := ':';
    assert buf[..best + 2] == front + "::" && buf[best + max..n] == back;
    MoveDown(buf, best + 2, best + max, n - best - max);
    assert buf[..n - max + 2] == buf[..best + 2] + buf[best + 2..n - max + 2];
  }

  /** `inet_ntop` for `AF_INET6`, into a buffer of `size` characters with the terminator. */
  method NtopV6(a: bytes, size: nat) returns (r: Option<string>)
    requires |a| == 16
    ensures r == if |PrintV6(a)| < size then Some(PrintV6(a)) else None
    ensures size >= 52 ==> r.Some?
    ensures r.Some? ==> ParseV6(r.value) == Some(GroupsOf(a))
  {
    hide FullItems, Join, Span, Search, Tidy, Groups, ParseV6, GroupsOf;
    V6RoundTrip(a);
    var text := Join(FullItems(a));
    TextFits(a);
    var buf := new char[100];
    var n := |text|;
    forall i | 0 <= i < n {
      buf[i] := text[i];
    }
    assert buf[..n] == text;
    var best, max := FindLongest(buf, n);
    if max > 3 {
      assert buf[..best] == text[..best] && buf[best + max..n] == text[best + max..];
      Cut(buf, n, best, max);
      n := n - max + 2;
    }
    assert buf[..n] == PrintV6(a);
    return if n < size then Some(buf[..n]) else None;
  }

  /** The longest text fits the buffer. */
  lemma TextFits(a: bytes)
    requires |a| == 16
    ensures |Join(FullItems(a))| < 52
  {
    hide Join;
    FullTidy(a);
    ItemCount(a);
    JoinLength(FullItems(a));
  }

  lemma ItemCount(a: bytes)
    requires |a| == 16
    ensures |FullItems(a)| <= 8
  {
  }

  /** `inet_ntop` for `AF_INET`. */
  method NtopV4(a: bytes, size: nat) returns (r: Option<string>)
    requires |a| == 4
    ensures r == if |Dotted(a)| < size then Some(Dotted(a)) else None
    ensures size >= 17 ==> r.Some?
    ensures r.Some? ==> ParseV4(r.value) == Some(a)
  {
    DottedLength(a);
    V4RoundTrip(a);
    var text := Dotted(a);
    return if |text| < size then Some(text) else None;
  }
}
