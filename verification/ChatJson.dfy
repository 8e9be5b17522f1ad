/**
  The chat engine's hand-made JSON: a builder that concatenates, and an extractor that looks for
  the first `"key":"` in the text.
 */
module ChatJson {
  import opened Wrappers

  // ---------------------------------------------------------------- text search

  /** `find` and the step past the match: what follows the first occurrence. */
  function AfterFirst(s: string, pat: string): (r: Option<string>)
    ensures r.Some? ==> |r.value| <= |s| && r.value == s[|s| - |r.value|..]
  {
    if pat <= s then Some(s[|pat|..]) else if s == [] then None else AfterFirst(s[1..], pat)
  }

  /** `substr` up to the first stop character, or to the end. */
  function UpTo(s: string, stops: set<char>): (r: string)
    ensures r <= s && (forall c | c in r :: c !in stops) && (|r| < |s| ==> s[|r|] in stops)
  {
    if s == [] || s[0] in stops then [] else [s[0]] + UpTo(s[1..], stops)
  }

  const QUOTE: string := ['"']

  /** The text searched for: the quoted key and what must follow it. */
  function Pattern(key: string, more: string): string {
    QUOTE + (key + (QUOTE + more))
  }

  /** `jsonGet`. */
  function JsonGet(json: string, key: string): string {
    match AfterFirst(json, Pattern(key, [':', '"']))
    case Some(rest) => UpTo(rest, {'"'})
    case None =>
      match AfterFirst(json, Pattern(key, [':']))
      case Some(rest) => UpTo(rest, {',', '}'})
      case None => []
  }

  // ---------------------------------------------------------------- objects

  datatype Field = Field(key: string, value: string)

  predicate NoQuote(s: string) {
    '"' !in s
  }

  predicate Clean(f: Field) {
    NoQuote(f.key) && NoQuote(f.value)
  }

  /** One field of an object of strings, and what follows it. */
  function FieldText(f: Field, rest: string): string {
    QUOTE + (f.key + (QUOTE + ([':'] + (QUOTE + (f.value + (QUOTE + rest))))))
  }

  function Tail(fs: seq<Field>): string {
    if fs == [] then ['}']
    else FieldText(fs[0], if |fs| == 1 then ['}'] else [','] + Tail(fs[1..]))
  }

  /** `{"key":"value",...}`. */
  function Render(fs: seq<Field>): string {
    ['{'] + Tail(fs)
  }

  /** A key that can be searched for: not one of the separators that stand between quotes. */
  predicate Searchable(key: string) {
    NoQuote(key) && key != [':'] && key != [',']
  }

  function Lookup(fs: seq<Field>, key: string): string {
    if fs == [] then [] else if fs[0].key == key then fs[0].value else Lookup(fs[1..], key)
  }

  // ---------------------------------------------------------------- where the pattern can match

  lemma {:induction false} SkipPlain(a: string, s: string, pat: string)
    requires NoQuote(a) && pat != [] && pat[0] == '"'
    ensures AfterFirst(a + s, pat) == AfterFirst(s, pat)
  {
    if a == [] {
      assert a + s == s;
    } else {
      assert (a + s)[0] == a[0] && a[0] in a;
      assert (a + s)[1..] == a[1..] + s;
      SkipPlain(a[1..], s, pat);
    }
  }

  /** Two quoted words agree only if they are the same word. */
  lemma {:induction false} QuotedSame(a: string, b: string, s: string, t: string)
    requires NoQuote(a) && NoQuote(b)
    ensures a + (QUOTE + s) <= b + (QUOTE + t) <==> a == b && s <= t
  {
    var left, right := a + (QUOTE + s), b + (QUOTE + t);
    if a == [] || b == [] {
      if a == b {
        assert left == QUOTE + s && right == QUOTE + t;
        assert left[1..] == s && right[1..] == t;
        Prefix(QUOTE, s, t);
      } else if a == [] {
        assert left[0] == '"' && right[0] == b[0] && b[0] in b;
      } else {
        assert right[0] == '"' && left[0] == a[0] && a[0] in a;
      }
    } else {
      assert left == [a[0]] + (a[1..] + (QUOTE + s));
      assert right == [b[0]] + (b[1..] + (QUOTE + t));
      QuotedSame(a[1..], b[1..], s, t);
      if a[0] == b[0] {
        Prefix([a[0]], a[1..] + (QUOTE + s), b[1..] + (QUOTE + t));
        assert a == [a[0]] + a[1..] && b == [b[0]] + b[1..];
        assert a == b <==> a[1..] == b[1..];
      } else {
        assert left[0] != right[0];
      }
    }
  }

  lemma Prefix(a: string, s: string, t: string)
    ensures a + s <= a + t <==> s <= t
  {
    if a + s <= a + t {
      assert s == (a + s)[|a|..] && t == (a + t)[|a|..];
      assert a + s == (a + t)[..|a| + |s|];
      assert s == t[..|s|];
    }
  }

  /** At a quote the pattern matches exactly the same word with the same continuation. */
  lemma AtQuote(key: string, more: string, word: string, rest: string)
    requires NoQuote(key) && NoQuote(word)
    ensures var s := QUOTE + (word + (QUOTE + rest));
      && (key == word && more <= rest ==> AfterFirst(s, Pattern(key, more)) == Some(rest[|more|..]))
      && (!(key == word && more <= rest) ==>
            AfterFirst(s, Pattern(key, more)) == AfterFirst(QUOTE + rest, Pattern(key, more)))
  {
    var s, pat := QUOTE + (word + (QUOTE + rest)), Pattern(key, more);
    Prefix(QUOTE, key + (QUOTE + more), word + (QUOTE + rest));
    QuotedSame(key, word, more, rest);
    if key == word && more <= rest {
      assert s[|pat|..] == rest[|more|..];
    } else {
      assert s[1..] == word + (QUOTE + rest);
      SkipPlain(word, QUOTE + rest, pat);
    }
  }

  predicate Follows(more: string) {
    more == [':'] || more == [':', '"']
  }

  /** A field with another key holds no match: not at its key, its value, or the punctuation between. */
  lemma FieldSkipped(f: Field, rest: string, key: string, more: string)
    requires Clean(f) && Searchable(key) && Follows(more) && f.key != key && (rest != [] ==> rest[0] != ':')
    ensures AfterFirst(FieldText(f, rest), Pattern(key, more)) == AfterFirst(QUOTE + rest, Pattern(key, more))
  {
    hide AfterFirst, Pattern;
    var value := f.value + (QUOTE + rest);
    AtQuote(key, more, f.key, [':'] + (QUOTE + value));
    AtQuote(key, more, [':'], value);
    AtQuote(key, more, f.value, rest);
    assert !(more <= rest);
  }

  lemma EndSkipped(key: string, more: string)
    requires Follows(more)
    ensures AfterFirst(QUOTE + ['}'], Pattern(key, more)) == None
  {
    var s, pat := QUOTE + ['}'], Pattern(key, more);
    assert |pat| >= 3;
    assert s[1..] == ['}'] && s[1..][1..] == [];
    assert AfterFirst([], pat) == None;
  }

  lemma TailStarts(fs: seq<Field>)
    requires fs != []
    ensures Tail(fs) == QUOTE + Tail(fs)[1..]
  {
  }

  lemma TailSkips(fs: seq<Field>, key: string, more: string)
    requires fs != [] && Clean(fs[0]) && Searchable(key) && Follows(more) && fs[0].key != key
    ensures AfterFirst(Tail(fs), Pattern(key, more)) ==
      if |fs| == 1 then None else AfterFirst(Tail(fs[1..]), Pattern(key, more))
  {
    hide AfterFirst, Pattern, FieldText;
    if |fs| == 1 {
      FieldSkipped(fs[0], ['}'], key, more);
      EndSkipped(key, more);
    } else {
      var rest := Tail(fs[1..]);
      TailStarts(fs[1..]);
      FieldSkipped(fs[0], [','] + rest, key, more);
      assert [','] + rest == [','] + (QUOTE + rest[1..]);
      AtQuote(key, more, [','], rest[1..]);
    }
  }

  lemma TailFinds(fs: seq<Field>)
    requires fs != [] && NoQuote(fs[0].key)
    ensures var r := AfterFirst(Tail(fs), Pattern(fs[0].key, [':', '"']));
      r.Some? && UpTo(r.value, {'"'}) == UpTo(fs[0].value, {'"'})
  {
    hide AfterFirst, Pattern, UpTo;
    var rest := if |fs| == 1 then ['}'] else [','] + Tail(fs[1..]);
    var value := fs[0].value + (QUOTE + rest);
    var after := [':'] + (QUOTE + value);
    assert [':', '"'] <= after && after[2..] == value;
    AtQuote(fs[0].key, [':', '"'], fs[0].key, after);
    UpToQuote(fs[0].value, rest);
  }

  lemma {:induction false} UpToQuote(v: string, rest: string)
    ensures UpTo(v + (QUOTE + rest), {'"'}) == UpTo(v, {'"'})
  {
    var s := v + (QUOTE + rest);
    if v == [] {
      assert s[0] == '"';
    } else {
      assert s[0] == v[0] && s[1..] == v[1..] + (QUOTE + rest);
      UpToQuote(v[1..], rest);
    }
  }

  lemma {:induction false} FindsIn(fs: seq<Field>, i: nat)
    requires i < |fs| && Searchable(fs[i].key)
    requires forall j | 0 <= j < i :: Clean(fs[j]) && fs[j].key != fs[i].key
    ensures var r := AfterFirst(Tail(fs), Pattern(fs[i].key, [':', '"']));
      r.Some? && UpTo(r.value, {'"'}) == UpTo(fs[i].value, {'"'})
  {
    hide AfterFirst, Pattern, UpTo, Tail;
    if i == 0 {
      TailFinds(fs);
    } else {
      TailSkips(fs, fs[i].key, [':', '"']);
      FindsIn(fs[1..], i - 1);
    }
  }

  lemma BraceSkipped(s: string, key: string, more: string)
    ensures AfterFirst(['{'] + s, Pattern(key, more)) == AfterFirst(s, Pattern(key, more))
  {
    SkipPlain(['{'], s, Pattern(key, more));
  }

  /** The first match of a key is the field with that key, when the fields before it hold no quote. */
  lemma JsonGetFinds(fs: seq<Field>, i: nat)
    requires i < |fs| && Searchable(fs[i].key)
    requires forall j | 0 <= j < i :: Clean(fs[j]) && fs[j].key != fs[i].key
    ensures JsonGet(Render(fs), fs[i].key) == UpTo(fs[i].value, {'"'})
  {
    hide AfterFirst, Pattern, UpTo, Tail;
    BraceSkipped(Tail(fs), fs[i].key, [':', '"']);
    FindsIn(fs, i);
  }

  /** A value comes back whole exactly when it holds no quote. */
  lemma {:induction false} WholeValue(v: string)
    ensures UpTo(v, {'"'}) == v <==> NoQuote(v)
  {
  }

  lemma {:induction false} AbsentIn(fs: seq<Field>, key: string, more: string)
    requires Searchable(key) && Follows(more) && fs != [] && forall f | f in fs :: Clean(f) && f.key != key
    ensures AfterFirst(Tail(fs), Pattern(key, more)) == None
  {
    hide AfterFirst, Pattern, Tail;
    TailSkips(fs, key, more);
    if |fs| > 1 {
      AbsentIn(fs[1..], key, more);
    }
  }

  lemma {:induction false} LookupIs(fs: seq<Field>, key: string) returns (i: nat)
    ensures i <= |fs| && (forall j | 0 <= j < i :: fs[j].key != key)
    ensures if i < |fs| then fs[i].key == key && Lookup(fs, key) == fs[i].value else Lookup(fs, key) == []
  {
    if fs == [] || fs[0].key == key {
      i := 0;
    } else {
      i := LookupIs(fs[1..], key);
      i := i + 1;
    }
  }

  /** Extracting from an object of strings without quotes is looking the key up. */
  lemma ObjectRoundTrip(fs: seq<Field>, key: string)
    requires fs != [] && Searchable(key) && forall f | f in fs :: Clean(f)
    ensures JsonGet(Render(fs), key) == Lookup(fs, key)
  {
    hide AfterFirst, Pattern, UpTo, Tail, Lookup;
    var i := LookupIs(fs, key);
    if i < |fs| {
      assert fs[i] in fs;
      assert forall j | 0 <= j < i :: fs[j] in fs;
      JsonGetFinds(fs, i);
      WholeValue(fs[i].value);
    } else {
      BraceSkipped(Tail(fs), key, [':', '"']);
      BraceSkipped(Tail(fs), key, [':']);
      AbsentIn(fs, key, [':', '"']);
      AbsentIn(fs, key, [':']);
    }
  }

  // ---------------------------------------------------------------- messages

  datatype MessageType = Text | Image | Video | Like | System

  datatype MessageStatus = Pending | Sent | Delivered | Read | Failed

  datatype ChatMessage = ChatMessage(id: string, conversationId: string, senderId: string, recipientId: string,
                                     kind: MessageType, text: string, mediaUrl: string, status: MessageStatus,
                                     timestamp: int)

  function TypeText(t: MessageType): string {
    match t
    case Image => "image"
    case Video => "video"
    case Like => "like"
    case _ => "text"
  }

  function TypeOf(s: string): MessageType {
    if s == "image" then Image else if s == "video" then Video else if s == "like" then Like else Text
  }

  /** The keys in the order they are written. */
  function Key(i: nat): string {
    if i == 0 then "type" else if i == 1 then "id" else if i == 2 then "conversationId" else if i == 3 then "senderId"
    else if i == 4 then "recipientId" else if i == 5 then "msgType" else if i == 6 then "text" else "mediaUrl"
  }

  function KeyValue(m: ChatMessage, i: nat): string {
    if i == 0 then "message" else if i == 1 then m.id else if i == 2 then m.conversationId
    else if i == 3 then m.senderId else if i == 4 then m.recipientId else if i == 5 then TypeText(m.kind)
    else if i == 6 then m.text else m.mediaUrl
  }

  function MessageFields(m: ChatMessage): (fs: seq<Field>)
    ensures |fs| == 8 && forall i | 0 <= i < 8 :: fs[i] == Field(Key(i), KeyValue(m, i))
  {
    seq(8, i requires 0 <= i < 8 => Field(Key(i), KeyValue(m, i)))
  }

  /** `buildMessageJson`. */
  function BuildMessageJson(m: ChatMessage): string {
    Render(MessageFields(m))
  }

  /** The message the `"message"` branch of `onRawMessage` makes for user `me`; the source leaves the time unset. */
  function ParseMessage(json: string, me: string, timestamp: int): ChatMessage {
    ChatMessage(JsonGet(json, Key(1)), JsonGet(json, Key(2)), JsonGet(json, Key(3)), me,
                TypeOf(JsonGet(json, Key(5))), JsonGet(json, Key(6)), JsonGet(json, Key(7)), Delivered, timestamp)
  }

  lemma TypeBack(t: MessageType)
    ensures TypeOf(TypeText(t)) == (if t == System then Text else t) && NoQuote(TypeText(t))
  {
  }

  lemma KeyPlain(i: nat)
    requires i < 8
    ensures Searchable(Key(i))
  {
  }

  /** The eight keys are different words. */
  lemma KeysDiffer(i: nat, j: nat)
    requires i < 8 && j < 8 && i != j
    ensures Key(i) != Key(j)
  {
  }

  lemma FixedClean(m: ChatMessage)
    ensures NoQuote(KeyValue(m, 0)) && NoQuote(KeyValue(m, 5))
  {
  }

  /** Field `i` of a built message is read back up to its first quote, when the fields before it hold none. */
  lemma MessageField(m: ChatMessage, i: nat)
    requires i < 8 && forall j | 0 <= j < i :: NoQuote(KeyValue(m, j))
    ensures JsonGet(BuildMessageJson(m), Key(i)) == UpTo(KeyValue(m, i), {'"'})
  {
    hide JsonGet, Render, Key, KeyValue, Searchable, UpTo;
    var fs := MessageFields(m);
    KeyPlain(i);
    forall j | 0 <= j < i ensures Clean(fs[j]) && fs[j].key != fs[i].key {
      KeyPlain(j);
      PlainKey(Key(j));
      KeysDiffer(j, i);
    }
    JsonGetFinds(fs, i);
  }

  lemma PlainKey(key: string)
    requires Searchable(key)
    ensures NoQuote(key)
  {
  }

  /** The fields a reader of the message gets back. */
  predicate Recovered(m: ChatMessage, me: string, timestamp: int) {
    var r := ParseMessage(BuildMessageJson(m), me, timestamp);
    r == m.(recipientId := me, status := Delivered, timestamp := timestamp)
  }

  // ---------------------------------------------------------------- a recipient with quotes

  /** A key that no text ending in a quote and a comma can complete. */
  predicate Word(key: string) {
    Searchable(key) && (key != [] ==> key[0] != ',')
  }

  function FieldPattern(key: string): string {
    Pattern(key, [':', '"'])
  }

  /** A match that starts inside a quoted value ends there too. */
  lemma {:induction false} MatchStays(v: string, rest: string, key: string)
    requires Word(key) && rest != [] && rest[0] == ','
    ensures AfterFirst(v + (QUOTE + rest), FieldPattern(key)) ==
      match AfterFirst(v + QUOTE, FieldPattern(key))
      case Some(t) => Some(t + rest)
      case None => AfterFirst(QUOTE + rest, FieldPattern(key))
    decreases |v|
  {
    hide FieldPattern, Word, AfterFirst;
    var pat := FieldPattern(key);
    FirstHere(v + QUOTE, pat);
    FirstHere(v + (QUOTE + rest), pat);
    if pat <= v + QUOTE {
      MatchInside(v + QUOTE, rest, pat);
      assert v + (QUOTE + rest) == v + QUOTE + rest;
    } else {
      PatternQuotes(key);
      NoStraddle(pat, v, rest);
      if v == [] {
        NothingBefore(rest);
        FirstHere([], pat);
      } else {
        FirstDropped(v, QUOTE);
        FirstDropped(v, QUOTE + rest);
        MatchStays(v[1..], rest, key);
      }
    }
  }

  lemma MatchInside(s: string, rest: string, pat: string)
    requires pat <= s
    ensures pat <= s + rest && (s + rest)[|pat|..] == s[|pat|..] + rest
  {
  }

  lemma NothingBefore(rest: string)
    ensures [] + QUOTE == QUOTE && ([] + QUOTE)[1..] == [] && [] + (QUOTE + rest) == QUOTE + rest
  {
  }

  lemma FirstDropped(v: string, s: string)
    requires v != []
    ensures (v + s)[1..] == v[1..] + s
  {
  }

  lemma FirstHere(s: string, pat: string)
    ensures AfterFirst(s, pat) ==
      if pat <= s then Some(s[|pat|..]) else if s == [] then None else AfterFirst(s[1..], pat)
  {
  }

  lemma NoStraddle(pat: string, v: string, rest: string)
    requires |pat| > 1 && (forall i | 0 <= i < |pat| - 1 :: pat[i] == '"' ==> pat[i + 1] != ',')
    requires rest != [] && rest[0] == ',' && !(pat <= v + QUOTE)
    ensures !(pat <= v + (QUOTE + rest))
  {
    var outer := v + (QUOTE + rest);
    if |pat| <= |v| + 1 {
      assert outer == (v + QUOTE) + rest;
      assert outer[..|pat|] == (v + QUOTE)[..|pat|];
    } else {
      assert outer[|v|] == '"' && outer[|v| + 1] == ',';
      assert pat[|v|] == '"' ==> pat[|v| + 1] != ',';
    }
  }

  lemma PatternQuotes(key: string)
    requires Word(key)
    ensures var pat := FieldPattern(key);
      |pat| > 1 && forall i | 0 <= i < |pat| - 1 :: pat[i] == '"' ==> pat[i + 1] != ','
  {
  }

  /** The value a reader takes from inside a field that holds quotes, if it takes any. */
  function Forged(v: string, key: string): (r: Option<string>)
    ensures r.Some? ==> NoQuote(r.value)
  {
    match AfterFirst(QUOTE + (v + QUOTE), FieldPattern(key))
    case None => None
    case Some(t) => Some(if t == [] then [','] else UpTo(t, {'"'}))
  }

  lemma KeySkipped(f: Field, rest: string, key: string)
    requires NoQuote(f.key) && Searchable(key) && f.key != key
    ensures AfterFirst(FieldText(f, rest), FieldPattern(key)) ==
      AfterFirst(QUOTE + (f.value + (QUOTE + rest)), FieldPattern(key))
  {
    hide AfterFirst, Pattern;
    var value := f.value + (QUOTE + rest);
    AtQuote(key, [':', '"'], f.key, [':'] + (QUOTE + value));
    AtQuote(key, [':', '"'], [':'], value);
  }

  lemma CommaSkipped(fs: seq<Field>, key: string)
    requires fs != [] && Searchable(key)
    ensures AfterFirst(QUOTE + ([','] + Tail(fs)), FieldPattern(key)) == AfterFirst(Tail(fs), FieldPattern(key))
  {
    hide AfterFirst, Pattern, Tail;
    TailStarts(fs);
    assert [','] + Tail(fs) == [','] + (QUOTE + Tail(fs)[1..]);
    AtQuote(key, [':', '"'], [','], Tail(fs)[1..]);
  }

  /** A quoted value, and what a reader makes of it when it comes before the key that is looked for. */
  lemma ValuePassed(v: string, rest: string, key: string)
    requires Word(key) && |rest| > 1 && rest[0] == ',' && rest[1] == '"'
    ensures var r := AfterFirst(QUOTE + (v + (QUOTE + rest)), FieldPattern(key));
      match Forged(v, key)
      case Some(w) => r.Some? && UpTo(r.value, {'"'}) == w
      case None => r == AfterFirst(QUOTE + rest, FieldPattern(key))
  {
    hide AfterFirst, FieldPattern, UpTo, Word;
    assert QUOTE + (v + (QUOTE + rest)) == (QUOTE + v) + (QUOTE + rest) && QUOTE + (v + QUOTE) == (QUOTE + v) + QUOTE;
    MatchStays(QUOTE + v, rest, key);
    var inner := AfterFirst((QUOTE + v) + QUOTE, FieldPattern(key));
    if inner.Some? {
      EndsInQuote(QUOTE + v, inner.value);
      ForgedValue(inner.value, rest);
    }
  }

  /** Extracting past a field with any value: what it forges, or what comes after it. */
  lemma DirtySkipped(fs: seq<Field>, key: string)
    requires |fs| > 1 && NoQuote(fs[0].key) && Word(key) && fs[0].key != key
    ensures var r := AfterFirst(Tail(fs), FieldPattern(key));
      match Forged(fs[0].value, key)
      case Some(v) => r.Some? && UpTo(r.value, {'"'}) == v
      case None => r == AfterFirst(Tail(fs[1..]), FieldPattern(key))
  {
    hide AfterFirst, FieldPattern, UpTo, Searchable, FieldText, Forged;
    var rest := [','] + Tail(fs[1..]);
    TailStarts(fs[1..]);
    assert rest[1] == Tail(fs[1..])[0] == '"' && |rest| > 1;
    KeySkipped(fs[0], rest, key);
    ValuePassed(fs[0].value, rest, key);
    CommaSkipped(fs[1..], key);
  }

  lemma EndsInQuote(v: string, t: string)
    requires |t| <= |v| + 1 && t == (v + QUOTE)[|v| + 1 - |t|..]
    ensures t != [] ==> t == t[..|t| - 1] + QUOTE
  {
  }

  lemma ForgedValue(t: string, rest: string)
    requires (t != [] ==> t == t[..|t| - 1] + QUOTE) && |rest| > 1 && rest[0] == ',' && rest[1] == '"'
    ensures UpTo(t + rest, {'"'}) == if t == [] then [','] else UpTo(t, {'"'})
  {
    hide UpTo;
    if t == [] {
      ForgedComma(rest);
      assert t + rest == rest;
    } else {
      QuoteEnds(t[..|t| - 1], rest);
    }
  }

  lemma QuoteEnds(front: string, rest: string)
    ensures UpTo((front + QUOTE) + rest, {'"'}) == UpTo(front + QUOTE, {'"'})
  {
    hide UpTo;
    assert (front + QUOTE) + rest == front + (QUOTE + rest);
    assert front + QUOTE == front + (QUOTE + []);
    UpToQuote(front, []);
    UpToQuote(front, rest);
  }

  lemma ForgedComma(rest: string)
    requires |rest| > 1 && rest[0] == ',' && rest[1] == '"'
    ensures UpTo(rest, {'"'}) == [',']
  {
    hide UpTo;
    assert rest == [','] + (QUOTE + rest[2..]);
    UpToQuote([','], rest[2..]);
    CommaValue();
  }

  lemma CommaValue()
    ensures UpTo([','], {'"'}) == [',']
  {
  }

  /** A value without quotes forges nothing. */
  lemma PlainForgesNothing(v: string, key: string)
    requires NoQuote(v) && Word(key)
    ensures Forged(v, key) == None
  {
    hide Pattern;
    PlainKey(key);
    assert QUOTE + (v + QUOTE) == QUOTE + (v + (QUOTE + []));
    AtQuote(key, [':', '"'], v, []);
    LoneQuote(key);
  }

  lemma LoneQuote(key: string)
    ensures AfterFirst(QUOTE + [], FieldPattern(key)) == None
  {
    var pat := FieldPattern(key);
    assert |pat| > 1 && (QUOTE + [])[1..] == [];
    assert AfterFirst([], pat) == None;
  }

  lemma KeyWord(i: nat)
    requires i < 8
    ensures Word(Key(i))
  {
    KeyPlain(i);
  }

  /** What is read for a field behind the recipient: what the recipient forges, or the value up to its first quote. */
  function Seen(m: ChatMessage, i: nat): string {
    match Forged(m.recipientId, Key(i))
    case Some(v) => v
    case None => UpTo(KeyValue(m, i), {'"'})
  }

  lemma {:induction false} SkipsClean(fs: seq<Field>, n: nat, key: string)
    requires n < |fs| && Searchable(key) && forall j | 0 <= j < n :: Clean(fs[j]) && fs[j].key != key
    ensures AfterFirst(Tail(fs), FieldPattern(key)) == AfterFirst(Tail(fs[n..]), FieldPattern(key))
  {
    hide AfterFirst, Pattern, Tail, Searchable;
    if n == 0 {
      assert fs[0..] == fs;
    } else {
      TailSkips(fs, key, [':', '"']);
      SkipsClean(fs[1..], n - 1, key);
      assert fs[1..][n - 1..] == fs[n..];
    }
  }

  /** Any field behind the recipient, when the other fields before it hold no quote. */
  lemma BehindRecipient(m: ChatMessage, i: nat)
    requires 5 <= i < 8 && forall j | 0 <= j < i && j != 4 :: NoQuote(KeyValue(m, j))
    ensures JsonGet(BuildMessageJson(m), Key(i)) == Seen(m, i)
  {
    hide AfterFirst, Tail, Key, KeyValue, Searchable, UpTo, Forged, Word, NoQuote, JsonGet, FieldPattern;
    var fs, key := MessageFields(m), Key(i);
    KeyPlain(i);
    KeyWord(i);
    forall j | 0 <= j < 8 && j != i ensures fs[j].key != key && NoQuote(fs[j].key) {
      KeyPlain(j);
      PlainKey(Key(j));
      KeysDiffer(j, i);
    }
    BraceSkipsField(Tail(fs), key);
    SkipsClean(fs, 4, key);
    DirtySkipped(fs[4..], key);
    assert fs[4..][1..] == fs[5..];
    BehindFinds(fs[5..], i - 5);
    JsonFound(Render(fs), key);
    assert fs[4].value == m.recipientId by { RecipientField(m); }
  }

  lemma RecipientField(m: ChatMessage)
    ensures KeyValue(m, 4) == m.recipientId
  {
  }

  lemma BraceSkipsField(s: string, key: string)
    ensures AfterFirst(['{'] + s, FieldPattern(key)) == AfterFirst(s, FieldPattern(key))
  {
    hide AfterFirst, Pattern;
    BraceSkipped(s, key, [':', '"']);
  }

  lemma JsonFound(json: string, key: string)
    requires AfterFirst(json, FieldPattern(key)).Some?
    ensures JsonGet(json, key) == UpTo(AfterFirst(json, FieldPattern(key)).value, {'"'})
  {
    hide AfterFirst, UpTo, Pattern;
  }

  lemma BehindFinds(fs: seq<Field>, i: nat)
    requires i < |fs| && Searchable(fs[i].key)
    requires forall j | 0 <= j < i :: Clean(fs[j]) && fs[j].key != fs[i].key
    ensures var r := AfterFirst(Tail(fs), FieldPattern(fs[i].key));
      r.Some? && UpTo(r.value, {'"'}) == UpTo(fs[i].value, {'"'})
  {
    hide AfterFirst, UpTo, Pattern, Tail;
    FindsIn(fs, i);
  }

  /** A value that reads back whole holds no quote. */
  lemma SeenClean(m: ChatMessage, i: nat)
    ensures NoQuote(Seen(m, i))
  {
    hide Key, KeyValue;
  }

  /**
    A message is recovered exactly when id, conversation and sender hold no quote and the recipient
    lets the type, the text and the media url through: it forges none of them, and they hold no
    quote, or what it forges is what they are.
   */
  lemma MessageRoundTrip(m: ChatMessage, me: string, timestamp: int)
    ensures Recovered(m, me, timestamp) <==>
      && NoQuote(m.id) && NoQuote(m.conversationId) && NoQuote(m.senderId)
      && TypeOf(Seen(m, 5)) == m.kind && Seen(m, 6) == m.text && Seen(m, 7) == m.mediaUrl
  {
    hide JsonGet, BuildMessageJson, Key, UpTo, NoQuote, TypeOf, Seen;
    FixedClean(m);
    HeadersRead(m);
    if NoQuote(m.id) && NoQuote(m.conversationId) && NoQuote(m.senderId) {
      BehindRecipient(m, 5);
      BehindRecipient(m, 6);
      SeenClean(m, 6);
      if Seen(m, 6) == m.text {
        BehindRecipient(m, 7);
      }
    }
  }

  /** Id, conversation and sender come back for any recipient, exactly as far as they hold no quote. */
  lemma HeadersRead(m: ChatMessage)
    ensures var json := BuildMessageJson(m);
      && (JsonGet(json, Key(1)) == m.id <==> NoQuote(m.id))
      && (NoQuote(m.id) ==> (JsonGet(json, Key(2)) == m.conversationId <==> NoQuote(m.conversationId)))
      && (NoQuote(m.id) && NoQuote(m.conversationId) ==> (JsonGet(json, Key(3)) == m.senderId <==> NoQuote(m.senderId)))
  {
    hide JsonGet, BuildMessageJson, Key, UpTo, NoQuote;
    FixedClean(m);
    MessageField(m, 1);
    WholeValue(m.id);
    if NoQuote(m.id) {
      MessageField(m, 2);
      WholeValue(m.conversationId);
      if NoQuote(m.conversationId) {
        MessageField(m, 3);
        WholeValue(m.senderId);
      }
    }
  }

  /** With a plain recipient: exactly when the five fields that are read hold no quote and it is no system message. */
  lemma PlainRecipient(m: ChatMessage, me: string, timestamp: int)
    requires NoQuote(m.recipientId)
    ensures Recovered(m, me, timestamp) <==>
      && m.kind != System && NoQuote(m.id) && NoQuote(m.conversationId) && NoQuote(m.senderId)
      && NoQuote(m.text) && NoQuote(m.mediaUrl)
  {
    hide Recovered, Key, UpTo, NoQuote, TypeOf, TypeText, Forged, Word;
    MessageRoundTrip(m, me, timestamp);
    forall i | 5 <= i < 8 ensures Forged(m.recipientId, Key(i)) == None {
      KeyWord(i);
      PlainForgesNothing(m.recipientId, Key(i));
    }
    TypeBack(m.kind);
    FixedClean(m);
    WholeValue(KeyValue(m, 5));
    WholeValue(m.text);
    WholeValue(m.mediaUrl);
  }

  /** A recipient that puts any text in place of the one that was sent. */
  lemma TextReplaced(m: ChatMessage, v: string)
    requires NoQuote(v) && m.recipientId == QUOTE + (Key(6) + (QUOTE + ([':'] + (QUOTE + v))))
    requires NoQuote(m.id) && NoQuote(m.conversationId) && NoQuote(m.senderId)
    ensures JsonGet(BuildMessageJson(m), Key(6)) == v
  {
    hide JsonGet, BuildMessageJson, NoQuote, TypeText, Key, Word, Forged;
    FixedClean(m);
    BehindRecipient(m, 6);
    KeyWord(6);
    EmptyWord();
    Forges(Key(6), v);
  }

  lemma Forges(key: string, v: string)
    requires Word(key) && key != [] && NoQuote(v)
    ensures Forged(QUOTE + (key + (QUOTE + ([':'] + (QUOTE + v)))), key) == Some(v)
  {
    hide AfterFirst, UpTo, Pattern, NoQuote;
    var value := QUOTE + (v + QUOTE);
    WordPlain(key);
    EmptyWord();
    var inner := key + (QUOTE + ([':'] + value));
    assert QUOTE + ((QUOTE + (key + (QUOTE + ([':'] + (QUOTE + v))))) + QUOTE) == QUOTE + ([] + (QUOTE + inner));
    AtQuote(key, [':', '"'], [], inner);
    assert ([':'] + value)[2..] == v + QUOTE && [':', '"'] <= [':'] + value;
    AtQuote(key, [':', '"'], key, [':'] + value);
    QuotedValue(v);
  }

  lemma QuotedValue(v: string)
    requires NoQuote(v)
    ensures UpTo(v + QUOTE, {'"'}) == v
  {
    hide UpTo;
    UpToQuote(v, []);
    assert v + QUOTE == v + (QUOTE + []);
    WholeValue(v);
  }

  lemma EmptyWord()
    ensures NoQuote([]) && Key(6) != []
  {
  }

  lemma WordPlain(key: string)
    requires Word(key)
    ensures NoQuote(key)
  {
  }

  /** Whatever its fields hold, a built message is read as one. */
  lemma BuiltIsMessage(m: ChatMessage)
    ensures JsonGet(BuildMessageJson(m), Key(0)) == "message"
  {
    hide JsonGet, BuildMessageJson, Key, UpTo, NoQuote;
    FixedClean(m);
    MessageField(m, 0);
    WholeValue(KeyValue(m, 0));
  }

  // ---------------------------------------------------------------- the engine

  /** What the engine tells its callbacks. */
  datatype Report =
    | Received(msg: ChatMessage)
    | StatusChanged(id: string, status: MessageStatus)
    | TypingChanged(conversationId: string, typing: bool)
    | PresenceChanged(userId: string, online: bool)

  predicate Truth(s: string) {
    s == "true" || s == "1"
  }

  function StatusIn(s: string): MessageStatus {
    if s == "delivered" then Delivered else if s == "read" then Read else Sent
  }

  /** The callback `onRawMessage` makes, if any. */
  function Reaction(json: string, me: string, timestamp: int): Option<Report> {
    var kind := JsonGet(json, Key(0));
    if kind == "message" then Some(Received(ParseMessage(json, me, timestamp)))
    else if kind == "status" then Some(StatusChanged(JsonGet(json, "msgId"), StatusIn(JsonGet(json, "status"))))
    else if kind == "typing" then Some(TypingChanged(JsonGet(json, Key(2)), Truth(JsonGet(json, "isTyping"))))
    else if kind == "presence" then Some(PresenceChanged(JsonGet(json, "userId"), Truth(JsonGet(json, "isOnline"))))
    else None
  }

  function Acknowledgement(id: string): string {
    Render([Field("type", "delivered"), Field("msgId", id)])
  }

  /** An object of strings whose last value is a word without quotes around it. */
  function Flagged(fs: seq<Field>, key: string, word: string): string {
    if fs == [] then QUOTE + (key + (QUOTE + ([':'] + (word + ['}']))))
    else FieldText(fs[0], [','] + Flagged(fs[1..], key, word))
  }

  function Flag(on: bool): string {
    if on then "true" else "false"
  }

  /** What `sendTypingStart` and `sendTypingStop` send. */
  function TypingJson(conversationId: string, typing: bool): string {
    ['{'] + Flagged([Field("type", "typing"), Field("conversationId", conversationId)], "isTyping", Flag(typing))
  }

  /** What `setUserOnline` sends. */
  function PresenceJson(online: bool): string {
    ['{'] + Flagged([Field("type", "presence")], "isOnline", Flag(online))
  }

  /** What `markRead` sends. */
  function ReadJson(conversationId: string): string {
    Render([Field("type", "read"), Field("conversationId", conversationId)])
  }

  type Store = map<string, seq<ChatMessage>>

  function Stored(store: Store, conversationId: string): seq<ChatMessage> {
    if conversationId in store then store[conversationId] else []
  }

  function WithMessage(store: Store, msg: ChatMessage): Store {
    store[msg.conversationId := Stored(store, msg.conversationId) + [msg]]
  }

  class ChatEngine {
    const userId: string
    var connected: bool
    var messages: Store
    var offlineQueue: seq<string>
    var sent: seq<string>
    var reports: seq<Report>

    constructor (user: string)
      ensures userId == user && !connected && messages == map[] && offlineQueue == sent == [] && reports == []
    {
      userId, connected, messages, offlineQueue, sent, reports := user, false, map[], [], [], [];
    }

    /** One text went to the socket, or to the queue while offline, after all that went before it. */
    twostate predicate Emitted(json: string)
      reads this
    {
      if connected then sent == old(sent) + [json] && offlineQueue == old(offlineQueue)
      else sent == old(sent) && offlineQueue == old(offlineQueue) + [json]
    }

    method SendRaw(json: string)
      modifies this`sent, this`offlineQueue
      ensures Emitted(json)
    {
      if connected {
        sent := sent + [json];
      } else {
        offlineQueue := offlineQueue + [json];
      }
    }

    method StoreMessage(msg: ChatMessage)
      modifies this`messages
      ensures messages == WithMessage(old(messages), msg)
      ensures messages == old(messages)[msg.conversationId :=
        (if msg.conversationId in old(messages) then old(messages)[msg.conversationId] else []) + [msg]]
    {
      messages := messages[msg.conversationId := Stored(messages, msg.conversationId) + [msg]];
    }

    /** `flushOfflineQueue`: everything queued goes out, in order. */
    method FlushOfflineQueue()
      modifies this`sent, this`offlineQueue
      ensures sent == old(sent) + old(offlineQueue) && offlineQueue == []
    {
      while offlineQueue != []
        invariant sent + offlineQueue == old(sent) + old(offlineQueue)
        decreases |offlineQueue|
      {
        assert offlineQueue == [offlineQueue[0]] + offlineQueue[1..];
        sent := sent + [offlineQueue[0]];
        offlineQueue := offlineQueue[1..];
      }
    }

    method SendTyping(conversationId: string, typing: bool)
      modifies this`sent, this`offlineQueue
      ensures Emitted(TypingJson(conversationId, typing))
    {
      hide TypingJson;
      SendRaw(TypingJson(conversationId, typing));
    }

    method MarkRead(conversationId: string)
      modifies this`sent, this`offlineQueue
      ensures Emitted(ReadJson(conversationId))
    {
      hide ReadJson;
      SendRaw(ReadJson(conversationId));
    }

    /** The connection is there: the user's presence goes out first, then all that was queued. */
    method OnConnected()
      modifies this`connected, this`sent, this`offlineQueue
      ensures connected && offlineQueue == []
      ensures sent == old(sent) + [PresenceJson(true)] + old(offlineQueue)
    {
      hide PresenceJson;
      connected := true;
      SendRaw(PresenceJson(true));
      FlushOfflineQueue();
    }

    /** `sendText` and `sendMedia`, with the generated id and the time as parameters. */
    method SendMessage(id: string, conversationId: string, recipientId: string, kind: MessageType,
                       text: string, mediaUrl: string, now: int)
      modifies this`messages, this`sent, this`offlineQueue
      ensures var m := ChatMessage(id, conversationId, userId, recipientId, kind, text, mediaUrl, Pending, now);
        messages == WithMessage(old(messages), m) && Emitted(BuildMessageJson(m))
    {
      hide BuildMessageJson;
      var m := ChatMessage(id, conversationId, userId, recipientId, kind, text, mediaUrl, Pending, now);
      StoreMessage(m);
      SendRaw(BuildMessageJson(m));
    }

    /** `onRawMessage`. */
    method OnRawMessage(json: string, timestamp: int)
      modifies this`messages, this`sent, this`offlineQueue, this`reports
      ensures var r := Reaction(json, userId, timestamp);
        && reports == old(reports) + (if r.Some? then [r.value] else [])
        && if r.Some? && r.value.Received? then
             messages == WithMessage(old(messages), r.value.msg) && Emitted(Acknowledgement(r.value.msg.id))
           else messages == old(messages) && sent == old(sent) && offlineQueue == old(offlineQueue)
    {
      hide JsonGet, Key, Acknowledgement, Truth, StatusIn;
      var kind := JsonGet(json, Key(0));
      if kind == "message" {
        var msg := ParseMessage(json, userId, timestamp);
        StoreMessage(msg);
        reports := reports + [Received(msg)];
        SendRaw(Acknowledgement(msg.id));
      } else if kind == "status" {
        reports := reports + [StatusChanged(JsonGet(json, "msgId"), StatusIn(JsonGet(json, "status")))];
      } else if kind == "typing" {
        reports := reports + [TypingChanged(JsonGet(json, Key(2)), Truth(JsonGet(json, "isTyping")))];
      } else if kind == "presence" {
        reports := reports + [PresenceChanged(JsonGet(json, "userId"), Truth(JsonGet(json, "isOnline")))];
      }
    }
  }

  /** What a message built by one engine makes another do. */
  lemma Delivery(m: ChatMessage, me: string, timestamp: int)
    requires m.kind != System && NoQuote(m.id) && NoQuote(m.conversationId) && NoQuote(m.senderId)
    requires NoQuote(m.recipientId) && NoQuote(m.text) && NoQuote(m.mediaUrl)
    ensures Reaction(BuildMessageJson(m), me, timestamp) ==
      Some(Received(m.(recipientId := me, status := Delivered, timestamp := timestamp)))
  {
    hide JsonGet, BuildMessageJson, Key, UpTo, NoQuote, ParseMessage;
    BuiltIsMessage(m);
    PlainRecipient(m, me, timestamp);
  }
}
