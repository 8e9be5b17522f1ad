/**
  The texts the chat engine sends, letter by letter, and what another engine reports when it reads
  them: messages, typing and presence with their unquoted words, status, and what is ignored.
 */
module ChatSignals {
  import opened Wrappers
  import opened ChatJson

  // ---------------------------------------------------------------- the text of a message

  /** A key and a value between quotes, and what follows. */
  function Pair(key: string, value: string, rest: string): string {
    "\"" + (key + ("\":\"" + (value + ("\"" + rest))))
  }

  lemma PairIsField(key: string, value: string, rest: string)
    ensures FieldText(Field(key, value), rest) == Pair(key, value, rest)
  {
    assert QUOTE + ([':'] + (QUOTE + (value + (QUOTE + rest)))) == "\":\"" + (value + ("\"" + rest));
  }

  /** The text of a built message, in the source's own words. */
  lemma BuiltText(m: ChatMessage)
    ensures BuildMessageJson(m) ==
      "{" + Pair("type", "message",
      "," + Pair("id", m.id,
      "," + Pair("conversationId", m.conversationId,
      "," + Pair("senderId", m.senderId,
      "," + Pair("recipientId", m.recipientId,
      "," + Pair("msgType", KindName(m.kind),
      "," + Pair("text", m.text,
      "," + Pair("mediaUrl", m.mediaUrl, "}"))))))))
  {
    hide Pair, BuildMessageJson, Key, KeyValue, KindName;
    KeyNames(m);
    BuiltPairs(m);
  }

  function KindName(kind: MessageType): string {
    if kind == Image then "image" else if kind == Video then "video" else if kind == Like then "like" else "text"
  }

  lemma KeyNames(m: ChatMessage)
    ensures Key(0) == "type" && Key(1) == "id" && Key(2) == "conversationId" && Key(3) == "senderId"
    ensures Key(4) == "recipientId" && Key(5) == "msgType" && Key(6) == "text" && Key(7) == "mediaUrl"
    ensures KeyValue(m, 0) == "message" && KeyValue(m, 1) == m.id && KeyValue(m, 2) == m.conversationId
    ensures KeyValue(m, 3) == m.senderId && KeyValue(m, 4) == m.recipientId && KeyValue(m, 5) == KindName(m.kind)
    ensures KeyValue(m, 6) == m.text && KeyValue(m, 7) == m.mediaUrl
  {
  }

  lemma BuiltPairs(m: ChatMessage)
    ensures BuildMessageJson(m) ==
      "{" + Pair(Key(0), KeyValue(m, 0),
      "," + Pair(Key(1), KeyValue(m, 1),
      "," + Pair(Key(2), KeyValue(m, 2),
      "," + Pair(Key(3), KeyValue(m, 3),
      "," + Pair(Key(4), KeyValue(m, 4),
      "," + Pair(Key(5), KeyValue(m, 5),
      "," + Pair(Key(6), KeyValue(m, 6),
      "," + Pair(Key(7), KeyValue(m, 7), "}"))))))))
  {
    hide FieldText, Pair, Tail, Key, KeyValue;
    var fs := MessageFields(m);
    TailPair(fs, 7);
    TailPair(fs, 6);
    TailPair(fs, 5);
    TailPair(fs, 4);
    TailPair(fs, 3);
    TailPair(fs, 2);
    TailPair(fs, 1);
    TailPair(fs, 0);
    assert fs[0..] == fs;
  }

  lemma TailPair(fs: seq<Field>, i: nat)
    requires i < |fs|
    ensures Tail(fs[i..]) == Pair(fs[i].key, fs[i].value, if i == |fs| - 1 then "}" else "," + Tail(fs[i + 1..]))
  {
    hide FieldText, Pair;
    PairIsField(fs[i].key, fs[i].value, if i == |fs| - 1 then "}" else "," + Tail(fs[i + 1..]));
    assert fs[i..][1..] == fs[i + 1..];
  }

  /** A key between quotes, and a word as it is. */
  function Bare(key: string, word: string): string {
    "\"" + (key + ("\":" + (word + "}")))
  }

  /** The texts of the smaller notes. */
  lemma NoteTexts(id: string, on: bool)
    ensures Acknowledgement(id) == "{" + Pair("type", "delivered", "," + Pair("msgId", id, "}"))
    ensures ReadJson(id) == "{" + Pair("type", "read", "," + Pair("conversationId", id, "}"))
    ensures TypingJson(id, on) ==
      "{" + Pair("type", "typing",
      "," + Pair("conversationId", id,
      "," + Bare("isTyping", if on then "true" else "false")))
    ensures PresenceJson(on) ==
      "{" + Pair("type", "presence", "," + Bare("isOnline", if on then "true" else "false"))
  {
    hide Pair, Bare, FieldText;
    TwoPairs("delivered", "msgId", id);
    TwoPairs("read", "conversationId", id);
    OneFlag("typing", "conversationId", id, "isTyping", Flag(on));
    NoFlag("presence", "isOnline", Flag(on));
    FlagText("isTyping", Flag(on));
    FlagText("isOnline", Flag(on));
  }

  lemma TwoPairs(kind: string, key: string, value: string)
    ensures Render([Field("type", kind), Field(key, value)]) ==
      "{" + Pair("type", kind, "," + Pair(key, value, "}"))
  {
    hide FieldText, Pair, Tail;
    var fs := [Field("type", kind), Field(key, value)];
    TailPair(fs, 1);
    TailPair(fs, 0);
    assert fs[0..] == fs;
  }

  lemma NoFlag(kind: string, key: string, word: string)
    ensures Flagged([Field("type", kind)], key, word) == Pair("type", kind, "," + Flagged([], key, word))
  {
    hide FieldText, Pair;
    var fs := [Field("type", kind)];
    assert fs[1..] == [];
    PairIsField("type", kind, "," + Flagged([], key, word));
  }

  lemma OneFlag(kind: string, name: string, value: string, key: string, word: string)
    ensures Flagged([Field("type", kind), Field(name, value)], key, word) ==
      Pair("type", kind, "," + Pair(name, value, "," + Flagged([], key, word)))
  {
    hide FieldText, Pair;
    var fs := [Field("type", kind), Field(name, value)];
    assert fs[1..] == [Field(name, value)] && fs[1..][1..] == [];
    PairIsField(name, value, "," + Flagged([], key, word));
    PairIsField("type", kind, "," + Flagged(fs[1..], key, word));
  }

  lemma FlagText(key: string, word: string)
    ensures Flagged([], key, word) == Bare(key, word)
  {
    assert QUOTE + ([':'] + (word + ['}'])) == "\":" + (word + "}");
  }

  // ---------------------------------------------------------------- words without quotes

  lemma {:induction false} FlagSkips(fs: seq<Field>, key: string, word: string, wanted: string, more: string)
    requires fs != [] && Clean(fs[0]) && Searchable(wanted) && Follows(more) && fs[0].key != wanted
    ensures AfterFirst(Flagged(fs, key, word), Pattern(wanted, more)) ==
      AfterFirst(Flagged(fs[1..], key, word), Pattern(wanted, more))
  {
    hide AfterFirst, Pattern, FieldText;
    var rest := Flagged(fs[1..], key, word);
    FlagStarts(fs[1..], key, word);
    FieldSkipped(fs[0], [','] + rest, wanted, more);
    assert [','] + rest == [','] + (QUOTE + rest[1..]);
    AtQuote(wanted, more, [','], rest[1..]);
  }

  lemma FlagStarts(fs: seq<Field>, key: string, word: string)
    ensures Flagged(fs, key, word) == QUOTE + Flagged(fs, key, word)[1..]
  {
  }

  /** The last pair holds a match for its own key alone, and only without a quote behind the colon. */
  lemma LastPair(key: string, word: string, wanted: string, more: string)
    requires NoQuote(key) && NoQuote(word) && Searchable(wanted) && Follows(more)
    ensures AfterFirst(Flagged([], key, word), Pattern(wanted, more)) ==
      if key == wanted && more == [':'] then Some(word + ['}']) else None
  {
    hide AfterFirst, Pattern;
    var after := [':'] + (word + ['}']);
    SearchablePlain(wanted);
    AtQuote(wanted, more, key, after);
    if key == wanted && more == [':'] {
      assert after[1..] == word + ['}'];
    } else {
      if key == wanted {
        assert after[1] == (word + ['}'])[0] != '"';
        assert !(more <= after);
      }
      OneQuote(after, wanted, more);
    }
  }

  lemma SearchablePlain(key: string)
    requires Searchable(key)
    ensures NoQuote(key)
  {
  }

  /** A text with a single quote holds no quoted key. */
  lemma OneQuote(s: string, wanted: string, more: string)
    requires NoQuote(s) && NoQuote(wanted)
    ensures AfterFirst(QUOTE + s, Pattern(wanted, more)) == None
  {
    var pat := Pattern(wanted, more);
    assert pat[|wanted| + 1] == '"';
    if |s| > |wanted| {
      assert (QUOTE + s)[|wanted| + 1] == s[|wanted|] && s[|wanted|] in s;
    }
    assert (QUOTE + s)[1..] == s;
    SkipPlain(s, [], pat);
    assert s + [] == s;
  }

  /** The word is read back by its key, and every other key as in an object of strings. */
  lemma {:induction false} FlagFirst(fs: seq<Field>, key: string, word: string, wanted: string, more: string)
    requires (forall f | f in fs :: Clean(f) && f.key != wanted) && NoQuote(key) && NoQuote(word)
    requires Searchable(wanted) && Follows(more)
    ensures AfterFirst(Flagged(fs, key, word), Pattern(wanted, more)) ==
      if key == wanted && more == [':'] then Some(word + ['}']) else None
  {
    hide AfterFirst, Pattern, Flagged, Searchable, Clean;
    if fs == [] {
      LastPair(key, word, wanted, more);
    } else {
      FlagSkips(fs, key, word, wanted, more);
      FlagFirst(fs[1..], key, word, wanted, more);
    }
  }

  /** A word in an object with other keys; nothing for a key that is not there. */
  lemma ReadsWord(fs: seq<Field>, key: string, word: string, wanted: string)
    requires (forall f | f in fs :: Clean(f) && f.key != wanted) && NoQuote(key) && NoQuote(word) && Searchable(wanted)
    requires ',' !in word && '}' !in word
    ensures JsonGet(['{'] + Flagged(fs, key, word), wanted) == if key == wanted then word else []
  {
    hide AfterFirst, Pattern, Flagged, Clean;
    FlagFirst(fs, key, word, wanted, [':', '"']);
    FlagFirst(fs, key, word, wanted, [':']);
    BraceSkipped(Flagged(fs, key, word), wanted, [':', '"']);
    BraceSkipped(Flagged(fs, key, word), wanted, [':']);
    WordEnds(word);
  }

  lemma {:induction false} WordEnds(word: string)
    requires ',' !in word && '}' !in word
    ensures UpTo(word + ['}'], {',', '}'}) == word
  {
    if word != [] {
      assert (word + ['}'])[0] == word[0] && word[0] in word && (word + ['}'])[1..] == word[1..] + ['}'];
      WordEnds(word[1..]);
    } else {
      assert [] + ['}'] == ['}'];
    }
  }

  /** A string in front of a word: the first field is read up to its first quote. */
  lemma ReadsFirst(fs: seq<Field>, key: string, word: string)
    requires fs != [] && Searchable(fs[0].key) && NoQuote(fs[0].value)
    ensures JsonGet(['{'] + Flagged(fs, key, word), fs[0].key) == fs[0].value
  {
    hide AfterFirst, Pattern, UpTo;
    var k, v, rest := fs[0].key, fs[0].value, [','] + Flagged(fs[1..], key, word);
    var value := v + (QUOTE + rest);
    var after := [':'] + (QUOTE + value);
    BraceSkipped(Flagged(fs, key, word), k, [':', '"']);
    assert [':', '"'] <= after && after[2..] == value;
    SearchablePlain(k);
    AtQuote(k, [':', '"'], k, after);
    UpToQuote(v, rest);
    WholeValue(v);
  }

  /** The same for the second field. */
  lemma ReadsSecond(fs: seq<Field>, key: string, word: string)
    requires |fs| > 1 && Clean(fs[0]) && Searchable(fs[1].key) && NoQuote(fs[1].value) && fs[0].key != fs[1].key
    ensures JsonGet(['{'] + Flagged(fs, key, word), fs[1].key) == fs[1].value
  {
    hide AfterFirst, Pattern, UpTo, Flagged;
    BraceSkipped(Flagged(fs, key, word), fs[1].key, [':', '"']);
    BraceSkipped(Flagged(fs[1..], key, word), fs[1].key, [':', '"']);
    FlagSkips(fs, key, word, fs[1].key, [':', '"']);
    ReadsFirst(fs[1..], key, word);
    FoundInRest(fs, key, word);
  }

  lemma FoundInRest(fs: seq<Field>, key: string, word: string)
    requires |fs| > 1 && Searchable(fs[1].key)
    ensures AfterFirst(Flagged(fs[1..], key, word), Pattern(fs[1].key, [':', '"'])).Some?
  {
    hide AfterFirst, Pattern;
    var k, rest := fs[1].key, [','] + Flagged(fs[1..][1..], key, word);
    var after := [':'] + (QUOTE + (fs[1].value + (QUOTE + rest)));
    SearchablePlain(k);
    assert [':', '"'] <= after;
    AtQuote(k, [':', '"'], k, after);
  }

  // ---------------------------------------------------------------- what is reported

  lemma SignalWords()
    ensures Searchable("type") && Searchable("conversationId") && Searchable("isTyping") && Searchable("isOnline")
    ensures Searchable("userId") && Searchable("msgId") && Searchable("status")
  {
  }

  lemma SignalValues()
    ensures NoQuote("typing") && NoQuote("presence") && NoQuote("status") && NoQuote("delivered") && NoQuote("read")
    ensures forall on: bool :: NoQuote(Flag(on)) && ',' !in Flag(on) && '}' !in Flag(on)
  {
  }

  predicate PlainWord(word: string) {
    NoQuote(word) && ',' !in word && '}' !in word
  }

  /** Typing in a conversation is reported, with any word: `true` and `1` are yes, and nothing else is. */
  lemma TypingWord(conversationId: string, word: string, me: string, timestamp: int)
    requires NoQuote(conversationId) && PlainWord(word)
    ensures var fs := [Field("type", "typing"), Field("conversationId", conversationId)];
      Reaction(['{'] + Flagged(fs, "isTyping", word), me, timestamp) ==
        Some(TypingChanged(conversationId, word == "true" || word == "1"))
  {
    hide JsonGet, Searchable, NoQuote, Flagged;
    SignalWords();
    SignalValues();
    var fs := [Field("type", "typing"), Field("conversationId", conversationId)];
    ReadsFirst(fs, "isTyping", word);
    ReadsSecond(fs, "isTyping", word);
    ReadsWord(fs, "isTyping", word, "isTyping");
  }

  /** Typing is reported as it was sent. */
  lemma TypingHeard(conversationId: string, typing: bool, me: string, timestamp: int)
    requires NoQuote(conversationId)
    ensures Reaction(TypingJson(conversationId, typing), me, timestamp) == Some(TypingChanged(conversationId, typing))
  {
    hide Reaction, NoQuote, Flagged;
    SignalValues();
    TypingWord(conversationId, Flag(typing), me, timestamp);
  }

  /** The presence of a user, with any word. */
  lemma PresenceWord(userId: string, word: string, me: string, timestamp: int)
    requires NoQuote(userId) && PlainWord(word)
    ensures var fs := [Field("type", "presence"), Field("userId", userId)];
      Reaction(['{'] + Flagged(fs, "isOnline", word), me, timestamp) ==
        Some(PresenceChanged(userId, word == "true" || word == "1"))
  {
    hide JsonGet, Searchable, NoQuote, Flagged;
    SignalWords();
    SignalValues();
    var fs := [Field("type", "presence"), Field("userId", userId)];
    ReadsFirst(fs, "isOnline", word);
    ReadsSecond(fs, "isOnline", word);
    ReadsWord(fs, "isOnline", word, "isOnline");
  }

  /** Presence is reported, but for nobody: the text names no user. */
  lemma PresenceHeard(online: bool, me: string, timestamp: int)
    ensures Reaction(PresenceJson(online), me, timestamp) == Some(PresenceChanged("", online))
  {
    hide JsonGet, Searchable, NoQuote, Flagged;
    SignalWords();
    SignalValues();
    var fs := [Field("type", "presence")];
    ReadsFirst(fs, "isOnline", Flag(online));
    ReadsWord(fs, "isOnline", Flag(online), "isOnline");
    ReadsWord(fs, "isOnline", Flag(online), "userId");
  }

  /** The status a server reports for a message. */
  function StatusJson(msgId: string, status: string): string {
    Render([Field("type", "status"), Field("msgId", msgId), Field("status", status)])
  }

  /** A status is reported for its message: delivered, read, or sent for any other word. */
  lemma StatusHeard(msgId: string, status: string, me: string, timestamp: int)
    requires NoQuote(msgId) && NoQuote(status)
    ensures Reaction(StatusJson(msgId, status), me, timestamp) ==
      Some(StatusChanged(msgId, if status == "delivered" then Delivered else if status == "read" then Read else Sent))
  {
    hide JsonGet, Searchable, NoQuote, Render;
    SignalWords();
    SignalValues();
    var fs := [Field("type", "status"), Field("msgId", msgId), Field("status", status)];
    ObjectRoundTrip(fs, "type");
    ObjectRoundTrip(fs, "msgId");
    ObjectRoundTrip(fs, "status");
    assert fs[1..] == [Field("msgId", msgId), Field("status", status)] && fs[1..][1..] == [Field("status", status)];
    assert Lookup(fs[1..][1..], "status") == status;
  }

  /** An acknowledgement and a note that a conversation was read mean nothing to another engine. */
  lemma NotesIgnored(id: string, me: string, timestamp: int)
    requires NoQuote(id)
    ensures Reaction(Acknowledgement(id), me, timestamp) == None && Reaction(ReadJson(id), me, timestamp) == None
  {
    hide JsonGet, Searchable, NoQuote, Render;
    SignalWords();
    SignalValues();
    ObjectRoundTrip([Field("type", "delivered"), Field("msgId", id)], "type");
    ObjectRoundTrip([Field("type", "read"), Field("conversationId", id)], "type");
  }
}
