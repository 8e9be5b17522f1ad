/**
  The disk cache table with its least-recently-used eviction. A table is a list of rows with
  different keys; among rows accessed at the same time the database may delete either first.
 */
module DiskCache {
  datatype Row = Row(key: string, path: string, size: int, lastAccess: int)

  predicate Distinct(t: seq<Row>) {
    forall i, j | 0 <= i < j < |t| :: t[i].key != t[j].key
  }

  /** `SUM(size)`, 0 for an empty table. */
  function Total(t: seq<Row>): int {
    if t == [] then 0 else Total(t[..|t| - 1]) + t[|t| - 1].size
  }

  function Remove(t: seq<Row>, i: nat): (r: seq<Row>)
    requires i < |t|
    ensures |r| == |t| - 1
  {
    t[..i] + t[i + 1..]
  }

  predicate Oldest(t: seq<Row>, i: nat) {
    i < |t| && forall j | 0 <= j < |t| :: t[i].lastAccess <= t[j].lastAccess
  }

  /** `after` is left of `before` when the rows `gone` are deleted, each the oldest while the total was too large. */
  ghost predicate Evicted(before: seq<Row>, limit: int, gone: seq<Row>, after: seq<Row>)
    decreases |gone|
  {
    if gone == [] then after == before && Total(before) <= limit
    else
      && Total(before) > limit
      && exists i: nat :: i < |before| && Oldest(before, i) && before[i] == gone[0]
                       && Evicted(Remove(before, i), limit, gone[1..], after)
  }

  // ---------------------------------------------------------------- totals

  lemma {:induction false} TotalSplit(s: seq<Row>, t: seq<Row>)
    ensures Total(s + t) == Total(s) + Total(t)
  {
    if t == [] {
      assert s + t == s;
    } else {
      var shorter := t[..|t| - 1];
      assert (s + t)[..|s + t| - 1] == s + shorter;
      TotalSplit(s, shorter);
    }
  }

  lemma TotalOne(r: Row)
    ensures Total([r]) == r.size
  {
  }

  lemma TotalRemove(t: seq<Row>, i: nat)
    requires i < |t|
    ensures Total(t) == Total(Remove(t, i)) + t[i].size
  {
    hide Total;
    Around(t, i);
    TotalInsert(t[..i], t[i], t[i + 1..]);
  }

  lemma Around(t: seq<Row>, i: nat)
    requires i < |t|
    ensures t == t[..i] + ([t[i]] + t[i + 1..])
  {
  }

  lemma TotalInsert(left: seq<Row>, r: Row, right: seq<Row>)
    ensures Total(left + ([r] + right)) == Total(left + right) + r.size
  {
    hide Total;
    TotalSplit(left, [r] + right);
    TotalSplit([r], right);
    TotalSplit(left, right);
    TotalOne(r);
  }

  lemma TotalFirst(t: seq<Row>)
    requires t != []
    ensures Total(t) == t[0].size + Total(t[1..])
  {
    hide Total;
    assert t == [t[0]] + t[1..];
    TotalSplit([t[0]], t[1..]);
    TotalOne(t[0]);
  }

  lemma RemoveParts(t: seq<Row>, i: nat)
    requires i < |t|
    ensures multiset(t) == multiset(Remove(t, i)) + multiset{t[i]}
    ensures forall r | r in Remove(t, i) :: r in t
    ensures Distinct(t) ==> Distinct(Remove(t, i)) && forall r | r in Remove(t, i) :: r.key != t[i].key
  {
    var r := Remove(t, i);
    assert t == t[..i] + [t[i]] + t[i + 1..];
    forall k | 0 <= k < |r| ensures r[k] == t[if k < i then k else k + 1] {
    }
  }

  // ---------------------------------------------------------------- eviction

  predicate AllNoLater(gone: seq<Row>, kept: seq<Row>) {
    forall g, k | g in gone && k in kept :: g.lastAccess <= k.lastAccess
  }

  predicate InOrder(gone: seq<Row>) {
    forall i, j | 0 <= i < j < |gone| :: gone[i].lastAccess <= gone[j].lastAccess
  }

  /** One deletion of an eviction that is not over. */
  lemma EvictedStep(before: seq<Row>, limit: int, gone: seq<Row>, after: seq<Row>) returns (i: nat)
    requires Evicted(before, limit, gone, after) && gone != []
    ensures i < |before| && Oldest(before, i) && before[i] == gone[0]
    ensures Evicted(Remove(before, i), limit, gone[1..], after)
    ensures Total(before) > limit
  {
    hide Total, Oldest, Remove;
    i :| i < |before| && Oldest(before, i) && before[i] == gone[0]
         && Evicted(Remove(before, i), limit, gone[1..], after);
  }

  /** Rows are kept or deleted, never changed, doubled or made up. */
  lemma {:induction false} EvictedRows(before: seq<Row>, limit: int, gone: seq<Row>, after: seq<Row>)
    requires Evicted(before, limit, gone, after)
    ensures multiset(before) == multiset(after) + multiset(gone)
    decreases |gone|
  {
    if gone != [] {
      var i := EvictedStep(before, limit, gone, after);
      hide *;
      EvictedRows(Remove(before, i), limit, gone[1..], after);
      RemoveParts(before, i);
      FirstOf(gone);
    }
  }

  lemma FirstOf(t: seq<Row>)
    requires t != []
    ensures multiset(t) == multiset(t[1..]) + multiset{t[0]}
  {
    assert t == [t[0]] + t[1..];
  }

  lemma {:induction false} EvictedIn(before: seq<Row>, limit: int, gone: seq<Row>, after: seq<Row>, r: Row)
    requires Evicted(before, limit, gone, after)
    ensures r in before <==> r in after || r in gone
  {
    hide Evicted;
    EvictedRows(before, limit, gone, after);
    assert r in before <==> r in multiset(before);
    assert r in after <==> r in multiset(after);
    assert r in gone <==> r in multiset(gone);
  }

  lemma {:induction false} EvictedTotal(before: seq<Row>, limit: int, gone: seq<Row>, after: seq<Row>)
    requires Evicted(before, limit, gone, after)
    ensures Total(before) == Total(after) + Total(gone) && Total(after) <= limit
    decreases |gone|
  {
    if gone != [] {
      var i := EvictedStep(before, limit, gone, after);
      hide Distinct, Oldest, Evicted, Remove, Total;
      EvictedTotal(Remove(before, i), limit, gone[1..], after);
      TotalRemove(before, i);
      TotalFirst(gone);
    }
  }

  /** Rows go in the order they were last accessed, and none that went is newer than one that stayed. */
  lemma {:induction false} EvictedOldest(before: seq<Row>, limit: int, gone: seq<Row>, after: seq<Row>)
    requires Evicted(before, limit, gone, after)
    ensures AllNoLater(gone, after) && InOrder(gone)
    decreases |gone|
  {
    if gone != [] {
      var i := EvictedStep(before, limit, gone, after);
      hide Evicted, Remove, Total;
      EvictedOldest(Remove(before, i), limit, gone[1..], after);
      forall r | r in after || r in gone[1..] ensures gone[0].lastAccess <= r.lastAccess {
        EvictedIn(Remove(before, i), limit, gone[1..], after, r);
        RemoveParts(before, i);
      }
      OldestFirst(gone, after);
    }
  }

  lemma OldestFirst(gone: seq<Row>, kept: seq<Row>)
    requires gone != [] && AllNoLater(gone[1..], kept) && InOrder(gone[1..])
    requires forall r | r in kept || r in gone[1..] :: gone[0].lastAccess <= r.lastAccess
    ensures AllNoLater(gone, kept) && InOrder(gone)
  {
  }

  /** Nothing is deleted needlessly: with any shorter list of deletions the total stays above the limit. */
  lemma {:induction false} EvictedNeeded(before: seq<Row>, limit: int, gone: seq<Row>, after: seq<Row>, k: nat)
    requires Evicted(before, limit, gone, after) && k < |gone|
    ensures Total(after) + Total(gone[k..]) > limit
    decreases |gone|
  {
    var i := EvictedStep(before, limit, gone, after);
    hide Evicted, Total;
    if k == 0 {
      EvictedTotal(before, limit, gone, after);
      assert gone[0..] == gone;
    } else {
      EvictedNeeded(Remove(before, i), limit, gone[1..], after, k - 1);
      assert gone[1..][k - 1..] == gone[k..];
    }
  }

  predicate NonNegative(t: seq<Row>) {
    forall r | r in t :: r.size >= 0
  }

  lemma {:induction false} TotalNonNegative(t: seq<Row>)
    requires NonNegative(t)
    ensures Total(t) >= 0 && forall r | r in t :: r.size <= Total(t)
  {
    if t != [] {
      TotalNonNegative(t[..|t| - 1]);
    }
  }

  lemma {:induction false} OldestExists(t: seq<Row>) returns (i: nat)
    requires t != []
    ensures Oldest(t, i)
  {
    var last := |t| - 1;
    if last == 0 {
      i := 0;
    } else {
      i := OldestExists(t[..last]);
      if t[last].lastAccess < t[i].lastAccess {
        i := last;
      }
    }
  }

  lemma {:induction false} SomeEviction(t: seq<Row>, limit: int) returns (gone: seq<Row>, after: seq<Row>)
    requires limit >= 0
    ensures Evicted(t, limit, gone, after)
    decreases |t|
  {
    hide Oldest;
    if Total(t) <= limit {
      gone, after := [], t;
    } else {
      var i := OldestExists(t);
      assert i < |t| by { OldestIn(t, i); }
      gone, after := SomeEviction(Remove(t, i), limit);
      gone := [t[i]] + gone;
    }
  }

  lemma OldestIn(t: seq<Row>, i: nat)
    requires Oldest(t, i)
    ensures i < |t|
  {
  }

  /** With sizes that are not negative, eviction can come to an end exactly when the limit is not negative. */
  lemma EndsExactly(t: seq<Row>, limit: int)
    requires NonNegative(t)
    ensures (exists gone, after :: Evicted(t, limit, gone, after)) <==> limit >= 0
  {
    hide Evicted, Total;
    if limit >= 0 {
      var gone, after := SomeEviction(t, limit);
    }
    if gone: seq<Row>, after: seq<Row> :| Evicted(t, limit, gone, after) {
      forall r | r in after ensures r.size >= 0 {
        EvictedIn(t, limit, gone, after, r);
      }
      TotalNonNegative(after);
      EvictedTotal(t, limit, gone, after);
    }
  }

  /** The limit as the constructor computes it, in a 32-bit signed integer that wraps around. */
  function LimitBytes(megabytes: int): (limit: int)
    ensures limit >= 0 <==> megabytes % 4096 < 2048
    ensures 0 <= megabytes < 2048 ==> limit == megabytes * 0x10_0000
  {
    MegabytesWrap(megabytes);
    var bits := megabytes * 0x10_0000 % 0x1_0000_0000;
    if bits >= 0x8000_0000 then bits - 0x1_0000_0000 else bits
  }

  lemma MegabytesWrap(megabytes: int)
    ensures megabytes * 0x10_0000 % 0x1_0000_0000 == megabytes % 4096 * 0x10_0000
  {
    var q, r := megabytes / 4096, megabytes % 4096;
    assert megabytes * 0x10_0000 == q * 0x1_0000_0000 + r * 0x10_0000;
    Remainder(q, r * 0x10_0000);
  }

  lemma Remainder(q: int, r: int)
    requires 0 <= r < 0x1_0000_0000
    ensures (q * 0x1_0000_0000 + r) % 0x1_0000_0000 == r
  {
  }

  /** With sizes that are not negative, eviction can end exactly for these numbers of megabytes. */
  lemma EndsForMegabytes(t: seq<Row>, megabytes: int)
    requires NonNegative(t)
    ensures (exists gone, after :: Evicted(t, LimitBytes(megabytes), gone, after)) <==> megabytes % 4096 < 2048
  {
    hide Evicted;
    EndsExactly(t, LimitBytes(megabytes));
  }

  // ---------------------------------------------------------------- the newest entry

  /** An entry newer than all others is evicted last, so it stays exactly when it fits the limit by itself. */
  lemma NewestStays(t: seq<Row>, n: nat, limit: int, gone: seq<Row>, after: seq<Row>)
    requires Distinct(t) && NonNegative(t) && n < |t|
    requires forall j | 0 <= j < |t| && j != n :: t[j].lastAccess < t[n].lastAccess
    requires Evicted(t, limit, gone, after)
    ensures t[n] in after <==> t[n].size <= limit
  {
    hide Evicted, Total;
    EvictedTotal(t, limit, gone, after);
    forall r ensures r in t <==> r in after || r in gone {
      EvictedIn(t, limit, gone, after, r);
    }
    if t[n] in after {
      TotalNonNegative(after);
    } else {
      NewestAlone(t, n, limit, gone, after);
    }
  }

  lemma NewestAlone(t: seq<Row>, n: nat, limit: int, gone: seq<Row>, after: seq<Row>)
    requires n < |t| && (forall j | 0 <= j < |t| && j != n :: t[j].lastAccess < t[n].lastAccess)
    requires Evicted(t, limit, gone, after) && t[n] in gone && t[n] !in after
    ensures t[n].size > limit
  {
    hide Evicted, Total;
    EvictedOldest(t, limit, gone, after);
    var last := |gone| - 1;
    if after != [] {
      HasFirst(after);
    }
    forall r ensures r in t <==> r in after || r in gone {
      EvictedIn(t, limit, gone, after, r);
    }
    assert gone[last] == t[n] by {
      var k :| 0 <= k < |gone| && gone[k] == t[n];
      assert gone[last] in t;
    }
    EvictedNeeded(t, limit, gone, after, last);
    assert gone[last..] == [t[n]];
    TotalOne(t[n]);
    TotalNothing();
  }

  lemma HasFirst(t: seq<Row>)
    requires t != []
    ensures t[0] in t
  {
  }

  lemma TotalNothing()
    ensures Total([]) == 0
  {
  }

  // ---------------------------------------------------------------- the code

  /** The row of a key, or past the end. */
  function Find(t: seq<Row>, key: string, i: nat): (m: nat)
    requires i <= |t|
    ensures i <= m <= |t| && (m < |t| ==> t[m].key == key) && (forall k | i <= k < m :: t[k].key != key)
    decreases |t| - i
  {
    if i == |t| || t[i].key == key then i else Find(t, key, i + 1)
  }

  /** `INSERT OR REPLACE`. */
  function Put(t: seq<Row>, r: Row): seq<Row> {
    var m := Find(t, r.key, 0);
    if m < |t| then t[m := r] else t + [r]
  }

  /** The table holds the new row, every row of another key, and nothing else. */
  lemma PutDistinct(t: seq<Row>, r: Row)
    requires Distinct(t)
    ensures Distinct(Put(t, r)) && r in Put(t, r)
    ensures forall x :: x in Put(t, r) <==> x == r || (x in t && x.key != r.key)
  {
    var m, u := Find(t, r.key, 0), Put(t, r);
    assert u[m] == r;
    forall x | x in t && x.key != r.key ensures x in u {
      var k :| 0 <= k < |t| && t[k] == x;
      assert u[k] == x;
    }
  }

  /** The rows of other keys. */
  function Others(t: seq<Row>, key: string): seq<Row> {
    if t == [] then []
    else
      var rest, last := t[..|t| - 1], t[|t| - 1];
      Others(rest, key) + if last.key == key then [] else [last]
  }

  lemma {:induction false} OthersExactly(t: seq<Row>, key: string, r: Row)
    ensures r in Others(t, key) <==> r in t && r.key != key
  {
    if t != [] {
      OthersExactly(t[..|t| - 1], key, r);
      assert t == t[..|t| - 1] + [t[|t| - 1]];
    }
  }

  /** Putting a row in adds it to the rows of other keys, and takes nothing else away. */
  lemma PutExactly(t: seq<Row>, r: Row)
    requires Distinct(t)
    ensures multiset(Put(t, r)) == multiset(Others(t, r.key)) + multiset{r}
    ensures Total(Put(t, r)) == Total(Others(t, r.key)) + r.size
  {
    var m := Find(t, r.key, 0);
    OthersRemove(t, r.key);
    if m < |t| {
      var u := t[m := r];
      assert Remove(u, m) == Remove(t, m);
      RemoveParts(u, m);
      TotalRemove(u, m);
    } else {
      TotalSplit(t, [r]);
      TotalOne(r);
    }
  }

  lemma {:induction false} OthersAll(t: seq<Row>, key: string)
    requires forall k | 0 <= k < |t| :: t[k].key != key
    ensures Others(t, key) == t
  {
    if t != [] {
      OthersAll(t[..|t| - 1], key);
      assert t == t[..|t| - 1] + [t[|t| - 1]];
    }
  }

  lemma {:induction false} OthersAppend(s: seq<Row>, t: seq<Row>, key: string)
    ensures Others(s + t, key) == Others(s, key) + Others(t, key)
  {
    if t == [] {
      assert s + t == s;
    } else {
      var rest := t[..|t| - 1];
      assert (s + t)[..|s + t| - 1] == s + rest;
      OthersAppend(s, rest, key);
    }
  }

  lemma OthersRemove(t: seq<Row>, key: string)
    requires Distinct(t)
    ensures var m := Find(t, key, 0); Others(t, key) == if m < |t| then Remove(t, m) else t
  {
    hide Others;
    var m := Find(t, key, 0);
    if m < |t| {
      Around(t, m);
      OthersAround(t[..m], t[m], t[m + 1..]);
    } else {
      OthersAll(t, key);
    }
  }

  lemma OthersAround(left: seq<Row>, r: Row, right: seq<Row>)
    requires forall k | 0 <= k < |left| :: left[k].key != r.key
    requires forall k | 0 <= k < |right| :: right[k].key != r.key
    ensures Others(left + ([r] + right), r.key) == left + right
  {
    hide Others;
    OthersAppend(left, [r] + right, r.key);
    OthersAppend([r], right, r.key);
    OthersAll(left, r.key);
    OthersAll(right, r.key);
    OthersNone(r);
    assert [] + right == right;
  }

  lemma OthersNone(r: Row)
    ensures Others([r], r.key) == []
  {
    assert [r][..0] == [];
  }

  /** What fits as it is stays as it is. */
  lemma NothingEvicted(t: seq<Row>, limit: int, gone: seq<Row>, after: seq<Row>)
    requires Evicted(t, limit, gone, after) && Total(t) <= limit
    ensures gone == [] && after == t
  {
  }

  class Cache {
    var table: seq<Row>
    const limit: int

    ghost predicate Valid()
      reads this
    {
      Distinct(table)
    }

    constructor (megabytes: int)
      ensures Valid() && table == [] && limit == LimitBytes(megabytes)
    {
      table, limit := [], LimitBytes(megabytes);
    }

    method GetCacheSizeBytes() returns (total: int)
      ensures total == Total(table)
    {
      total := 0;
      for i := 0 to |table|
        invariant total == Total(table[..i])
      {
        total := total + table[i].size;
        assert table[..i + 1][..i] == table[..i];
      }
      assert table[..|table|] == table;
    }

    /** `ORDER BY last_access ASC LIMIT 1`; which of several is up to the database. */
    method SelectOldest() returns (i: nat)
      requires table != []
      ensures Oldest(table, i)
    {
      ghost var some := OldestExists(table);
      i :| i < |table| && Oldest(table, i);
    }

    /**
      One turn of the loop of `evictIfNeeded`; it tells whether there was one to take. An empty
      table stays as it is, so with a negative limit the turns never end.
     */
    method EvictionTurn() returns (taken: bool)
      requires Valid()
      modifies this`table
      ensures Valid() && taken == (Total(old(table)) > limit)
      ensures if taken && old(table) != []
              then exists i: nat :: Oldest(old(table), i) && i < |old(table)| && table == Remove(old(table), i)
              else table == old(table)
      ensures limit < 0 && NonNegative(old(table)) ==> taken && NonNegative(table)
    {
      hide Total, Oldest, Distinct, Remove;
      var total := GetCacheSizeBytes();
      taken := total > limit;
      if NonNegative(table) {
        TotalNonNegative(table);
      }
      if taken && table != [] {
        var i := SelectOldest();
        OldestIn(table, i);
        RemoveParts(table, i);
        table := Remove(table, i);
      }
    }

    /** `evictIfNeeded`: delete the oldest until the total fits. */
    method EvictIfNeeded()
      requires Valid() && limit >= 0
      modifies this`table
      ensures Valid() && exists gone :: Evicted(old(table), limit, gone, table)
    {
      hide Evicted, Total, Oldest, Distinct, Remove, NonNegative;
      ghost var gone, rows := [], table;
      EvictionStarts(table, limit);
      var taken := true;
      while taken
        invariant Valid() && Evicting(rows, limit, gone, table)
        invariant !taken ==> Total(table) <= limit
        decreases |table|, taken
      {
        ghost var before := table;
        TotalNothing();
        taken := EvictionTurn();
        if taken {
          ghost var i: nat :| Oldest(before, i) && i < |before| && table == Remove(before, i);
          EvictingStep(rows, limit, gone, before, i);
          gone := gone + [before[i]];
        }
      }
      EvictionEnds(rows, limit, gone, table);
    }

    /** `registerCacheEntry`. */
    method RegisterCacheEntry(key: string, path: string, size: int, now: int)
      requires Valid() && limit >= 0
      modifies this`table
      ensures Valid() && Total(table) <= limit
      ensures exists gone :: Evicted(Put(old(table), Row(key, path, size, now)), limit, gone, table)
      ensures NonNegative(old(table)) && size >= 0 && (forall r | r in old(table) :: r.lastAccess < now) ==>
        (Row(key, path, size, now) in table <==> size <= limit)
      ensures Total(Others(old(table), key)) + size <= limit ==>
        multiset(table) == multiset(Others(old(table), key)) + multiset{Row(key, path, size, now)}
    {
      hide Evicted, Total, Distinct, Put;
      var row := Row(key, path, size, now);
      PutDistinct(table, row);
      ghost var rows := Put(table, row);
      ghost var earlier := table;
      table := Put(table, row);
      EvictIfNeeded();
      ghost var gone :| Evicted(rows, limit, gone, table);
      PutExactly(earlier, row);
      if Total(rows) <= limit {
        NothingEvicted(rows, limit, gone, table);
      }
      EvictedTotal(rows, limit, gone, table);
      if NonNegative(earlier) && size >= 0 && (forall r | r in earlier :: r.lastAccess < now) {
        RegisteredStays(earlier, row, limit, gone, table);
      }
    }

    /** `getCachedPath`: the path, and a new access time; the empty string for a key that is not there. */
    method GetCachedPath(key: string, now: int) returns (path: string)
      requires Valid()
      modifies this`table
      ensures Valid() && Total(table) == Total(old(table))
      ensures var m := Find(old(table), key, 0);
        if m < |old(table)|
        then path == old(table)[m].path && table == old(table)[m := old(table)[m].(lastAccess := now)]
        else path == "" && table == old(table)
    {
      hide Total;
      var m := Find(table, key, 0);
      if m == |table| {
        return "";
      }
      path := table[m].path;
      TouchKeepsTotal(table, m, now);
      table := table[m := table[m].(lastAccess := now)];
    }
  }

  lemma TouchKeepsTotal(t: seq<Row>, m: nat, now: int)
    requires m < |t|
    ensures Total(t[m := t[m].(lastAccess := now)]) == Total(t)
  {
    hide Total;
    var u := t[m := t[m].(lastAccess := now)];
    TotalRemove(t, m);
    TotalRemove(u, m);
    assert Remove(u, m) == Remove(t, m);
  }

  lemma RegisteredStays(t: seq<Row>, r: Row, limit: int, gone: seq<Row>, after: seq<Row>)
    requires Distinct(t) && NonNegative(t) && r.size >= 0 && (forall x | x in t :: x.lastAccess < r.lastAccess)
    requires Evicted(Put(t, r), limit, gone, after)
    ensures r in after <==> r.size <= limit
  {
    hide Evicted, Total;
    PutDistinct(t, r);
    var rows := Put(t, r);
    var n :| 0 <= n < |rows| && rows[n] == r;
    assert forall j | 0 <= j < |rows| && j != n :: rows[j] in rows;
    NewestStays(rows, n, limit, gone, after);
  }

  /** Deletions so far, the eviction not yet over. */
  ghost predicate Evicting(before: seq<Row>, limit: int, gone: seq<Row>, now: seq<Row>) {
    forall more, after | Evicted(now, limit, more, after) :: Evicted(before, limit, gone + more, after)
  }

  lemma EvictionStarts(t: seq<Row>, limit: int)
    ensures Evicting(t, limit, [], t)
  {
    hide Evicted;
    forall more, after | Evicted(t, limit, more, after) ensures Evicted(t, limit, [] + more, after) {
      assert [] + more == more;
    }
  }

  lemma EvictingStep(before: seq<Row>, limit: int, gone: seq<Row>, t: seq<Row>, i: nat)
    requires Evicting(before, limit, gone, t) && i < |t| && Oldest(t, i) && Total(t) > limit
    ensures Evicting(before, limit, gone + [t[i]], Remove(t, i))
  {
    hide Oldest, Total;
    forall more, after | Evicted(Remove(t, i), limit, more, after)
      ensures Evicted(before, limit, gone + [t[i]] + more, after)
    {
      OneMore(t, limit, i, more, after);
      assert gone + ([t[i]] + more) == gone + [t[i]] + more;
    }
  }

  lemma OneMore(t: seq<Row>, limit: int, i: nat, more: seq<Row>, after: seq<Row>)
    requires i < |t| && Oldest(t, i) && Total(t) > limit && Evicted(Remove(t, i), limit, more, after)
    ensures Evicted(t, limit, [t[i]] + more, after)
  {
  }

  lemma EvictionEnds(before: seq<Row>, limit: int, gone: seq<Row>, t: seq<Row>)
    requires Evicting(before, limit, gone, t) && Total(t) <= limit
    ensures Evicted(before, limit, gone, t)
  {
    assert Evicted(t, limit, [], t);
    assert gone + [] == gone;
  }
}
