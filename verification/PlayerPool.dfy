/**
  The feed's pool of five media players, addressed by feed index modulo five: the player of the
  current video, two preloaded ahead, and the ones behind until they are released or overwritten.
 */
module PlayerPool {
  import opened Wrappers

  datatype PlayState = Idle | Preloading | Ready | Playing | Paused | Error

  /**
    `live` is a non-null player; `started` is whether it was last told to play. A player is `due`
    when its message loop has found its index to be the current one, and is about to start it.
   */
  datatype Slot = Slot(live: bool, started: bool, due: bool, index: int, url: Option<string>, state: PlayState)

  const POOL_SIZE: nat := 5
  const PRELOAD_COUNT: nat := 2

  datatype Feed = Feed(urls: seq<string>, pool: seq<Slot>, current: int)

  function Place(index: nat): (k: nat)
    ensures k < 5
  {
    index % POOL_SIZE
  }

  /** A zeroed slot: no player, and feed index 0 whatever its place. */
  function Blank(): Slot { Slot(false, false, false, 0, None, Idle) }

  function Created(urls: seq<string>): Feed { Feed(urls, seq(5, _ => Blank()), -1) }

  /** `viral_player_init_slot`: a new player, preloading, not started. */
  function NewSlot(urls: seq<string>, index: nat): Slot {
    if index < |urls| then Slot(true, false, false, index, Some(urls[index]), Preloading)
    else Slot(false, false, false, index, None, Idle)
  }

  function Prepare(f: Feed, index: nat): (g: Feed)
    requires |f.pool| == 5
    ensures |g.pool| == 5 && g.urls == f.urls && g.current == f.current
  {
    f.(pool := f.pool[Place(index) := NewSlot(f.urls, index)])
  }

  // ---------------------------------------------------------------- the four steps of a scroll

  function PausePrevious(f: Feed, prev: int, index: nat): (g: Feed)
    requires |f.pool| == 5
    ensures |g.pool| == 5 && g.urls == f.urls && g.current == f.current
  {
    if prev < 0 || prev == index then f
    else
      var was := f.pool[Place(prev)];
      if was.live && was.index == prev then f.(pool := f.pool[Place(prev) := was.(started := false)]) else f
  }

  function PlayCurrent(f: Feed, index: nat): (g: Feed)
    requires |f.pool| == 5
    ensures |g.pool| == 5 && g.urls == f.urls && g.current == f.current
  {
    var cur := f.pool[Place(index)];
    if cur.index == index && cur.live then
      if cur.state == Ready || cur.state == Paused
      then f.(pool := f.pool[Place(index) := cur.(started := true)])
      else f
    else Prepare(f, index)
  }

  function PreloadOne(f: Feed, next: nat): (g: Feed)
    requires |f.pool| == 5
    ensures |g.pool| == 5 && g.urls == f.urls && g.current == f.current
  {
    if f.pool[Place(next)].index != next then Prepare(f, next) else f
  }

  /** The loop from its `i`-th turn on. */
  function Preload(f: Feed, index: nat, i: nat): (g: Feed)
    requires |f.pool| == 5
    ensures |g.pool| == 5 && g.urls == f.urls && g.current == f.current
    decreases PRELOAD_COUNT + 1 - i
  {
    if i > PRELOAD_COUNT || index + i >= |f.urls| then f else Preload(PreloadOne(f, index + i), index, i + 1)
  }

  function Release(f: Feed, index: nat): (g: Feed)
    requires |f.pool| == 5
    ensures |g.pool| == 5 && g.urls == f.urls && g.current == f.current
  {
    if index < PRELOAD_COUNT + 1 then f
    else
      var gone := index - PRELOAD_COUNT - 1;
      var was := f.pool[Place(gone)];
      if was.index == gone && was.live
      then f.(pool := f.pool[Place(gone) := Slot(false, false, false, was.index, None, Idle)])
      else f
  }

  /** `viral_feed_scroll_to`. */
  function Scroll(f: Feed, index: int): Feed
    requires |f.pool| == 5
  {
    if index < 0 || index >= |f.urls| then f
    else
      var moved := f.(current := index);
      Release(Preload(PlayCurrent(PausePrevious(moved, f.current, index), index), index, 1), index)
  }

  /**
    A message from the player in slot `k`: its new state, and for a prepared video the comparison
    with the current index. The message loop does this without the feed's lock, and starts the
    player in a step of its own.
   */
  function Message(f: Feed, k: nat, state: PlayState): (g: Feed)
    requires |f.pool| == 5 && k < 5
    ensures |g.pool| == 5 && g.urls == f.urls && g.current == f.current
  {
    var s := f.pool[k];
    if !s.live then f
    else f.(pool := f.pool[k := s.(state := state, due := s.due || (state == Ready && s.index == f.current))])
  }

  function StartDue(f: Feed, k: nat): (g: Feed)
    requires |f.pool| == 5 && k < 5
    ensures |g.pool| == 5 && g.urls == f.urls && g.current == f.current
  {
    var s := f.pool[k];
    if s.live && s.due then f.(pool := f.pool[k := s.(started := true, due := false)]) else f
  }

  datatype Event = ScrollTo(index: int) | Told(slot: nat, state: PlayState) | Starts(slot: nat)

  function Apply(f: Feed, e: Event): (g: Feed)
    requires |f.pool| == 5
    ensures |g.pool| == 5 && g.urls == f.urls
  {
    match e
    case ScrollTo(index) => Scroll(f, index)
    case Told(k, state) => if k < 5 then Message(f, k, state) else f
    case Starts(k) => if k < 5 then StartDue(f, k) else f
  }

  function After(f: Feed, es: seq<Event>): (r: Feed)
    requires |f.pool| == 5
    ensures |r.pool| == 5 && r.urls == f.urls
  {
    if es == [] then f else Apply(After(f, es[..|es| - 1]), es[|es| - 1])
  }

  // ---------------------------------------------------------------- every run

  /** What holds of one slot: a player sits in its place and plays its own video. */
  predicate SlotOk(f: Feed, k: nat)
    requires k < |f.pool|
  {
    var s := f.pool[k];
    s.live ==>
      && 0 <= s.index < |f.urls| && Place(s.index) == k && s.url == Some(f.urls[s.index])
  }

  predicate Holds(f: Feed, index: nat)
    requires |f.pool| == 5
  {
    f.pool[Place(index)].live && f.pool[Place(index)].index == index
  }

  predicate Inv(f: Feed) {
    && |f.pool| == 5 && -1 <= f.current < |f.urls|
    && (forall k | 0 <= k < 5 :: SlotOk(f, k))
    && (f.current >= 0 ==> Holds(f, f.current))
  }

  lemma Apart(index: nat, d: nat)
    requires 1 <= d <= 4
    ensures Place(index + d) != Place(index)
  {
  }

  lemma SamePlace(index: nat)
    requires index >= 3
    ensures Place(index - 3) == Place(index + 2)
  {
  }

  predicate SlotsOk(f: Feed) {
    |f.pool| == 5 && 0 <= f.current < |f.urls| && forall k | 0 <= k < 5 :: SlotOk(f, k)
  }

  lemma PauseStep(f: Feed, index: nat)
    requires Inv(f) && index < |f.urls|
    ensures SlotsOk(PausePrevious(f.(current := index), f.current, index))
  {
    hide Place;
    var g := PausePrevious(f.(current := index), f.current, index);
    forall k | 0 <= k < 5 ensures SlotOk(g, k) {
      assert SlotOk(f, k);
    }
  }

  lemma PrepareStep(f: Feed, index: nat)
    requires SlotsOk(f) && index < |f.urls|
    ensures SlotsOk(Prepare(f, index)) && Holds(Prepare(f, index), index)
  {
    hide Place;
    var g := Prepare(f, index);
    forall k | 0 <= k < 5 ensures SlotOk(g, k) {
      assert SlotOk(f, k);
    }
  }

  lemma PlayStep(f: Feed, index: nat)
    requires SlotsOk(f) && f.current == index
    ensures SlotsOk(PlayCurrent(f, index)) && Holds(PlayCurrent(f, index), index)
  {
    hide Place;
    PrepareStep(f, index);
    var g := PlayCurrent(f, index);
    if g != Prepare(f, index) {
      forall k | 0 <= k < 5 ensures SlotOk(g, k) {
        assert SlotOk(f, k);
      }
    }
  }

  lemma PreloadOneStep(f: Feed, next: nat, index: nat)
    requires SlotsOk(f) && Holds(f, index) && next < |f.urls| && Place(next) != Place(index)
    ensures SlotsOk(PreloadOne(f, next)) && Holds(PreloadOne(f, next), index)
  {
    hide Place;
    PrepareStep(f, next);
  }

  lemma PreloadUnfolds(f: Feed, index: nat)
    requires |f.pool| == 5
    ensures Preload(f, index, 1) ==
      if index + 1 >= |f.urls| then f
      else if index + 2 >= |f.urls| then PreloadOne(f, index + 1)
      else PreloadOne(PreloadOne(f, index + 1), index + 2)
  {
  }

  lemma PreloadStep(f: Feed, index: nat)
    requires SlotsOk(f) && Holds(f, index)
    ensures SlotsOk(Preload(f, index, 1)) && Holds(Preload(f, index, 1), index)
  {
    hide Place, SlotOk, PreloadOne, Preload, Holds;
    PreloadUnfolds(f, index);
    Apart(index, 1);
    Apart(index, 2);
    if index + 1 < |f.urls| {
      PreloadOneStep(f, index + 1, index);
      if index + 2 < |f.urls| {
        PreloadOneStep(PreloadOne(f, index + 1), index + 2, index);
      }
    }
  }

  lemma ReleaseStep(f: Feed, index: nat)
    requires SlotsOk(f) && Holds(f, index)
    ensures SlotsOk(Release(f, index)) && Holds(Release(f, index), index)
  {
    hide Place;
    var g := Release(f, index);
    if index >= 3 {
      Apart(index - 3, 3);
    }
    forall k | 0 <= k < 5 ensures SlotOk(g, k) {
      assert SlotOk(f, k);
    }
  }

  lemma ScrollKeepsInv(f: Feed, index: int)
    requires Inv(f)
    ensures Inv(Scroll(f, index))
    ensures 0 <= index < |f.urls| ==> Scroll(f, index).current == index
  {
    hide Place, SlotOk, Holds, PausePrevious, PlayCurrent, Preload, Release;
    if 0 <= index < |f.urls| {
      var paused := PausePrevious(f.(current := index), f.current, index);
      var playing := PlayCurrent(paused, index);
      PauseStep(f, index);
      PlayStep(paused, index);
      PreloadStep(playing, index);
      ReleaseStep(Preload(playing, index, 1), index);
    }
  }

  lemma MessageKeepsInv(f: Feed, k: nat, state: PlayState)
    requires Inv(f) && k < 5
    ensures Inv(Message(f, k, state))
  {
    hide Place;
    var g := Message(f, k, state);
    forall j | 0 <= j < 5 ensures SlotOk(g, j) {
      assert SlotOk(f, j);
    }
  }

  lemma StartKeepsInv(f: Feed, k: nat)
    requires Inv(f) && k < 5
    ensures Inv(StartDue(f, k))
  {
    hide Place;
    var g := StartDue(f, k);
    forall j | 0 <= j < 5 ensures SlotOk(g, j) {
      assert SlotOk(f, j);
    }
  }

  lemma ApplyKeepsInv(f: Feed, e: Event)
    requires Inv(f)
    ensures Inv(Apply(f, e))
  {
    hide Inv, Scroll, Message, StartDue;
    assert |f.pool| == 5 by { InvSlot(f, 0); }
    match e
    case ScrollTo(index) => ScrollKeepsInv(f, index);
    case Told(k, state) => if k < 5 { MessageKeepsInv(f, k, state); }
    case Starts(k) => if k < 5 { StartKeepsInv(f, k); }
  }

  lemma InvSlot(f: Feed, k: nat)
    requires Inv(f) && k < 5
    ensures |f.pool| == 5 && SlotOk(f, k)
  {
  }

  lemma {:induction false} RunKeepsInv(urls: seq<string>, es: seq<Event>)
    ensures Inv(After(Created(urls), es))
  {
    hide Inv, Apply;
    if es == [] {
      CreatedInv(urls);
    } else {
      RunKeepsInv(urls, es[..|es| - 1]);
      ApplyKeepsInv(After(Created(urls), es[..|es| - 1]), es[|es| - 1]);
    }
  }

  lemma CreatedInv(urls: seq<string>)
    ensures Inv(Created(urls))
  {
  }

  /** In every run: players in their places with their own video, one for each index, the current one there. */
  lemma EveryRun(urls: seq<string>, es: seq<Event>)
    ensures var f := After(Created(urls), es);
      && (forall k | 0 <= k < 5 && f.pool[k].live ::
            && 0 <= f.pool[k].index < |urls| && f.pool[k].index % 5 == k
            && f.pool[k].url == Some(urls[f.pool[k].index]))
      && (forall j, k | 0 <= j < k < 5 && f.pool[j].live && f.pool[k].live :: f.pool[j].index != f.pool[k].index)
      && (f.current >= 0 ==> f.pool[f.current % 5].live && f.pool[f.current % 5].index == f.current)
  {
    hide After;
    RunKeepsInv(urls, es);
    var f := After(Created(urls), es);
    forall k | 0 <= k < 5 && f.pool[k].live
      ensures 0 <= f.pool[k].index < |urls| && f.pool[k].index % 5 == k && f.pool[k].url == Some(urls[f.pool[k].index])
    {
      InvSlot(f, k);
    }
  }

  // ---------------------------------------------------------------- which players are started

  /** A player is started whose video is not the current one. */
  predicate Stray(f: Feed) {
    exists k :: 0 <= k < |f.pool| && f.pool[k].live && f.pool[k].started && f.pool[k].index != f.current
  }

  /** A player is about to be started whose video is no longer the current one. */
  predicate Late(f: Feed) {
    exists k :: 0 <= k < |f.pool| && f.pool[k].live && f.pool[k].due && f.pool[k].index != f.current
  }

  lemma PauseTames(f: Feed, index: nat)
    requires Inv(f) && !Stray(f) && index < |f.urls|
    ensures !Stray(PausePrevious(f.(current := index), f.current, index))
  {
    hide Place;
    var g := PausePrevious(f.(current := index), f.current, index);
    forall k | 0 <= k < 5 && g.pool[k].live && g.pool[k].started ensures g.pool[k].index == index {
      InvSlot(f, k);
      assert f.pool[k].live && f.pool[k].started;
    }
  }

  lemma PlayTames(f: Feed, index: nat)
    requires |f.pool| == 5 && !Stray(f) && f.current == index
    ensures !Stray(PlayCurrent(f, index))
  {
    hide Place;
  }

  lemma PreloadTames(f: Feed, next: nat)
    requires |f.pool| == 5 && !Stray(f)
    ensures !Stray(PreloadOne(f, next))
  {
    hide Place;
  }

  lemma ReleaseTames(f: Feed, index: nat)
    requires |f.pool| == 5 && !Stray(f)
    ensures !Stray(Release(f, index))
  {
    hide Place;
  }

  /** A scroll by itself starts no other player than the current one, and pauses the one before. */
  lemma ScrollTames(f: Feed, index: int)
    requires Inv(f) && !Stray(f)
    ensures !Stray(Scroll(f, index))
  {
    hide Stray, Inv, PausePrevious, PlayCurrent, Preload, PreloadOne, Release, Place;
    InvSlot(f, 0);
    if 0 <= index < |f.urls| {
      var paused := PausePrevious(f.(current := index), f.current, index);
      var playing := PlayCurrent(paused, index);
      PauseTames(f, index);
      PlayTames(paused, index);
      PreloadUnfolds(playing, index);
      PreloadTames(playing, index + 1);
      PreloadTames(PreloadOne(playing, index + 1), index + 2);
      ReleaseTames(Preload(playing, index, 1), index);
    }
  }

  /** The slot has the same player, with the same start still to come. */
  predicate Kept(s: Slot, t: Slot) {
    s.live == t.live && s.index == t.index && s.due == t.due
  }

  /** Every start that is still to come after a scroll was to come before it. */
  predicate NoNewDue(f: Feed, g: Feed) {
    |f.pool| == |g.pool| == 5 && forall k | 0 <= k < 5 :: Kept(f.pool[k], g.pool[k]) || !g.pool[k].due
  }

  lemma StepsAddNoDue(f: Feed, prev: int, index: nat)
    requires |f.pool| == 5
    ensures NoNewDue(f, PausePrevious(f, prev, index)) && NoNewDue(f, PlayCurrent(f, index))
    ensures NoNewDue(f, PreloadOne(f, index)) && NoNewDue(f, Release(f, index)) && NoNewDue(f, f)
  {
    hide Place;
  }

  lemma NoNewDueTwice(f: Feed, g: Feed, h: Feed)
    requires NoNewDue(f, g) && NoNewDue(g, h)
    ensures NoNewDue(f, h)
  {
    forall k | 0 <= k < 5 ensures Kept(f.pool[k], h.pool[k]) || !h.pool[k].due {
      assert Kept(f.pool[k], g.pool[k]) || !g.pool[k].due;
    }
  }

  lemma ScrollAddsNoDue(f: Feed, index: nat)
    requires |f.pool| == 5 && index < |f.urls|
    ensures |Scroll(f, index).pool| == 5 && NoNewDue(f, Scroll(f, index))
  {
    hide NoNewDue, PausePrevious, PlayCurrent, Preload, PreloadOne, Release, Place;
    var moved := f.(current := index);
    var paused := PausePrevious(moved, f.current, index);
    var playing := PlayCurrent(paused, index);
    var first := PreloadOne(playing, index + 1);
    var ahead := Preload(playing, index, 1);
    StepsAddNoDue(moved, f.current, index);
    StepsAddNoDue(paused, 0, index);
    StepsAddNoDue(playing, 0, index + 1);
    StepsAddNoDue(first, 0, index + 2);
    StepsAddNoDue(ahead, 0, index);
    PreloadUnfolds(playing, index);
    NoNewDueTwice(playing, first, PreloadOne(first, index + 2));
    NoNewDueTwice(moved, paused, playing);
    NoNewDueTwice(moved, playing, ahead);
    NoNewDueTwice(moved, ahead, Release(ahead, index));
    SamePool(f, moved, Scroll(f, index));
  }

  lemma SamePool(f: Feed, moved: Feed, g: Feed)
    requires moved.pool == f.pool && NoNewDue(moved, g)
    ensures NoNewDue(f, g)
  {
  }

  /** The slot of `c` is as it was, or has been given to a video that the scroll needs. */
  predicate Tracked(s: Slot, g: Feed, c: nat, index: nat)
    requires |g.pool| == 5
  {
    var t := g.pool[Place(c)];
    Kept(s, t) || (index <= t.index <= index + 2 && t.index != c && Place(t.index) == Place(c))
  }

  lemma PlayTracks(f: Feed, c: nat, index: nat)
    requires |f.pool| == 5 && Holds(f, c) && c != index && index < |f.urls|
    ensures Tracked(f.pool[Place(c)], PlayCurrent(f, index), c, index)
  {
    hide Place;
  }

  lemma PreloadTracks(s: Slot, f: Feed, c: nat, index: nat, d: nat)
    requires |f.pool| == 5 && s.live && s.index == c && Tracked(s, f, c, index) && 1 <= d <= 2
    requires f.pool[Place(c)].index <= index + d - 1 || Kept(s, f.pool[Place(c)])
    ensures Tracked(s, PreloadOne(f, index + d), c, index)
    ensures var t := PreloadOne(f, index + d).pool[Place(c)]; t.index <= index + d || Kept(s, t)
  {
    hide Place;
    var t := f.pool[Place(c)];
    if !Kept(s, t) {
      Apart(t.index, index + d - t.index);
    }
  }

  /** A player that survives a scroll to another video keeps the start that was still to come. */
  lemma ScrollTracks(f: Feed, index: nat)
    requires Inv(f) && f.current >= 0 && index != f.current && index < |f.urls|
    ensures |Scroll(f, index).pool| == 5
    ensures Holds(Scroll(f, index), f.current) ==>
      Scroll(f, index).pool[Place(f.current)].due == f.pool[Place(f.current)].due
  {
    hide PausePrevious, PlayCurrent, Preload, PreloadOne, Place, Inv;
    var c := f.current;
    InvSlot(f, 0);
    InvHolds(f);
    var s, moved := f.pool[Place(c)], f.(current := index);
    var paused := PausePrevious(moved, c, index);
    var playing := PlayCurrent(paused, index);
    var first := PreloadOne(playing, index + 1);
    PauseKeeps(moved, c, index, Place(c));
    PlayTracks(paused, c, index);
    PlayedAt(paused, c, index);
    PreloadTracks(s, playing, c, index, 1);
    PreloadTracks(s, first, c, index, 2);
    PreloadUnfolds(playing, index);
  }

  lemma InvHolds(f: Feed)
    requires Inv(f) && f.current >= 0
    ensures |f.pool| == 5 && Holds(f, f.current)
  {
  }

  lemma PauseKeeps(f: Feed, prev: int, index: nat, k: nat)
    requires |f.pool| == 5 && k < 5
    ensures Kept(f.pool[k], PausePrevious(f, prev, index).pool[k])
  {
    hide Place;
  }

  lemma PlayedAt(f: Feed, c: nat, index: nat)
    requires |f.pool| == 5 && Holds(f, c) && c != index && index < |f.urls|
    ensures var t := PlayCurrent(f, index).pool[Place(c)]; t.index <= index || Kept(f.pool[Place(c)], t)
  {
    hide Place;
  }

  /** A scroll leaves a start too late exactly when it moves away from a video whose player is due and survives. */
  lemma LateExactly(f: Feed, index: int)
    requires Inv(f) && !Late(f)
    ensures |Scroll(f, index).pool| == 5
    ensures Late(Scroll(f, index)) <==>
      && 0 <= index < |f.urls| && 0 <= f.current != index
      && f.pool[Place(f.current)].due && Holds(Scroll(f, index), f.current)
  {
    hide Place, Scroll;
    if 0 <= index < |f.urls| {
      var g := Scroll(f, index);
      ScrollAddsNoDue(f, index);
      ScrollKeepsInv(f, index);
      if f.current >= 0 && index != f.current {
        ScrollTracks(f, index);
      }
      if k :| 0 <= k < |g.pool| && g.pool[k].live && g.pool[k].due && g.pool[k].index != g.current {
        assert Kept(f.pool[k], g.pool[k]);
        InvSlot(f, k);
      }
    } else {
      OutOfRange(f, index);
    }
  }

  lemma OutOfRange(f: Feed, index: int)
    requires |f.pool| == 5 && !(0 <= index < |f.urls|)
    ensures Scroll(f, index) == f
  {
  }

  predicate NoScroll(es: seq<Event>) {
    forall i | 0 <= i < |es| :: !es[i].ScrollTo?
  }

  lemma MessagesTame(f: Feed, e: Event)
    requires |f.pool| == 5 && !Stray(f) && !Late(f) && !e.ScrollTo?
    ensures !Stray(Apply(f, e)) && !Late(Apply(f, e))
  {
  }

  lemma {:induction false} NoScrollTames(f: Feed, es: seq<Event>)
    requires |f.pool| == 5 && !Stray(f) && !Late(f) && NoScroll(es)
    ensures !Stray(After(f, es)) && !Late(After(f, es))
  {
    hide Apply, Stray, Late;
    if es != [] {
      NoScrollTames(f, es[..|es| - 1]);
      MessagesTame(After(f, es[..|es| - 1]), es[|es| - 1]);
    }
  }

  /** Until the next scroll no other player than the current one is started, exactly when none is late. */
  lemma StrayExactly(f: Feed)
    requires |f.pool| == 5 && !Stray(f)
    ensures (forall es | NoScroll(es) :: !Stray(After(f, es))) <==> !Late(f)
  {
    hide After;
    if Late(f) {
      var k :| 0 <= k < |f.pool| && f.pool[k].live && f.pool[k].due && f.pool[k].index != f.current;
      OneEvent(f, Starts(k));
      var g := StartDue(f, k);
      assert g.pool[k].started && g.pool[k].live && g.pool[k].index != g.current;
      assert NoScroll([Starts(k)]) && Stray(After(f, [Starts(k)]));
    } else {
      forall es | NoScroll(es) ensures !Stray(After(f, es)) {
        NoScrollTames(f, es);
      }
    }
  }

  lemma OneEvent(f: Feed, e: Event)
    requires |f.pool| == 5
    ensures After(f, [e]) == Apply(f, e)
  {
    assert [e][..0] == [];
  }

  /** No scroll to another video comes between a comparison that succeeds and the start that follows it. */
  predicate Prompt(f: Feed, e: Event)
    requires |f.pool| == 5
  {
    e.ScrollTo? && 0 <= e.index < |f.urls| && 0 <= f.current != e.index ==> !f.pool[Place(f.current)].due
  }

  predicate Orderly(urls: seq<string>, es: seq<Event>) {
    forall i | 0 <= i < |es| :: Prompt(After(Created(urls), es[..i]), es[i])
  }

  /** In every such run no other player than the current one is ever started. */
  lemma {:induction false} OrderlyRun(urls: seq<string>, es: seq<Event>)
    requires Orderly(urls, es)
    ensures !Stray(After(Created(urls), es)) && !Late(After(Created(urls), es))
  {
    hide Stray, Late, Scroll, Apply, Inv;
    if es == [] {
      CreatedTame(urls);
    } else {
      var before, last := es[..|es| - 1], es[|es| - 1];
      var f := After(Created(urls), before);
      assert forall i | 0 <= i < |before| :: before[..i] == es[..i] && before[i] == es[i];
      OrderlyRun(urls, before);
      RunKeepsInv(urls, before);
      assert Prompt(f, last);
      if last.ScrollTo? {
        assert Apply(f, last) == Scroll(f, last.index) by { ApplyScroll(f, last.index); }
        ScrollTames(f, last.index);
        LateExactly(f, last.index);
      } else {
        MessagesTame(f, last);
      }
    }
  }

  lemma ApplyScroll(f: Feed, index: int)
    requires |f.pool| == 5
    ensures Apply(f, ScrollTo(index)) == Scroll(f, index)
  {
  }

  lemma CreatedTame(urls: seq<string>)
    ensures !Stray(Created(urls)) && !Late(Created(urls))
  {
  }

  // ---------------------------------------------------------------- that the current video plays

  /**
    After a scroll the player of the new video is running exactly when it was there before and was
    running, ready or paused; otherwise it is being prepared.
   */
  lemma ScrollPlays(f: Feed, index: nat)
    requires Inv(f) && index < |f.urls|
    ensures |f.pool| == 5 && |Scroll(f, index).pool| == 5
    ensures var was, now := f.pool[Place(index)], Scroll(f, index).pool[Place(index)];
      && now.live && now.index == index && now.url == Some(f.urls[index])
      && (now.started <==> was.live && was.index == index && (was.started || was.state == Ready || was.state == Paused))
      && (!(was.live && was.index == index) ==> now.state == Preloading)
  {
    hide Place, Preload, PreloadOne, PlayCurrent, Release, PausePrevious, Inv, SlotOk;
    InvSlot(f, Place(index));
    if f.current >= 0 {
      InvHolds(f);
    }
    var moved := f.(current := index);
    var paused := PausePrevious(moved, f.current, index);
    var playing := PlayCurrent(paused, index);
    var first := PreloadOne(playing, index + 1);
    PauseSpares(f, index);
    PlaysExactly(paused, index);
    ScrollKeepsInv(f, index);
    CurrentSlot(Scroll(f, index), index);
    PreloadUnfolds(playing, index);
    Apart(index, 1);
    Apart(index, 2);
    PreloadLeaves(playing, index + 1, Place(index));
    PreloadLeaves(first, index + 2, Place(index));
    ReleaseLeaves(Preload(playing, index, 1), index);
  }

  /** Only another video's player is paused. */
  lemma PauseSpares(f: Feed, index: nat)
    requires |f.pool| == 5 && index < |f.urls| && (f.current >= 0 ==> Holds(f, f.current))
    ensures var k := Place(index);
      var was, now := f.pool[k], PausePrevious(f.(current := index), f.current, index).pool[k];
      && now.live == was.live && now.index == was.index && now.state == was.state
      && (was.live && was.index == index ==> now.started == was.started)
  {
    hide Place;
  }

  lemma PlaysExactly(f: Feed, index: nat)
    requires |f.pool| == 5 && index < |f.urls|
    ensures var was, now := f.pool[Place(index)], PlayCurrent(f, index).pool[Place(index)];
      && (now.started <==> was.live && was.index == index && (was.started || was.state == Ready || was.state == Paused))
      && (!(was.live && was.index == index) ==> now.state == Preloading)
  {
    hide Place;
  }

  lemma PreloadLeaves(f: Feed, next: nat, k: nat)
    requires |f.pool| == 5 && k < 5 && k != Place(next)
    ensures PreloadOne(f, next).pool[k] == f.pool[k]
  {
    hide Place;
  }

  lemma ReleaseLeaves(f: Feed, index: nat)
    requires |f.pool| == 5
    ensures Release(f, index).pool[Place(index)] == f.pool[Place(index)]
  {
    hide Place;
    if index >= 3 {
      Apart(index - 3, 3);
    }
  }

  lemma CurrentSlot(f: Feed, index: nat)
    requires Inv(f) && f.current == index
    ensures |f.pool| == 5 && index < |f.urls|
    ensures var s := f.pool[Place(index)]; s.live && s.index == index && s.url == Some(f.urls[index])
  {
    hide Place;
    assert SlotOk(f, Place(index));
  }

  /** A message sets its player's state, and a start to come if the current video is prepared; nothing else. */
  lemma MessageExactly(f: Feed, k: nat, state: PlayState)
    requires |f.pool| == 5 && k < 5 && f.pool[k].live
    ensures var g, due := Message(f, k, state), state == Ready && f.pool[k].index == f.current;
      g == f.(pool := f.pool[k := f.pool[k].(state := state, due := due || f.pool[k].due)])
  {
  }

  /** A player that reports its video prepared while it is the current one is running one step later. */
  lemma PreparedPlays(f: Feed)
    requires Inv(f) && f.current >= 0
    ensures |f.pool| == 5
    ensures var k := Place(f.current); StartDue(Message(f, k, Ready), k).pool[k].started
  {
    hide Place;
  }

  /** A start that was to come is made once: after the video was scrolled away from and its player paused, not again. */
  lemma StartsOnce(f: Feed, k: nat, index: nat)
    requires Inv(f) && k < 5 && f.current >= 0 && Place(f.current) == k && index != f.current
    ensures |f.pool| == 5
    ensures var g := StartDue(f, k);
      var paused := PausePrevious(g, f.current, index);
      && (g.pool[k].started <==> f.pool[k].started || f.pool[k].due)
      && !paused.pool[k].started && StartDue(paused, k) == paused
      && forall j | 0 <= j < 5 && j != k :: paused.pool[j] == f.pool[j]
  {
  }

  // ---------------------------------------------------------------- scrolling forward

  /** The scrolls among the events are 0, 1, 2 and so on up to `i`; -1 for none. */
  predicate ForwardTo(es: seq<Event>, i: int) {
    if es == [] then i == -1
    else
      var before, last := es[..|es| - 1], es[|es| - 1];
      if !last.ScrollTo? then ForwardTo(before, i) else last.index == i && i >= 0 && ForwardTo(before, i - 1)
  }

  /** No player yet. */
  predicate Empty(f: Feed) {
    |f.pool| == 5 && f.current == -1 && forall k | 0 <= k < 5 :: !f.pool[k].live && f.pool[k].index == 0
  }

  predicate InWindow(s: Slot, k: nat, i: nat) {
    && s.index <= i + 2
    && (s.live ==> 0 <= s.index && i <= s.index + 2 && Place(s.index) == k)
    && (!s.live ==> s.index <= i)
  }

  /** The players around `i`, and no stale index ahead of it. */
  predicate Window(f: Feed, i: nat) {
    && |f.pool| == 5 && i < |f.urls| && f.current == i
    && (forall j: nat | i <= j + 2 && j <= i + 2 && j < |f.urls| :: Holds(f, j))
    && (forall k | 0 <= k < 5 :: InWindow(f.pool[k], k, i))
  }

  predicate SameSlot(s: Slot, t: Slot) {
    s.live == t.live && s.index == t.index
  }

  /** The same feed up to playback: every slot has the same player. */
  predicate SameLook(f: Feed, g: Feed) {
    && |f.pool| == |g.pool| == 5 && f.urls == g.urls
    && forall k | 0 <= k < 5 :: SameSlot(f.pool[k], g.pool[k])
  }

  lemma PauseLook(f: Feed, prev: int, index: nat)
    requires |f.pool| == 5
    ensures SameLook(f, PausePrevious(f, prev, index))
  {
  }

  lemma PlayLook(f: Feed, index: nat)
    requires |f.pool| == 5 && Holds(f, index)
    ensures SameLook(f, PlayCurrent(f, index))
  {
  }

  /** A step forward touches one slot: it takes in the next video, or lets go of the last one behind. */
  lemma StepForward(f: Feed, i: nat)
    requires Window(f, i) && i + 1 < |f.urls|
    ensures var g := Scroll(f, i + 1);
      && |g.pool| == 5 && g.urls == f.urls && g.current == i + 1
      && (forall k | 0 <= k < 5 && k != Place(i + 3) :: SameSlot(f.pool[k], g.pool[k]))
      && var s := g.pool[Place(i + 3)];
         if i + 3 < |f.urls| then s.live && s.index == i + 3
         else if i >= 2 then !s.live && s.index == i - 2
         else SameSlot(f.pool[Place(i + 3)], s)
  {
    hide Place, Window, PausePrevious, PlayCurrent, Preload;
    WindowHolds(f, i, i + 1);
    var moved := f.(current := i + 1);
    var paused := PausePrevious(moved, f.current, i + 1);
    PauseLook(moved, f.current, i + 1);
    PlayLook(paused, i + 1);
    var playing := PlayCurrent(paused, i + 1);
    PreloadUnfolds(playing, i + 1);
    if i + 2 < |f.urls| {
      WindowHolds(f, i, i + 2);
    }
    WindowSlot(f, i, Place(i + 3));
    if i >= 2 {
      SamePlace(i + 1);
      WindowHolds(f, i, i - 2);
    }
  }

  lemma WindowHolds(f: Feed, i: nat, j: nat)
    requires Window(f, i) && i <= j + 2 && j <= i + 2 && j < |f.urls|
    ensures |f.pool| == 5 && f.pool[Place(j)].live && f.pool[Place(j)].index == j
  {
    assert Holds(f, j);
  }

  lemma WindowSlot(f: Feed, i: nat, k: nat)
    requires Window(f, i) && k < 5
    ensures |f.pool| == 5 && InWindow(f.pool[k], k, i)
  {
  }

  lemma WindowMoves(f: Feed, i: nat)
    requires Window(f, i) && i + 1 < |f.urls|
    ensures Window(Scroll(f, i + 1), i + 1)
  {
    hide Place, Window, Scroll;
    WindowSlot(f, i, 0);
    var g, new_ := Scroll(f, i + 1), Place(i + 3);
    StepForward(f, i);
    forall j: nat | i + 1 <= j + 2 && j <= i + 3 && j < |f.urls| ensures Holds(g, j) {
      if j < i + 3 {
        Apart(j, i + 3 - j);
        WindowHolds(f, i, j);
        assert SameSlot(f.pool[Place(j)], g.pool[Place(j)]);
      }
    }
    forall k | 0 <= k < 5 ensures InWindow(g.pool[k], k, i + 1) {
      WindowSlot(f, i, k);
      var s := f.pool[k];
      if k != new_ {
        assert SameSlot(s, g.pool[k]);
        if s.live && s.index == i - 2 {
          SamePlace(i + 1);
        }
      } else if i + 3 >= |f.urls| && i < 2 && s.live {
        Apart(s.index, i + 3 - s.index);
      }
    }
    assert Window(g, i + 1) by { WindowIs(g, i + 1); }
  }

  lemma WindowIs(f: Feed, i: nat)
    requires |f.pool| == 5 && i < |f.urls| && f.current == i
    requires forall j: nat | i <= j + 2 && j <= i + 2 && j < |f.urls| :: Holds(f, j)
    requires forall k | 0 <= k < 5 :: InWindow(f.pool[k], k, i)
    ensures Window(f, i)
  {
  }

  lemma FirstWindow(f: Feed)
    requires Empty(f) && |f.urls| > 0
    ensures Window(Scroll(f, 0), 0)
  {
  }

  lemma MessageLook(f: Feed, k: nat, state: PlayState)
    requires |f.pool| == 5 && k < 5
    ensures SameLook(f, Message(f, k, state)) && Message(f, k, state).current == f.current
  {
  }

  lemma LookKeepsWindow(f: Feed, g: Feed, i: nat)
    requires SameLook(f, g) && f.current == g.current && Window(f, i)
    ensures Window(g, i)
  {
    hide Place;
    forall k | 0 <= k < 5 ensures InWindow(g.pool[k], k, i) {
      assert InWindow(f.pool[k], k, i) && SameSlot(f.pool[k], g.pool[k]);
    }
    forall j: nat | i <= j + 2 && j <= i + 2 && j < |f.urls| ensures Holds(g, j) {
      assert Holds(f, j) && SameSlot(f.pool[Place(j)], g.pool[Place(j)]);
    }
  }

  lemma StartLook(f: Feed, k: nat)
    requires |f.pool| == 5 && k < 5
    ensures SameLook(f, StartDue(f, k)) && StartDue(f, k).current == f.current
  {
  }

  lemma QuietLook(f: Feed, e: Event)
    requires |f.pool| == 5 && !e.ScrollTo?
    ensures SameLook(f, Apply(f, e)) && Apply(f, e).current == f.current
  {
    hide Message, StartDue;
    match e
    case Told(k, state) => if k < 5 { MessageLook(f, k, state); }
    case Starts(k) => if k < 5 { StartLook(f, k); }
  }

  lemma {:induction false} ForwardWindow(urls: seq<string>, es: seq<Event>, i: int)
    requires ForwardTo(es, i) && i < |urls|
    ensures var f := After(Created(urls), es); if i < 0 then Empty(f) else Window(f, i)
    decreases |es|
  {
    hide Window, Apply, Scroll;
    if es != [] {
      var before, last := es[..|es| - 1], es[|es| - 1];
      var f := After(Created(urls), before);
      if last.ScrollTo? {
        ForwardWindow(urls, before, i - 1);
        ApplyScroll(f, i);
        if i == 0 {
          FirstWindow(f);
        } else {
          WindowMoves(f, i - 1);
        }
      } else {
        ForwardWindow(urls, before, i);
        QuietLook(f, last);
        if i >= 0 {
          LookKeepsWindow(f, Apply(f, last), i);
        } else {
          LookKeepsEmpty(f, Apply(f, last));
        }
      }
    }
  }

  lemma LookKeepsEmpty(f: Feed, g: Feed)
    requires SameLook(f, g) && f.current == g.current && Empty(f)
    ensures Empty(g)
  {
  }

  /** Some slot has a player for this index. */
  predicate HasPlayer(f: Feed, index: int) {
    exists k :: 0 <= k < |f.pool| && f.pool[k].live && f.pool[k].index == index
  }

  /** Scrolling forward one by one, the live players are two behind, the current one and two ahead, within the feed. */
  lemma ForwardExact(urls: seq<string>, es: seq<Event>, i: nat, j: int)
    requires ForwardTo(es, i) && i < |urls|
    ensures HasPlayer(After(Created(urls), es), j) <==> 0 <= j < |urls| && i - 2 <= j <= i + 2
  {
    hide After, ForwardTo, Place, Inv;
    ForwardWindow(urls, es, i);
    RunKeepsInv(urls, es);
    var f := After(Created(urls), es);
    if 0 <= j < |urls| && i - 2 <= j <= i + 2 {
      assert Holds(f, j);
    }
    if k :| 0 <= k < |f.pool| && f.pool[k].live && f.pool[k].index == j {
      WindowSlot(f, i, k);
      InvSlot(f, k);
    }
  }

  // ---------------------------------------------------------------- preloading after any run

  /** A slot that kept its index when its player was released, or a zeroed slot. */
  predicate Stale(f: Feed, index: nat)
    requires |f.pool| == 5
  {
    !f.pool[Place(index)].live && f.pool[Place(index)].index == index
  }

  /** A scroll preloads each of the next two videos exactly when its slot is not stale. */
  lemma PreloadExact(f: Feed, index: nat, d: nat)
    requires |f.pool| == 5 && 1 <= d <= 2 && index + d < |f.urls|
    ensures |Scroll(f, index).pool| == 5 && (Holds(Scroll(f, index), index + d) <==> !Stale(f, index + d))
  {
    hide Place, Preload, PreloadOne, PlayCurrent, Release, PausePrevious, SameLook;
    var moved := f.(current := index);
    var paused := PausePrevious(moved, f.current, index);
    var playing := PlayCurrent(paused, index);
    var first := PreloadOne(playing, index + 1);
    var ahead := Preload(playing, index, 1);
    var k := Place(index + d);
    assert SameSlot(f.pool[k], paused.pool[k]) by { PauseKeeps(moved, f.current, index, k); }
    Apart(index, d);
    Apart(index + 1, 1);
    PlayLeaves(paused, index, k);
    PreloadUnfolds(playing, index);
    PreloadOneExact(playing, index + 1, k);
    PreloadOneExact(first, index + 2, k);
    ReleaseSpares(ahead, index, d);
  }

  lemma PlayLeaves(f: Feed, index: nat, k: nat)
    requires |f.pool| == 5 && k < 5 && k != Place(index)
    ensures PlayCurrent(f, index).pool[k] == f.pool[k]
  {
    hide Place;
  }

  lemma PreloadOneExact(f: Feed, next: nat, k: nat)
    requires |f.pool| == 5 && k < 5
    ensures k != Place(next) ==> PreloadOne(f, next).pool[k] == f.pool[k]
    ensures next < |f.urls| ==> (Holds(PreloadOne(f, next), next) <==> !Stale(f, next))
    ensures next < |f.urls| ==> PreloadOne(f, next).pool[Place(next)].index == next
  {
    hide Place;
  }

  lemma ReleaseSpares(f: Feed, index: nat, d: nat)
    requires |f.pool| == 5 && 1 <= d <= 2 && (d == 2 ==> f.pool[Place(index + 2)].index == index + 2)
    ensures Release(f, index).pool[Place(index + d)] == f.pool[Place(index + d)]
  {
    hide Place;
    Apart(index + 1, 1);
    if index >= 3 {
      SamePlace(index);
    }
  }

  /** A scroll between the comparison and the start: video 0 is started while video 1 is the current one. */
  lemma StartTooLate(urls: seq<string>)
    requires |urls| >= 2
    ensures Stray(After(Created(urls), [ScrollTo(0), Told(0, Ready), ScrollTo(1), Starts(0)]))
  {
    hide Scroll, Window, After, Inv;
    FourEvents(Created(urls), ScrollTo(0), Told(0, Ready), ScrollTo(1), Starts(0));
    var f0 := Scroll(Created(urls), 0);
    FirstWindow(Created(urls));
    WindowHolds(f0, 0, 0);
    assert Place(0) == 0 && Place(3) == 3;
    var f1 := Message(f0, 0, Ready);
    assert f0.current == 0 && f1.pool[0].due by { WindowCurrent(f0, 0); }
    MessageLook(f0, 0, Ready);
    LookKeepsWindow(f0, f1, 0);
    StepForward(f1, 0);
    CreatedInv(urls);
    ScrollKeepsInv(Created(urls), 0);
    MessageKeepsInv(f0, 0, Ready);
    ScrollTracks(f1, 1);
    var f2 := Scroll(f1, 1);
    assert SameSlot(f1.pool[0], f2.pool[0]);
    assert StartDue(f2, 0).pool[0].started;
  }

  lemma WindowCurrent(f: Feed, i: nat)
    requires Window(f, i)
    ensures f.current == i
  {
  }

  lemma OneMore(f: Feed, es: seq<Event>, e: Event)
    requires |f.pool| == 5
    ensures After(f, es + [e]) == Apply(After(f, es), e)
  {
    assert (es + [e])[..|es|] == es;
  }

  lemma FourEvents(f: Feed, a: Event, b: Event, c: Event, d: Event)
    requires |f.pool| == 5
    ensures After(f, [a, b, c, d]) == Apply(Apply(Apply(Apply(f, a), b), c), d)
  {
    hide After, Apply;
    OneEvent(f, a);
    OneMore(f, [a], b);
    assert [a] + [b] == [a, b];
    OneMore(f, [a, b], c);
    assert [a, b] + [c] == [a, b, c];
    OneMore(f, [a, b, c], d);
    assert [a, b, c] + [d] == [a, b, c, d];
  }

  /** A released slot is not preloaded again: 0 to 4 and back to 0 in a feed of five leaves video 1 without a player. */
  lemma StaleAfterReturn(urls: seq<string>)
    requires |urls| == 5
    ensures var es := [ScrollTo(0), ScrollTo(1), ScrollTo(2), ScrollTo(3), ScrollTo(4)];
      ForwardTo(es, 4) && !Holds(Scroll(After(Created(urls), es), 0), 1)
  {
    hide Scroll, Window, Holds;
    var es4 := [ScrollTo(0), ScrollTo(1), ScrollTo(2), ScrollTo(3)];
    var es5 := [ScrollTo(0), ScrollTo(1), ScrollTo(2), ScrollTo(3), ScrollTo(4)];
    UpToThree();
    assert es5[..4] == es4;
    ForwardWindow(urls, es4, 3);
    var f := After(Created(urls), es4);
    StepForward(f, 3);
    assert Place(6) == 1;
    PreloadExact(Scroll(f, 4), 0, 1);
  }

  lemma UpToThree()
    ensures ForwardTo([ScrollTo(0), ScrollTo(1), ScrollTo(2), ScrollTo(3)], 3)
  {
    var a, b, c := [ScrollTo(0)], [ScrollTo(0), ScrollTo(1)], [ScrollTo(0), ScrollTo(1), ScrollTo(2)];
    assert a[..0] == [] && ForwardTo(a, 0);
    assert b[..1] == a && ForwardTo(b, 1);
    assert c[..2] == b && ForwardTo(c, 2);
    assert [ScrollTo(0), ScrollTo(1), ScrollTo(2), ScrollTo(3)][..3] == c;
  }

  // ---------------------------------------------------------------- the code

  class ViralFeed {
    var urls: seq<string>
    var pool: array<Slot>
    var current: int

    ghost function Now(): (f: Feed)
      reads this, pool
    {
      Feed(urls, pool[..], current)
    }

    ghost predicate Valid()
      reads this, pool
    {
      pool.Length == 5 && Inv(Now())
    }

    /** `viral_feed_create` and the first `viral_feed_set_urls`. */
    constructor (list: seq<string>)
      ensures Valid() && fresh(pool) && Now() == Created(list)
    {
      urls, current := list, -1;
      pool := new Slot[5](_ => Blank());
      new;
      CreatedInv(list);
      assert pool[..] == Created(list).pool;
    }

    /** `viral_player_init_slot` on the slot of `index`. */
    method InitSlot(index: nat)
      requires pool.Length == 5
      modifies pool
      ensures Now() == Prepare(old(Now()), index)
    {
      var k := Place(index);
      pool[k] := Slot(false, false, false, index, None, Idle);
      if index >= |urls| {
        return;
      }
      pool[k] := Slot(true, false, false, index, Some(urls[index]), Preloading);
    }

    method PreloadAhead(index: nat)
      requires pool.Length == 5
      modifies pool
      ensures Now() == Preload(old(Now()), index, 1)
    {
      var i := 1;
      while i <= PRELOAD_COUNT
        invariant 1 <= i <= PRELOAD_COUNT + 1
        invariant Preload(old(Now()), index, 1) == Preload(Now(), index, i)
      {
        var next := index + i;
        if next >= |urls| {
          break;
        }
        if pool[Place(next)].index != next {
          InitSlot(next);
        }
        i := i + 1;
      }
    }

    method PauseOther(prev: int, index: nat)
      requires pool.Length == 5
      modifies pool
      ensures Now() == PausePrevious(old(Now()), prev, index)
    {
      hide Place;
      if prev >= 0 && prev != index {
        var k := Place(prev);
        if pool[k].live && pool[k].index == prev {
          pool[k] := pool[k].(started := false);
        }
      }
    }

    method ReleaseBehind(index: nat)
      requires pool.Length == 5
      modifies pool
      ensures Now() == Release(old(Now()), index)
    {
      hide Place;
      var before := index - PRELOAD_COUNT - 1;
      if before >= 0 {
        var k := Place(before);
        if pool[k].index == before && pool[k].live {
          pool[k] := Slot(false, false, false, pool[k].index, None, Idle);
        }
      }
    }

    method PlayOrPrepare(index: nat)
      requires pool.Length == 5
      modifies pool
      ensures Now() == PlayCurrent(old(Now()), index)
    {
      hide Place;
      var k := Place(index);
      if pool[k].index == index && pool[k].live {
        if pool[k].state == Ready || pool[k].state == Paused {
          pool[k] := pool[k].(started := true);
        }
      } else {
        InitSlot(index);
      }
    }

    /** `viral_feed_scroll_to`. */
    method ScrollTo(index: int)
      requires Valid()
      modifies this`current, pool
      ensures Valid() && Now() == Scroll(old(Now()), index)
      ensures 0 <= index < |urls| ==>
        var was, now := old(pool[..])[Place(index)], pool[..][Place(index)];
        && now.live && now.index == index
        && (now.started <==>
             was.live && was.index == index && (was.started || was.state == Ready || was.state == Paused))
    {
      hide Inv, PausePrevious, PlayCurrent, Preload, Release;
      ScrollKeepsInv(Now(), index);
      if index < 0 || index >= |urls| {
        return;
      }
      ScrollPlays(Now(), index);
      var prev := current;
      current := index;
      PauseOther(prev, index);
      PlayOrPrepare(index);
      PreloadAhead(index);
      ReleaseBehind(index);
    }

    /** The message loop of the player in slot `k`, up to the comparison. */
    method OnMessage(k: nat, state: PlayState)
      requires Valid() && k < 5
      modifies pool
      ensures Valid() && Now() == Message(old(Now()), k, state)
    {
      hide Inv;
      MessageKeepsInv(Now(), k, state);
      if pool[k].live {
        var due := pool[k].due || (state == Ready && pool[k].index == current);
        pool[k] := pool[k].(state := state, due := due);
      }
    }

    /** The start that follows a comparison that succeeded. */
    method StartPlayer(k: nat)
      requires Valid() && k < 5
      modifies pool
      ensures Valid() && Now() == StartDue(old(Now()), k)
    {
      hide Inv;
      StartKeepsInv(Now(), k);
      if pool[k].live && pool[k].due {
        pool[k] := pool[k].(started := true, due := false);
      }
    }
  }
}
