/** Scroll handling and the scattered-words reveal.  Every scroll event asks
    the browser for at most one animation frame: a `ticking` flag stays set
    from the request until the frame callback has redrawn the scroll-progress
    bar and the parallax layers.  The browser's frame loop is modelled as a
    `Tick` event that runs the callback waiting for it, if any. */
module Scheduling {

  /** The two redraws a frame callback performs, in order. */
  datatype Pass = ScrollProgress | Parallax

  /** What the page receives from the browser. */
  datatype Event = Scroll | Tick

  /** The redraws of `n` frame callbacks. */
  function Rounds(n: nat): (r: seq<Pass>)
    ensures |r| == 2 * n
  {
    if n == 0 then [] else Rounds(n - 1) + [ScrollProgress, Parallax]
  }

  /** Each callback draws the progress bar first and the parallax second. */
  lemma {:induction false} RoundsAt(n: nat, j: nat)
    requires j < 2 * n
    ensures Rounds(n)[j] == (if j % 2 == 0 then ScrollProgress else Parallax)
  {
    if j < 2 * (n - 1) {
      RoundsAt(n - 1, j);
    }
  }

  /** Reference count of the frame callbacks that run over `events`, starting
      with the flag at `ticking`. */
  function Coalesced(events: seq<Event>, ticking: bool): (n: nat)
  {
    if events == [] then 0
    else if events[0] == Scroll then Coalesced(events[1..], true)
    else (if ticking then 1 else 0) + Coalesced(events[1..], false)
  }

  /** The flag after `events`, starting at `ticking`: set by a scroll, cleared
      by a frame. */
  function FinalTicking(events: seq<Event>, ticking: bool): (t: bool)
  {
    if events == [] then ticking else FinalTicking(events[1..], events[0] == Scroll)
  }

  /** One more frame runs a callback exactly when the flag is still set. */
  lemma {:induction false} PendingRunsOnNextFrame(events: seq<Event>, ticking: bool)
    ensures Coalesced(events + [Tick], ticking) ==
            Coalesced(events, ticking) + (if FinalTicking(events, ticking) then 1 else 0)
  {
    if events != [] {
      assert (events + [Tick])[1..] == events[1..] + [Tick];
      PendingRunsOnNextFrame(events[1..], events[0] == Scroll);
    } else {
      assert ([] + [Tick])[1..] == [];
    }
  }

  function Count(events: seq<Event>, e: Event): (n: nat)
    ensures n <= |events|
  {
    if events == [] then 0 else (if events[0] == e then 1 else 0) + Count(events[1..], e)
  }

  /** A frame callback runs only after a scroll requested it, and at most one
      runs per browser frame. */
  lemma {:induction false} CoalescedBounds(events: seq<Event>, ticking: bool)
    ensures Coalesced(events, ticking) <= Count(events, Scroll) + (if ticking then 1 else 0)
    ensures Coalesced(events, ticking) <= Count(events, Tick)
  {
    if events != [] {
      CoalescedBounds(events[1..], events[0] == Scroll);
    }
  }

  /** A burst of scroll events inside one frame costs one callback only. */
  lemma {:induction false} BurstCoalesces(k: nat)
    ensures Coalesced(Burst(k) + [Tick], false) == (if k == 0 then 0 else 1)
  {
    if k > 0 {
      BurstFromTicking(k - 1);
      assert (Burst(k) + [Tick])[1..] == Burst(k - 1) + [Tick];
    }
  }

  lemma {:induction false} BurstFromTicking(k: nat)
    ensures Coalesced(Burst(k) + [Tick], true) == 1
  {
    if k > 0 {
      BurstFromTicking(k - 1);
      assert (Burst(k) + [Tick])[1..] == Burst(k - 1) + [Tick];
    } else {
      assert (Burst(0) + [Tick])[1..] == [];
    }
  }

  function Burst(k: nat): (r: seq<Event>)
    ensures |r| == k && forall i :: 0 <= i < k ==> r[i] == Scroll
  {
    if k == 0 then [] else [Scroll] + Burst(k - 1)
  }

  /** When every scroll is answered by a frame before the next scroll, no
      scroll is coalesced away. */
  lemma {:induction false} AnsweredScrollsAllRun(k: nat)
    ensures Coalesced(Answered(k), false) == k == Count(Answered(k), Scroll)
  {
    if k > 0 {
      AnsweredScrollsAllRun(k - 1);
      assert Answered(k)[1..] == [Tick] + Answered(k - 1);
      assert Answered(k)[1..][1..] == Answered(k - 1);
    }
  }

  function Answered(k: nat): (r: seq<Event>)
  {
    if k == 0 then [] else [Scroll, Tick] + Answered(k - 1)
  }

  class FrameScheduler {
    /** Set while a frame callback is requested and has not run. */
    var ticking: bool
    /** Frame callbacks waiting in the browser. */
    var requested: nat
    /** Every redraw performed so far. */
    var passes: seq<Pass>
    ghost var scrolls: nat
    ghost var frames: nat

    ghost predicate Valid()
      reads this
    {
      requested == (if ticking then 1 else 0) &&
      passes == Rounds(frames) &&
      frames + requested <= scrolls
    }

    constructor ()
      ensures Valid() && !ticking && passes == [] && scrolls == 0 && frames == 0
    {
      ticking := false;
      requested := 0;
      passes := [];
      scrolls := 0;
      frames := 0;
    }

    /** The scroll listener: request a frame unless one is already waiting. */
    method OnScroll()
      requires Valid()
      modifies this
      ensures Valid() && ticking && requested == 1
      ensures scrolls == old(scrolls) + 1 && frames == old(frames) && passes == old(passes)
      ensures old(ticking) ==> requested == old(requested)
      ensures !old(ticking) ==> requested == old(requested) + 1
    {
      scrolls := scrolls + 1;
      if !ticking {
        requested := requested + 1;
        ticking := true;
      }
    }

    /** One browser frame: the waiting callback, if any, redraws the progress
        bar and the parallax layers and clears the flag. */
    method OnAnimationFrame()
      requires Valid()
      modifies this
      ensures Valid() && !ticking && requested == 0 && scrolls == old(scrolls)
      ensures old(requested) > 0 ==>
                frames == old(frames) + 1 && passes == old(passes) + [ScrollProgress, Parallax]
      ensures old(requested) == 0 ==> frames == old(frames) && passes == old(passes)
    {
      if requested > 0 {
        requested := requested - 1;
        passes := passes + [ScrollProgress, Parallax];
        frames := frames + 1;
        ticking := false;
      }
    }

    /** Feeds `events` to the listener and the frame loop in order. */
    method Feed(events: seq<Event>)
      requires Valid()
      modifies this
      ensures Valid()
      ensures ticking == FinalTicking(events, old(ticking))
      ensures frames == old(frames) + Coalesced(events, old(ticking))
      ensures passes == Rounds(frames)
      ensures scrolls == old(scrolls) + Count(events, Scroll)
    {
      var i := 0;
      while i < |events|
        invariant 0 <= i <= |events|
        invariant Valid()
        invariant FinalTicking(events[i..], ticking) == FinalTicking(events, old(ticking))
        invariant frames + Coalesced(events[i..], ticking) ==
                  old(frames) + Coalesced(events, old(ticking))
        invariant scrolls + Count(events[i..], Scroll) == old(scrolls) + Count(events, Scroll)
      {
        assert events[i..][1..] == events[i + 1..];
        if events[i] == Scroll {
          OnScroll();
        } else {
          OnAnimationFrame();
        }
        i := i + 1;
      }
    }
  }

  /** A fresh page fed `events` redraws exactly `Coalesced(events, false)`
      times, never more often than it was scrolled nor than frames went by. */
  method Replay(events: seq<Event>) returns (passes: seq<Pass>)
    ensures passes == Rounds(Coalesced(events, false))
    ensures |passes| <= 2 * Count(events, Scroll) && |passes| <= 2 * Count(events, Tick)
  {
    var page := new FrameScheduler();
    page.Feed(events);
    passes := page.passes;
    CoalescedBounds(events, false);
  }

  /** Delay between two scattered words becoming visible. */
  const WordStagger: nat := 200

  /** A `visible` class to be added to word `word` at `at` ms. */
  datatype Reveal = Reveal(at: nat, word: nat)

  /** The words of a scattered section appear one by one, in document order,
      200 ms apart, starting at once with the first. */
  method AnimateScatteredWords(wordCount: nat) returns (timers: seq<Reveal>)
    ensures |timers| == wordCount
    ensures forall k :: 0 <= k < wordCount ==> timers[k] == Reveal(k * WordStagger, k)
    ensures forall j, k :: 0 <= j < k < wordCount ==> timers[k].at - timers[j].at == (k - j) * WordStagger
  {
    timers := [];
    var index := 0;
    while index < wordCount
      invariant index <= wordCount
      invariant |timers| == index
      invariant forall k :: 0 <= k < index ==> timers[k] == Reveal(k * WordStagger, k)
    {
      timers := timers + [Reveal(index * WordStagger, index)];
      index := index + 1;
    }
  }
}
