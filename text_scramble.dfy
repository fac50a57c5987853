/** The text-scramble effect: `setText` turns the element's current text into a
    new one through a queue of per-character transitions, and `update` renders
    one animation frame of it. Every `Math.random()` draw is an argument here. */
module Scramble {
  import opened Options

  /** The alphabet scramble glyphs are drawn from (`this.chars`, 26 characters;
      the twelfth is an em dash). */
  const Glyphs: string := "!<>-_\\/[]{}\U{2014}=+*^?#________"

  /** `Math.floor(Math.random() * this.chars.length)`: a position in `Glyphs`. */
  type GlyphIndex = k: int | 0 <= k < 26

  /** `Math.floor(Math.random() * 40)`: one start or span draw. */
  type Draw = d: int | 0 <= d < 40

  /** The latest frame at which an entry can still be unfinished plus one:
      `start` and the span are both at most 39. */
  const MaxEnd: nat := 78

  /** One queue entry `{from, to, start, end, char}`; `glyph` is the scramble
      character last chosen for it (`char`, unset until the first choice). */
  datatype Entry = Entry(from: string, to: string, start: nat, end: nat, glyph: Option<char>)

  /** One piece of the element's markup: plain text, or a scramble glyph
      wrapped in its `<span class="scramble">`. */
  datatype Piece = Plain(text: string) | Scrambled(glyph: char)

  function Max(a: nat, b: nat): (m: nat)
  {
    if a < b then b else a
  }

  /** `s[i] || ''`: the one-character string at `i`, or the empty string past the end. */
  function CharOrEmpty(s: string, i: nat): (c: string)
  {
    if i < |s| then [s[i]] else ""
  }

  function PieceText(p: Piece): (t: string)
  {
    match p
    case Plain(t) => t
    case Scrambled(g) => [g]
  }

  /** The element's `innerText` once the markup `ps` is in place. */
  function InnerText(ps: seq<Piece>): (s: string)
  {
    if ps == [] then "" else InnerText(ps[..|ps| - 1]) + PieceText(ps[|ps| - 1])
  }

  /** The queue `setText(newText)` builds over `oldText`: one entry per position
      of the longer text, moving `oldText[i]` to `newText[i]`. */
  ghost predicate Shaped(queue: seq<Entry>, oldText: string, newText: string)
  {
    |queue| == Max(|oldText|, |newText|) &&
    forall i :: 0 <= i < |queue| ==>
      queue[i].from == CharOrEmpty(oldText, i) && queue[i].to == CharOrEmpty(newText, i)
  }

  /** The timing an entry gets from two draws in [0, 39]. */
  predicate Timed(e: Entry)
  {
    e.start < 40 && e.start <= e.end < e.start + 40
  }

  /** Every entry of `q` has reached its `to` character at `frame`. */
  predicate AllDone(q: seq<Entry>, frame: nat)
  {
    forall i :: 0 <= i < |q| ==> q[i].end <= frame
  }

  /** The draws one entry may consume in one frame: whether `Math.random() < 0.28`
      (the re-roll condition) and the glyph `randomChar()` would pick. */
  datatype Roll = Roll(reroll: bool, pick: GlyphIndex)

  /** The glyph shown for an entry inside its scramble window: the kept one,
      unless none was chosen yet or the re-roll draw holds. */
  function Rolled(e: Entry, r: Roll): (c: char)
  {
    if e.glyph.Some? && !r.reroll then e.glyph.value else Glyphs[r.pick]
  }

  /** The piece one entry contributes to the frame `frame`. */
  function Emit(e: Entry, frame: nat, r: Roll): (p: Piece)
  {
    if frame >= e.end then Plain(e.to)
    else if frame >= e.start then Scrambled(Rolled(e, r))
    else Plain(e.from)
  }

  /** The entry after the frame `frame`: inside its window it records the glyph shown. */
  function Refresh(e: Entry, frame: nat, r: Roll): (e': Entry)
  {
    if e.start <= frame < e.end then e.(glyph := Some(Rolled(e, r))) else e
  }

  /** The markup of one frame: the piece of each entry, in queue order. */
  function EmitAll(q: seq<Entry>, frame: nat, rolls: seq<Roll>): (ps: seq<Piece>)
    requires |rolls| == |q|
    ensures |ps| == |q|
  {
    if q == [] then []
    else
      var n := |q| - 1;
      EmitAll(q[..n], frame, rolls[..n]) + [Emit(q[n], frame, rolls[n])]
  }

  /** The queue after one frame. */
  function RefreshAll(q: seq<Entry>, frame: nat, rolls: seq<Roll>): (r: seq<Entry>)
    requires |rolls| == |q|
    ensures |r| == |q|
  {
    if q == [] then []
    else
      var n := |q| - 1;
      RefreshAll(q[..n], frame, rolls[..n]) + [Refresh(q[n], frame, rolls[n])]
  }

  lemma {:induction false} EmitAt(q: seq<Entry>, frame: nat, rolls: seq<Roll>)
    requires |rolls| == |q|
    ensures forall i :: 0 <= i < |q| ==> EmitAll(q, frame, rolls)[i] == Emit(q[i], frame, rolls[i])
  {
    if q != [] {
      var n := |q| - 1;
      EmitAt(q[..n], frame, rolls[..n]);
    }
  }

  lemma {:induction false} RefreshAt(q: seq<Entry>, frame: nat, rolls: seq<Roll>)
    requires |rolls| == |q|
    ensures forall i :: 0 <= i < |q| ==> RefreshAll(q, frame, rolls)[i] == Refresh(q[i], frame, rolls[i])
  {
    if q != [] {
      var n := |q| - 1;
      RefreshAt(q[..n], frame, rolls[..n]);
    }
  }

  /** The number of entries of `q` finished at `frame` (the `complete` counter). */
  function CountDone(q: seq<Entry>, frame: nat): (n: nat)
    ensures n <= |q|
  {
    if q == [] then 0
    else CountDone(q[..|q| - 1], frame) + (if q[|q| - 1].end <= frame then 1 else 0)
  }

  /** `complete === this.queue.length` exactly when every entry is finished. */
  lemma {:induction false} CountDoneAll(q: seq<Entry>, frame: nat)
    ensures CountDone(q, frame) == |q| <==> AllDone(q, frame)
  {
    if q != [] {
      var init := q[..|q| - 1];
      CountDoneAll(init, frame);
      assert forall i :: 0 <= i < |init| ==> init[i] == q[i];
      if CountDone(q, frame) == |q| {
        assert CountDone(init, frame) == |init| && q[|q| - 1].end <= frame;
      }
    }
  }

  /** No entry outlives frame 78, so an update at frame 78 or later completes. */
  lemma EveryEntryDoneByMaxEnd(q: seq<Entry>, frame: nat)
    requires forall i :: 0 <= i < |q| ==> Timed(q[i])
    requires frame >= MaxEnd
    ensures CountDone(q, frame) == |q|
  {
    CountDoneAll(q, frame);
  }

  /** Markup whose piece at `i` reads as `s[i] || ''` reads as `s`. */
  lemma {:induction false} TextOfPieces(ps: seq<Piece>, s: string)
    requires |s| <= |ps|
    requires forall i :: 0 <= i < |ps| ==> PieceText(ps[i]) == CharOrEmpty(s, i)
    ensures InnerText(ps) == s
    decreases |ps|
  {
    if ps != [] {
      var n := |ps| - 1;
      var init := ps[..n];
      if |s| <= n {
        assert forall i :: 0 <= i < n ==> init[i] == ps[i];
        TextOfPieces(init, s);
        assert PieceText(ps[n]) == CharOrEmpty(s, n) == "";
      } else {
        var t := s[..n];
        forall i | 0 <= i < n
          ensures PieceText(init[i]) == CharOrEmpty(t, i)
        {
          assert init[i] == ps[i];
        }
        TextOfPieces(init, t);
        assert PieceText(ps[n]) == [s[n]];
        assert s == t + [s[n]];
      }
    }
  }

  /** Once every entry is finished, the frame shows exactly the new text. */
  lemma ResolvedShowsNewText(q: seq<Entry>, oldText: string, newText: string, frame: nat,
                             rolls: seq<Roll>)
    requires Shaped(q, oldText, newText)
    requires |rolls| == |q|
    requires AllDone(q, frame)
    ensures InnerText(EmitAll(q, frame, rolls)) == newText
  {
    var ps := EmitAll(q, frame, rolls);
    EmitAt(q, frame, rolls);
    forall i | 0 <= i < |ps|
      ensures PieceText(ps[i]) == CharOrEmpty(newText, i)
    {
      assert ps[i] == Plain(q[i].to);
    }
    TextOfPieces(ps, newText);
  }

  /** Before any entry's window opens, the frame still shows the old text. */
  lemma UnstartedShowsOldText(q: seq<Entry>, oldText: string, newText: string, frame: nat,
                              rolls: seq<Roll>)
    requires Shaped(q, oldText, newText)
    requires |rolls| == |q|
    requires forall i :: 0 <= i < |q| ==> frame < q[i].start && Timed(q[i])
    ensures InnerText(EmitAll(q, frame, rolls)) == oldText
  {
    var ps := EmitAll(q, frame, rolls);
    EmitAt(q, frame, rolls);
    forall i | 0 <= i < |ps|
      ensures PieceText(ps[i]) == CharOrEmpty(oldText, i)
    {
      assert ps[i] == Plain(q[i].from);
    }
    TextOfPieces(ps, oldText);
  }

  /** Entry `i` of the queue `setText` builds: it moves `oldText[i] || ''` to
      `newText[i] || ''`, starting at frame `start` and finishing at frame
      `start + span`, with no glyph chosen yet. */
  function NewEntry(oldText: string, newText: string, i: nat, start: Draw, span: Draw): (e: Entry)
  {
    Entry(CharOrEmpty(oldText, i), CharOrEmpty(newText, i), start, start as nat + span as nat, None)
  }

  /** The queue `setText` builds from one pair of draws per position. */
  function Transitions(oldText: string, newText: string, starts: seq<Draw>, spans: seq<Draw>): (q: seq<Entry>)
    requires |spans| == |starts|
  {
    seq(|starts|, i requires 0 <= i < |starts| => NewEntry(oldText, newText, i, starts[i], spans[i]))
  }

  /** With one pair of draws per position of the longer text, the queue has the
      shape and timing promised: `max(|old|, |new|)` entries, `0 <= start <= 39`
      and `start <= end <= start + 39`. */
  lemma TransitionsShape(oldText: string, newText: string, starts: seq<Draw>, spans: seq<Draw>)
    requires |spans| == |starts| == Max(|oldText|, |newText|)
    ensures Shaped(Transitions(oldText, newText, starts, spans), oldText, newText)
    ensures forall i :: 0 <= i < |starts| ==> Timed(Transitions(oldText, newText, starts, spans)[i])
  {
  }

  /** The queue is finished at frame 0 exactly when every draw is 0. */
  lemma TransitionsDoneAtOnce(oldText: string, newText: string, starts: seq<Draw>, spans: seq<Draw>)
    requires |spans| == |starts|
    ensures AllDone(Transitions(oldText, newText, starts, spans), 0) <==>
            forall i :: 0 <= i < |starts| ==> starts[i] == 0 && spans[i] == 0
  {
    var q := Transitions(oldText, newText, starts, spans);
    if AllDone(q, 0) {
      forall i | 0 <= i < |starts| ensures starts[i] == 0 && spans[i] == 0 {
        assert q[i].end <= 0;
      }
    }
  }

  /** A frame only records glyphs: it keeps the queue's shape and timing. */
  lemma RefreshKeepsShape(q: seq<Entry>, oldText: string, newText: string, frame: nat,
                          rolls: seq<Roll>)
    requires Shaped(q, oldText, newText)
    requires forall i :: 0 <= i < |q| ==> Timed(q[i])
    requires |rolls| == |q|
    ensures Shaped(RefreshAll(q, frame, rolls), oldText, newText)
    ensures forall i :: 0 <= i < |q| ==> Timed(RefreshAll(q, frame, rolls)[i])
  {
    var r := RefreshAll(q, frame, rolls);
    RefreshAt(q, frame, rolls);
    forall i | 0 <= i < |q|
      ensures r[i].from == q[i].from && r[i].to == q[i].to
      ensures r[i].start == q[i].start && r[i].end == q[i].end
    {
    }
  }

  /** Each entry contributes exactly one piece to a frame: its `to` text once
      finished, inside its window a scramble glyph, which the frame records in
      the queue, and its `from` text before that. */
  lemma EmitChoice(q: seq<Entry>, frame: nat, rolls: seq<Roll>, i: nat)
    requires |rolls| == |q| && i < |q|
    ensures EmitAll(q, frame, rolls)[i] ==
      if frame >= q[i].end then Plain(q[i].to)
      else if frame >= q[i].start then Scrambled(Rolled(q[i], rolls[i]))
      else Plain(q[i].from)
    ensures q[i].start <= frame < q[i].end ==>
      RefreshAll(q, frame, rolls)[i].glyph == Some(Rolled(q[i], rolls[i]))
  {
    EmitAt(q, frame, rolls);
    RefreshAt(q, frame, rolls);
  }

  /** A glyph once chosen survives a frame unless that frame's re-roll draw holds. */
  lemma GlyphKept(q: seq<Entry>, frame: nat, rolls: seq<Roll>, i: nat)
    requires |rolls| == |q| && i < |q|
    requires q[i].glyph.Some? && !rolls[i].reroll
    ensures RefreshAll(q, frame, rolls)[i] == q[i]
  {
    RefreshAt(q, frame, rolls);
  }

  class TextScramble {
    /** The element's markup (`this.el.innerHTML`). */
    var output: seq<Piece>
    var queue: seq<Entry>
    var frame: nat
    /** An animation-frame request for `update` is outstanding (`this.frameRequest`). */
    var pending: bool
    /** The promise returned by the latest `setText` has been resolved. */
    var resolved: bool
    /** The old and new text of the latest `setText`. */
    ghost var source: string
    ghost var target: string

    ghost predicate Valid()
      reads this
    {
      Shaped(queue, source, target) &&
      (forall i :: 0 <= i < |queue| ==> Timed(queue[i])) &&
      (pending ==> frame <= MaxEnd)
    }

    /** Wraps an element whose markup is the plain text `text`. */
    constructor (text: string)
      ensures Valid()
      ensures output == [Plain(text)] && queue == [] && frame == 0 && !pending && !resolved
    {
      output := [Plain(text)];
      queue := [];
      frame := 0;
      pending := false;
      resolved := false;
      source, target := "", "";
    }

    /** The loop of one frame: builds the frame's markup and counts the finished
        entries, recording in the queue the glyph each scrambling entry shows.
        `rolls[i]` holds entry `i`'s draws. */
    method RenderFrame(rolls: seq<Roll>) returns (out: seq<Piece>, complete: nat)
      requires |rolls| == |queue|
      modifies this`queue
      ensures queue == RefreshAll(old(queue), frame, rolls)
      ensures out == EmitAll(old(queue), frame, rolls)
      ensures complete == CountDone(old(queue), frame)
    {
      ghost var q0 := queue;
      out := [];
      complete := 0;
      var i := 0;
      while i < |queue|
        invariant 0 <= i <= |queue| == |q0|
        invariant forall k :: 0 <= k < i ==> queue[k] == Refresh(q0[k], frame, rolls[k])
        invariant forall k :: i <= k < |q0| ==> queue[k] == q0[k]
        invariant out == EmitAll(q0[..i], frame, rolls[..i])
        invariant complete == CountDone(q0[..i], frame)
      {
        var e := queue[i];
        assert q0[..i + 1][..i] == q0[..i] && rolls[..i + 1][..i] == rolls[..i];
        if frame >= e.end {
          complete := complete + 1;
          out := out + [Plain(e.to)];
        } else if frame >= e.start {
          var c: char;
          if e.glyph.None? || rolls[i].reroll {
            c := Glyphs[rolls[i].pick];
            queue := queue[i := e.(glyph := Some(c))];
          } else {
            c := e.glyph.value;
          }
          out := out + [Scrambled(c)];
        } else {
          out := out + [Plain(e.from)];
        }
        i := i + 1;
      }
      assert q0[..i] == q0 && rolls[..i] == rolls;
      RefreshAt(q0, frame, rolls);
    }

    /** One animation frame (`update`): renders the frame, then resolves the
        promise if every entry is finished, or requests the next frame. */
    method Update(rolls: seq<Roll>)
      requires Valid()
      requires |rolls| == |queue|
      modifies this
      ensures Valid()
      ensures source == old(source) && target == old(target)
      ensures queue == RefreshAll(old(queue), old(frame), rolls)
      ensures output == EmitAll(old(queue), old(frame), rolls)
      ensures resolved == (old(resolved) || AllDone(old(queue), old(frame)))
      ensures pending == !AllDone(old(queue), old(frame))
      ensures frame == if AllDone(old(queue), old(frame)) then old(frame) else old(frame) + 1
      ensures AllDone(old(queue), old(frame)) ==> InnerText(output) == target
      ensures old(frame) >= MaxEnd ==> resolved && !pending
    {
      ghost var q0 := queue;
      var out, complete := RenderFrame(rolls);
      RefreshKeepsShape(q0, source, target, frame, rolls);
      output := out;
      CountDoneAll(q0, frame);
      if frame >= MaxEnd {
        EveryEntryDoneByMaxEnd(q0, frame);
      }
      if complete == |queue| {
        ResolvedShowsNewText(q0, source, target, frame, rolls);
        resolved := true;
        pending := false;
      } else {
        pending := true;
        frame := frame + 1;
      }
    }

    /** The push loop of `setText`: one entry per position of the longer text. */
    method BuildQueue(oldText: string, newText: string, starts: seq<Draw>, spans: seq<Draw>)
      requires |starts| == Max(|oldText|, |newText|) && |spans| == |starts|
      modifies this`queue
      ensures queue == Transitions(oldText, newText, starts, spans)
    {
      var length := Max(|oldText|, |newText|);
      queue := [];
      var i := 0;
      while i < length
        invariant 0 <= i <= length
        invariant |queue| == i
        invariant forall k :: 0 <= k < i ==> queue[k] == NewEntry(oldText, newText, k, starts[k], spans[k])
      {
        var from := CharOrEmpty(oldText, i);
        var to := CharOrEmpty(newText, i);
        var start: nat := starts[i];
        var end: nat := start + spans[i];
        queue := queue + [Entry(from, to, start, end, None)];
        i := i + 1;
      }
    }

    /** Starts the transition from the current text to `newText`. Entry `i` takes
        `starts[i]` and `spans[i]` as its two timing draws; the first frame is
        rendered at once with `rolls`. */
    method SetText(newText: string, starts: seq<Draw>, spans: seq<Draw>, rolls: seq<Roll>)
      requires Valid()
      requires |starts| == Max(|InnerText(output)|, |newText|)
      requires |spans| == |starts| && |rolls| == |starts|
      modifies this
      ensures Valid()
      ensures source == old(InnerText(output)) && target == newText
      ensures queue == RefreshAll(Transitions(source, newText, starts, spans), 0, rolls)
      ensures output == EmitAll(Transitions(source, newText, starts, spans), 0, rolls)
      ensures resolved == (forall i :: 0 <= i < |starts| ==> starts[i] == 0 && spans[i] == 0)
      ensures pending == !resolved && frame == if resolved then 0 else 1
      ensures resolved ==> InnerText(output) == newText
    {
      var oldText := InnerText(output);
      resolved := false;
      BuildQueue(oldText, newText, starts, spans);
      ghost var built := queue;
      TransitionsShape(oldText, newText, starts, spans);
      TransitionsDoneAtOnce(oldText, newText, starts, spans);
      pending := false;
      frame := 0;
      source, target := oldText, newText;
      Update(rolls);
      assert queue == RefreshAll(built, 0, rolls) && output == EmitAll(built, 0, rolls);
    }

    /** `setText` followed by the chain of animation-frame callbacks that runs
        `update` until the promise resolves; `rolls[k]` feeds the
        `k`-th update. Returns the number of updates that ran. */
    method Run(newText: string, starts: seq<Draw>, spans: seq<Draw>,
               rolls: seq<seq<Roll>>) returns (calls: nat)
      requires Valid()
      requires |starts| == Max(|InnerText(output)|, |newText|) && |spans| == |starts|
      requires |rolls| == MaxEnd + 1
      requires forall k :: 0 <= k < |rolls| ==> |rolls[k]| == |starts|
      modifies this
      ensures Valid() && resolved && !pending
      ensures 1 <= calls <= MaxEnd + 1
      ensures target == newText && InnerText(output) == newText
    {
      SetText(newText, starts, spans, rolls[0]);
      calls := 1;
      while pending
        invariant Valid() && target == newText && |queue| == |starts|
        invariant 1 <= calls <= MaxEnd + 1
        invariant pending ==> calls == frame
        invariant pending == !resolved
        invariant resolved ==> InnerText(output) == newText
        decreases MaxEnd + 1 - calls
      {
        Update(rolls[calls]);
        calls := calls + 1;
      }
    }
  }
}
