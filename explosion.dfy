/** The "specks of dust" explosion: when the first wish comes into focus, each
    letter of the phrase is cloned into a floating letter that drifts to a fixed
    place on the viewport, one letter after another, and then floats gently.
    Timer events are given in integer milliseconds from the moment the clones
    start moving (two animation frames after the trigger). */
module Explosion {
  import opened Options

  /** A floating letter's destination: `top` in vh, `left` in vw, rotation in degrees. */
  datatype Target = Target(top: int, left: int, rotate: int)

  /** The 14 letter slots of "specks of dust"; the two spaces have no target. */
  const LetterPositions: seq<Option<Target>> := [
    Some(Target(8, 12, -15)),
    Some(Target(15, 78, 12)),
    Some(Target(45, 5, -8)),
    Some(Target(72, 88, 20)),
    Some(Target(85, 25, -22)),
    Some(Target(28, 92, 10)),
    None,
    Some(Target(5, 55, -14)),
    Some(Target(68, 8, 18)),
    None,
    Some(Target(92, 65, 22)),
    Some(Target(22, 35, -12)),
    Some(Target(78, 48, 8)),
    Some(Target(35, 18, -18))
  ]

  /** Delay between two consecutive letters starting to move. */
  const LetterStagger: nat := 200
  /** Time from a letter starting to move until its ambient float begins. */
  const DriftDuration: nat := 6500

  /** A floating clone: its text, its destination and the slot it was cloned from. */
  datatype Floater = Floater(glyph: string, target: Target, slot: nat)

  /** What a timer does to its floater: show it and send it to its target
      (`visible`, `drifting` and the target position), or start the ambient
      `gentle-float` animation. */
  datatype Action = Appear | Float

  datatype Timer = Timer(at: nat, floater: nat, action: Action)

  /** The floater at list position `i` starts to move at `i * 200` ms ... */
  function StartTime(i: nat): (t: nat)
  {
    i * LetterStagger
  }

  /** ... and begins floating 6500 ms later. */
  function FloatTime(i: nat): (t: nat)
  {
    StartTime(i) + DriftDuration
  }

  /** Slot `k` gets a floater: it has a target, and its `.explode-letter`
      element (`letters[k]`, its `data-letter` attribute or `None` when absent)
      holds something other than the empty string or a single space. */
  predicate Eligible(letters: seq<Option<string>>, k: nat)
  {
    k < |letters| && k < |LetterPositions| && LetterPositions[k].Some? &&
    letters[k].Some? && letters[k].value != "" && letters[k].value != " "
  }

  /** The floaters built from the first `n` letter elements, in slot order. */
  function SelectUpTo(letters: seq<Option<string>>, n: nat): (fs: seq<Floater>)
    requires n <= |letters|
  {
    if n == 0 then []
    else
      SelectUpTo(letters, n - 1) +
      (if Eligible(letters, n - 1)
       then [Floater(letters[n - 1].value, LetterPositions[n - 1].value, n - 1)]
       else [])
  }

  function Selected(letters: seq<Option<string>>): (fs: seq<Floater>)
  {
    SelectUpTo(letters, |letters|)
  }

  /** The number of slots below `n` that have a target. */
  function TargetSlots(n: nat): (k: nat)
  {
    if n == 0 then 0
    else TargetSlots(n - 1) + (if n - 1 < |LetterPositions| && LetterPositions[n - 1].Some? then 1 else 0)
  }

  /** Every floater comes from an eligible slot, carries that slot's letter and
      that slot's target, and the floaters are in strictly increasing slot order. */
  lemma {:induction false} SelectedSound(letters: seq<Option<string>>, n: nat)
    requires n <= |letters|
    ensures forall i :: 0 <= i < |SelectUpTo(letters, n)| ==>
      SelectUpTo(letters, n)[i].slot < n &&
      Eligible(letters, SelectUpTo(letters, n)[i].slot) &&
      SelectUpTo(letters, n)[i].glyph == letters[SelectUpTo(letters, n)[i].slot].value &&
      LetterPositions[SelectUpTo(letters, n)[i].slot] == Some(SelectUpTo(letters, n)[i].target)
    ensures forall i, j :: 0 <= i < j < |SelectUpTo(letters, n)| ==>
      SelectUpTo(letters, n)[i].slot < SelectUpTo(letters, n)[j].slot
  {
    if n > 0 {
      SelectedSound(letters, n - 1);
    }
  }

  /** Every eligible slot below `n` gets a floater. */
  lemma {:induction false} SelectedComplete(letters: seq<Option<string>>, n: nat, k: nat)
    requires n <= |letters| && k < n
    requires Eligible(letters, k)
    ensures exists i :: 0 <= i < |SelectUpTo(letters, n)| && SelectUpTo(letters, n)[i].slot == k
  {
    var s := SelectUpTo(letters, n);
    if k == n - 1 {
      assert s[|s| - 1].slot == k;
    } else {
      SelectedComplete(letters, n - 1, k);
      var i :| 0 <= i < |SelectUpTo(letters, n - 1)| && SelectUpTo(letters, n - 1)[i].slot == k;
      assert s[i] == SelectUpTo(letters, n - 1)[i];
    }
  }

  /** A slot has a floater exactly when it is eligible. */
  lemma FloaterForSlotIff(letters: seq<Option<string>>, k: nat)
    requires k < |letters|
    ensures (exists i :: 0 <= i < |Selected(letters)| && Selected(letters)[i].slot == k) <==>
            Eligible(letters, k)
  {
    var s := Selected(letters);
    SelectedSound(letters, |letters|);
    if i :| 0 <= i < |s| && s[i].slot == k {
      assert Eligible(letters, s[i].slot);
    }
    if Eligible(letters, k) {
      SelectedComplete(letters, |letters|, k);
    }
  }

  /** No more floaters than target slots, and exactly as many when every
      targeted slot below `n` holds a visible letter. */
  lemma {:induction false} SelectedCount(letters: seq<Option<string>>, n: nat)
    requires n <= |letters|
    ensures |SelectUpTo(letters, n)| <= TargetSlots(n)
    ensures (forall k :: 0 <= k < n && k < |LetterPositions| && LetterPositions[k].Some? ==>
               Eligible(letters, k)) ==> |SelectUpTo(letters, n)| == TargetSlots(n)
  {
    if n > 0 {
      SelectedCount(letters, n - 1);
    }
  }

  /** The table has 12 target slots: 14 slots less the two spaces. */
  lemma {:induction false} TargetSlotsAtMost12(n: nat)
    ensures TargetSlots(n) <= 12
    ensures n >= |LetterPositions| ==> TargetSlots(n) == 12
  {
    if n > |LetterPositions| {
      TargetSlotsAtMost12(n - 1);
    } else {
      TargetSlotsBelow(n);
    }
  }

  lemma {:induction false} TargetSlotsBelow(n: nat)
    requires n <= |LetterPositions|
    ensures TargetSlots(n) <= TargetSlots(|LetterPositions|) == 12
    decreases |LetterPositions| - n
  {
    if n < |LetterPositions| {
      TargetSlotsBelow(n + 1);
    } else {
      TwelveTargets();
    }
  }

  lemma TwelveTargets()
    ensures TargetSlots(|LetterPositions|) == 12
  {
    assert TargetSlots(3) == 3;
    assert TargetSlots(6) == 6;
    assert TargetSlots(9) == 8;
    assert TargetSlots(12) == 10;
  }

  /** However many letter elements there are, at most 12 floaters are built. */
  lemma AtMostTwelveFloaters(letters: seq<Option<string>>)
    ensures |Selected(letters)| <= 12
    ensures |letters| >= |LetterPositions| &&
            (forall k :: 0 <= k < |LetterPositions| && LetterPositions[k].Some? ==> Eligible(letters, k))
            ==> |Selected(letters)| == 12
  {
    SelectedCount(letters, |letters|);
    TargetSlotsAtMost12(|letters|);
  }

  /** The letters of the phrase as the page spells it, spaces included. */
  const Phrase: seq<Option<string>> := [
    Some("s"), Some("p"), Some("e"), Some("c"), Some("k"), Some("s"), Some(" "),
    Some("o"), Some("f"), Some(" "), Some("d"), Some("u"), Some("s"), Some("t")
  ]

  /** Reading further letter elements only appends floaters: those built from
      the first `m` letters stay where they are. */
  lemma {:induction false} SelectPrefix(letters: seq<Option<string>>, m: nat, n: nat)
    requires m <= n <= |letters|
    ensures SelectUpTo(letters, m) <= SelectUpTo(letters, n)
    decreases n - m
  {
    if m < n {
      SelectPrefix(letters, m, n - 1);
    }
  }

  /** Delays follow list position, not slot index: past the first space the
      letter "o" of slot 7 is floater 6 and starts at 1200 ms, and past the
      second space the "d" of slot 10 is floater 8 and starts at 1600 ms. */
  lemma PhraseStaggerSkipsSpaces()
    ensures |Selected(Phrase)| == 12
    ensures Selected(Phrase)[6] == Floater("o", Target(5, 55, -14), 7) && StartTime(6) == 1200
    ensures Selected(Phrase)[8] == Floater("d", Target(92, 65, 22), 10) && StartTime(8) == 1600
  {
    PhraseUpToEleven();
    PhraseLastWord();
    SelectPrefix(Phrase, 11, 14);
  }

  lemma PhraseLastWord()
    ensures |Selected(Phrase)| == |SelectUpTo(Phrase, 11)| + 3
  {
    assert Eligible(Phrase, 11) && Eligible(Phrase, 12) && Eligible(Phrase, 13);
    assert |SelectUpTo(Phrase, 12)| == |SelectUpTo(Phrase, 11)| + 1;
    assert |SelectUpTo(Phrase, 13)| == |SelectUpTo(Phrase, 12)| + 1;
  }

  lemma PhraseFirstWord()
    ensures |SelectUpTo(Phrase, 7)| == 6
  {
    assert |SelectUpTo(Phrase, 3)| == 3;
    assert |SelectUpTo(Phrase, 6)| == 6;
  }

  lemma PhraseUpToEleven()
    ensures |SelectUpTo(Phrase, 11)| == 9
    ensures SelectUpTo(Phrase, 11)[6] == Floater("o", Target(5, 55, -14), 7)
    ensures SelectUpTo(Phrase, 11)[8] == Floater("d", Target(92, 65, 22), 10)
  {
    PhraseFirstWord();
    var s7 := SelectUpTo(Phrase, 7);
    assert SelectUpTo(Phrase, 11) ==
      s7 + [Floater("o", Target(5, 55, -14), 7), Floater("f", Target(68, 8, 18), 8),
            Floater("d", Target(92, 65, 22), 10)];
  }

  /** The schedule of the stagger: for floater `i`, `Appear` at `StartTime(i)`
      followed by `Float` at `FloatTime(i)`. */
  ghost predicate Staggered(timers: seq<Timer>, count: nat)
  {
    |timers| == 2 * count &&
    forall j :: 0 <= j < |timers| ==>
      timers[j] == if j % 2 == 0 then Timer(StartTime(j / 2), j / 2, Appear)
                   else Timer(FloatTime(j / 2), j / 2, Float)
  }

  /** The loop that starts each floater `i * 200` ms after the first and its ambient
      float 6500 ms after that. */
  method StaggerSchedule(count: nat) returns (timers: seq<Timer>)
    ensures Staggered(timers, count)
  {
    timers := [];
    var i := 0;
    while i < count
      invariant 0 <= i <= count
      invariant Staggered(timers, i)
    {
      var delay := i * LetterStagger;
      timers := timers + [Timer(delay, i, Appear), Timer(delay + DriftDuration, i, Float)];
      i := i + 1;
    }
  }

  /** The `forEach` over the letter elements that builds the floaters. */
  method SelectFloaters(letters: seq<Option<string>>) returns (floaters: seq<Floater>)
    ensures floaters == Selected(letters)
  {
    floaters := [];
    var index := 0;
    while index < |letters|
      invariant 0 <= index <= |letters|
      invariant floaters == SelectUpTo(letters, index)
    {
      if index < |LetterPositions| && LetterPositions[index].Some? {
        var position := LetterPositions[index].value;
        var letterText := letters[index];
        if letterText.Some? && letterText.value != "" && letterText.value != " " {
          floaters := floaters + [Floater(letterText.value, position, index)];
        }
      }
      index := index + 1;
    }
  }

  /** The explosion observer's state. */
  class Explosion {
    var hasExploded: bool
    /** The floating letters appended to the document. */
    var clones: seq<Floater>
    /** The timers set for them. */
    var timers: seq<Timer>
    /** The letter elements seen when the explosion fired. */
    ghost var letters: seq<Option<string>>

    ghost predicate Valid()
      reads this
    {
      (!hasExploded ==> clones == [] && timers == []) &&
      clones == Selected(letters) &&
      Staggered(timers, |clones|) &&
      |clones| <= 12
    }

    constructor ()
      ensures Valid() && !hasExploded && clones == [] && timers == []
    {
      hasExploded := false;
      clones := [];
      timers := [];
      letters := [];
    }

    /** One observer callback with a batch of entries (`entries[j]` is entry
        `j`'s `isIntersecting`); `page` is the `data-letter` of each
        `.explode-letter` element. */
    method OnIntersect(entries: seq<bool>, page: seq<Option<string>>)
      requires Valid()
      modifies this
      ensures Valid()
      ensures hasExploded == (old(hasExploded) || true in entries)
      ensures old(hasExploded) || true !in entries ==>
        clones == old(clones) && timers == old(timers) && letters == old(letters)
      ensures !old(hasExploded) && true in entries ==>
        clones == Selected(page) && Staggered(timers, |clones|)
    {
      var j := 0;
      while j < |entries|
        invariant 0 <= j <= |entries|
        invariant Valid()
        invariant hasExploded == (old(hasExploded) || true in entries[..j])
        invariant old(hasExploded) || true !in entries[..j] ==>
          clones == old(clones) && timers == old(timers) && letters == old(letters)
        invariant !old(hasExploded) && true in entries[..j] ==>
          clones == Selected(page) && Staggered(timers, |clones|)
      {
        assert entries[..j + 1] == entries[..j] + [entries[j]];
        if entries[j] && !hasExploded {
          hasExploded := true;
          var floaters := SelectFloaters(page);
          clones := clones + floaters;
          timers := StaggerSchedule(|floaters|);
          letters := page;
          AtMostTwelveFloaters(page);
        }
        j := j + 1;
      }
      assert entries[..j] == entries;
    }
  }
}
