# Experimental poetry page: scroll behaviours, in Dafny

This project models the stateful core of the poetry page's script `script.js`:

- **Scramble** (`text_scramble.dfy`) models the `TextScramble` class.
  - `setText` builds a queue of per-character transitions from the element's current text to a new text.
  - `update` renders one animation frame of that queue. Each entry shows its old character before its window, a scramble glyph inside it, and its new character after it.
  - Once every entry has finished, `update` resolves the promise; until then it requests the next frame.
  - Every `Math.random()` draw is a parameter: the start and span draws of each entry (`Draw`, 0..39), the re-roll condition (`Math.random() < 0.28`) and the glyph chosen from the 26-character alphabet (`Roll`).
- **Explosion** (`explosion.dfy`) models the "specks of dust" explosion.
  - The table of 14 letter slots has no target at its two spaces.
  - A `hasExploded` guard makes the explosion fire only once.
  - One floating clone is built per slot that has both a target and a visible letter.
  - The stagger schedule: clone `i` starts to move at `i * 200` ms and begins its ambient float 6500 ms later.
- **Scheduling** (`scroll_schedule.dfy`) models two things:
  - the `ticking` flag, which coalesces scroll events into at most one animation-frame callback per frame;
  - the delay schedule of the scattered words.
- **Options** (`options.dfy`) holds the `Option` type. It stands for JavaScript's `null` and `undefined`: a missing target, an absent attribute, or a glyph not chosen yet.

## Model

| member | source | states |
|---|---|---|
| Scramble.TextScramble.constructor | script.js:320-324 | the element starts with its own text as plain markup, no queue and no promise outstanding |
| Scramble.TextScramble.BuildQueue | script.js:332-338 | the push loop builds one entry per position of the longer text. Entry `i` goes from the old character at `i` (or nothing past the end) to the new one, starts at its start draw and ends `span` frames later |
| Scramble.TransitionsShape | script.js:328-338 | that queue has as many entries as the longer text has characters, with those from/to characters, `0 <= start <= 39` and `start <= end <= start + 39` |
| Scramble.TransitionsDoneAtOnce | script.js:335-336 | the new queue is finished at frame 0 exactly when every start and span draw is 0 |
| Scramble.TextScramble.SetText | script.js:326-344 | `setText` builds the queue from the current inner text and the new text, resets the frame to 0 and renders the first frame at once. The promise is resolved at once exactly when all draws are 0, in which case the element already shows the new text. In particular, an empty queue resolves on the first update. Otherwise a frame is requested and the frame counter is 1 |
| Scramble.TextScramble.RenderFrame | script.js:347-365 | the frame's markup is, entry by entry, the piece `Emit` chooses, and `complete` is the number of finished entries. Every entry inside its window records the glyph it shows. No other field changes |
| Scramble.EmitChoice | script.js:353-364 | an entry contributes its `to` text once `frame >= end`, else a `<span class="scramble">` glyph once `frame >= start`, else its `from` text. Inside the window, the glyph shown is the one stored back in the queue |
| Scramble.GlyphKept | script.js:357-360 | a glyph once chosen is kept on a frame whose re-roll draw fails |
| Scramble.EmitAt | script.js:350-365 | the markup of a frame is the pieces of the entries in queue order |
| Scramble.RefreshAt | script.js:350-360 | after a frame, each entry of the queue is that entry refreshed on its own |
| Scramble.CountDoneAll | script.js:353-369 | `complete === this.queue.length` holds exactly when every entry has `end <= frame` |
| Scramble.EveryEntryDoneByMaxEnd | script.js:335-336 | no entry is still unfinished at frame 78: both draws are at most 39 |
| Scramble.TextOfPieces | script.js:361-367 | markup whose pieces read position by position as the characters of `s` (or nothing past its end) reads as `s` |
| Scramble.ResolvedShowsNewText | script.js:353-355 | once every entry has finished, the element's text is exactly the new text, including when the new text is shorter than the old |
| Scramble.UnstartedShowsOldText | script.js:362-364 | before any entry's window opens, the element still shows exactly the old text |
| Scramble.RefreshKeepsShape | script.js:357-360 | a frame changes only glyphs, so the queue keeps its from/to characters and its timing |
| Scramble.TextScramble.Update | script.js:346-375 | one `update` leaves the queue refreshed and the markup emitted. When every entry is finished, the promise is resolved, no frame is requested, the frame counter stays put and the element shows the new text. Otherwise the next frame is requested and the counter advances by one. From frame 78 on, the promise is always resolved |
| Scramble.TextScramble.Run | script.js:369-374 | the chain of animation-frame callbacks after `setText` ends after at most 79 updates, with the promise resolved, no frame outstanding and the element showing exactly the new text |
| Explosion.SelectFloaters | script.js:108-133 | the `forEach` over the letter elements builds exactly the floaters the specification function `Selected` lists |
| Explosion.SelectedSound | script.js:109-113 | every floater comes from a slot with a target and a letter other than missing, `''` or `' '`. It carries that slot's letter and that slot's target, and floaters are in strictly increasing slot order |
| Explosion.SelectedComplete | script.js:108-132 | every such slot gets a floater |
| Explosion.FloaterForSlotIff | script.js:108-132 | a slot gets a floater if and only if it has a target and a visible letter |
| Explosion.SelectedCount | script.js:109-110 | there are never more floaters than target slots, and exactly as many when every targeted slot holds a visible letter |
| Explosion.SelectPrefix | script.js:108-132 | floaters are only appended: those built from the first letters stay in place |
| Explosion.TargetSlotsAtMost12 | script.js:75-90 | the table has exactly 12 target slots: 14 slots less the two spaces |
| Explosion.AtMostTwelveFloaters | script.js:75-133 | at most 12 floaters are ever built, and exactly 12 when all 12 targeted slots hold a visible letter |
| Explosion.PhraseStaggerSkipsSpaces | script.js:139-140 | for the phrase "specks of dust", list position and slot index part ways at the spaces. The "o" of slot 7 is floater 6 and starts at 1200 ms; the "d" of slot 10 is floater 8 and starts at 1600 ms |
| Explosion.StaggerSchedule | script.js:139-157 | floater `i` gets an `Appear` timer at `i * 200` ms and a `Float` timer 6500 ms after that, in list order |
| Explosion.Explosion.constructor | script.js:93 | nothing has exploded and nothing has been cloned |
| Explosion.Explosion.OnIntersect | script.js:95-161 | after a batch of observer entries, `hasExploded` is set exactly when it was already set or some entry intersects. The first intersection builds the floaters and their timers. Every later intersection, and a batch with none, changes nothing |
| Scheduling.Rounds | script.js:283-287 | `n` frame callbacks perform `2n` redraws |
| Scheduling.RoundsAt | script.js:284-285 | each callback redraws the scroll-progress bar first and the parallax second |
| Scheduling.CoalescedBounds | script.js:282-288 | callbacks never outnumber the scroll events (plus one already pending) or the frames |
| Scheduling.BurstCoalesces | script.js:282-288 | any burst of one or more scroll events within one frame costs exactly one callback |
| Scheduling.BurstFromTicking | script.js:282-288 | with a callback already pending, any number of further scrolls still costs one callback |
| Scheduling.AnsweredScrollsAllRun | script.js:282-288 | when every scroll is followed by a frame, every scroll yields its own callback |
| Scheduling.FrameScheduler.constructor | script.js:279 | `ticking` starts false, with nothing requested or redrawn |
| Scheduling.FrameScheduler.OnScroll | script.js:281-290 | a scroll requests a frame and sets `ticking` only when `ticking` was clear. Afterwards exactly one callback is pending |
| Scheduling.FrameScheduler.OnAnimationFrame | script.js:283-287 | the pending callback, if any, appends the two redraws, clears `ticking` and leaves nothing pending |
| Scheduling.FrameScheduler.Feed | script.js:279-290 | over any event sequence, the redraws performed are exactly those of the reference count `Coalesced`. Afterwards `ticking`, and with it the pending callback, is what `FinalTicking` gives: set if the last event was a scroll, cleared if it was a frame, unchanged if there were no events |
| Scheduling.PendingRunsOnNextFrame | script.js:282-287 | one more frame after any events runs a callback exactly when `ticking` is still set |
| Scheduling.Replay | script.js:279-290 | a page fed any event sequence redraws `Coalesced(events, false)` times, never more than twice the number of scrolls or of frames |
| Scheduling.AnimateScatteredWords | script.js:175-181 | word `k` of a scattered section is revealed at `k * 200` ms, in document order, so any two words are `200` ms apart per position between them |

## Left out

- Geometry and floating point are not modelled. This covers `updateScrollProgress`, `updateParallax`, the horizontal-scroll section, the resize handler, `getBoundingClientRect` and the CSS positions written to the floaters. The model records only which redraws run and when.
- Browser effects are not modelled. This covers class toggles, `style` writes, `innerHTML` parsing, smooth scrolling for anchors, the cursor element and `DOMContentLoaded`.
  - The section, poem and reveal observers are left out. They add classes, and the reveal observer also starts a fade-in animation on an overlay text. The scattered-words reveal triggered by the section observer is modelled as `AnimateScatteredWords`.
  - The intersection rule itself (thresholds and root margins) is browser geometry. Observer entries arrive as booleans.
- Timers and animation frames are not real: `requestAnimationFrame`, `cancelAnimationFrame` and `setTimeout` become flags, events and timer records.
  - The explosion's timers are given relative to the second animation frame after the trigger.
  - The inner `requestAnimationFrame` that writes a floater's target position is folded into its `Appear` timer.
- Scheduling.FrameScheduler.OnAnimationFrame: the redraws are assumed to return normally. In the script, `updateScrollProgress` throws when the page has no `.scroll-progress` element, because the bar is then `null`. `ticking` is then never cleared, and no scroll requests a frame again. The model's callback always completes, so `Feed`, `Replay`, `PendingRunsOnNextFrame` and `AnsweredScrollsAllRun` describe a page where both redraws succeed.
- The `firstWish && specksOfDust` existence guard is left out: the model assumes both elements exist.
- The `Promise` of `setText` is modelled as the `resolved` flag of the latest call only. A promise replaced by a later `setText` simply never resolves, as in the script.
- `update` before any `setText` throws in the script, because the queue is undefined. The model starts with an empty queue instead.
- `innerText`'s whitespace normalisation and its view of characters outside the Basic Multilingual Plane are not modelled. Text is a sequence of characters, and `innerText` of the markup is the plain concatenation of the pieces.
- The fade-out sequence, the page navigator, the heaven sequencer and the hints follow no code in `script.js`. They are not part of this model.
- The text-scramble effect sits at the bottom of `script.js` as an optional class, and no page code calls it. It is modelled anyway, apart from the markup and `innerText` details listed above.
- Scramble.TextScramble.Run: the rolls for updates are given as 79 rows, the most the chain can use. It proves that the chain resolves but does not describe the markup of the intermediate frames; those have `Update`'s contract.
