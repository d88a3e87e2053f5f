/**
 * The typed headline of the portfolio page (`initTypingAnimation` and its
 * inner `type()` in script.js). A cursor walks forwards through a phrase,
 * showing one more character per step, pauses, walks back deleting one
 * character per step, and then moves on to the next phrase, cyclically.
 *
 * `Advance` is the step as a function of the state; `Typewriter` is the
 * closure state that the source mutates, with a `Step` method proved to
 * follow `Advance`.
 */
module Typing {

  /** Delays (in milliseconds) that a step chooses for the next step. */
  const TypingSpeed := 80
  const DeletingSpeed := 50
  const PauseTime := 2000
  const NextPhraseDelay := 500

  /** Clamps an index to 0..len, as JavaScript's `substring` does. */
  function Clamp(i: int, len: nat): (r: nat)
    ensures r <= len
    ensures 0 <= i <= len ==> r == i
  {
    if i < 0 then 0 else if i > len then len else i
  }

  /**
   * JavaScript's `String.prototype.substring(start, end)`: both ends are
   * clamped to the string and swapped if they are out of order.
   */
  function Substring(s: string, start: int, end: int): (r: string)
    ensures |r| <= |s|
    ensures start <= 0 ==> r == s[..Clamp(end, |s|)]
    ensures 0 <= start <= end <= |s| ==> r == s[start..end]
  {
    var a, b := Clamp(start, |s|), Clamp(end, |s|);
    if a <= b then s[a..b] else s[b..a]
  }

  /** The three closure variables of `initTypingAnimation`. */
  datatype TypingState = TypingState(phraseIndex: nat, charIndex: int, isDeleting: bool)

  /** What one call of `type()` does: the text it shows, the delay it schedules, the state it leaves. */
  datatype Tick = Tick(text: string, delay: nat, next: TypingState)

  /** Every phrase is non-empty and there is at least one, as with the five literals of the source. */
  predicate WellFormed(phrases: seq<string>) {
    |phrases| > 0 && forall i :: 0 <= i < |phrases| ==> |phrases[i]| > 0
  }

  /**
   * The index bounds that hold between steps: the phrase index is in range,
   * a typing cursor is strictly inside the phrase, a deleting cursor has at
   * least one character left to delete.
   */
  predicate InBounds(phrases: seq<string>, st: TypingState) {
    st.phraseIndex < |phrases| &&
    var len := |phrases[st.phraseIndex]|;
    if st.isDeleting then 0 < st.charIndex <= len else 0 <= st.charIndex < len
  }

  /** The state of the animation before the first call of `type()`. */
  const Start := TypingState(0, 0, false)

  /** One call of `type()`. */
  function Advance(phrases: seq<string>, st: TypingState): (t: Tick)
    requires st.phraseIndex < |phrases|
    ensures t.next.phraseIndex < |phrases|
  {
    var currentPhrase := phrases[st.phraseIndex];
    var text := if st.isDeleting then Substring(currentPhrase, 0, st.charIndex - 1)
                else Substring(currentPhrase, 0, st.charIndex + 1);
    var charIndex := if st.isDeleting then st.charIndex - 1 else st.charIndex + 1;
    var timeout := if st.isDeleting then DeletingSpeed else TypingSpeed;
    if !st.isDeleting && charIndex == |currentPhrase| then
      Tick(text, PauseTime, TypingState(st.phraseIndex, charIndex, true))
    else if st.isDeleting && charIndex == 0 then
      Tick(text, NextPhraseDelay, TypingState((st.phraseIndex + 1) % |phrases|, charIndex, false))
    else
      Tick(text, timeout, TypingState(st.phraseIndex, charIndex, st.isDeleting))
  }

  /** After a step, the text shown is the first `charIndex` characters of the phrase that was current when the step began. */
  lemma AdvanceShowsPrefix(phrases: seq<string>, st: TypingState)
    requires InBounds(phrases, st)
    ensures var t := Advance(phrases, st);
            0 <= t.next.charIndex <= |phrases[st.phraseIndex]| &&
            t.text == phrases[st.phraseIndex][..t.next.charIndex]
  {
  }

  /** The index bounds hold after every step when they held before it. */
  lemma AdvanceKeepsBounds(phrases: seq<string>, st: TypingState)
    requires WellFormed(phrases) && InBounds(phrases, st)
    ensures InBounds(phrases, Advance(phrases, st).next)
  {
  }

  /**
   * When the direction changes, and which delay each step picks: typing
   * turns into deleting exactly when the cursor reaches the end of the
   * phrase, with a pause of 2000 ms; deleting ends exactly when the cursor
   * reaches 0, the next phrase is chosen cyclically and the delay is 500 ms;
   * every other step keeps the phrase and the direction and waits 80 ms
   * when typing, 50 ms when deleting.
   */
  lemma AdvanceSwitches(phrases: seq<string>, st: TypingState)
    requires InBounds(phrases, st)
    ensures var t := Advance(phrases, st);
            var len := |phrases[st.phraseIndex]|;
            (!st.isDeleting && t.next.isDeleting <==> !st.isDeleting && t.next.charIndex == len) &&
            (t.delay == PauseTime <==> !st.isDeleting && t.next.isDeleting) &&
            (st.isDeleting && !t.next.isDeleting <==> st.isDeleting && t.next.charIndex == 0) &&
            (t.delay == NextPhraseDelay <==> st.isDeleting && !t.next.isDeleting) &&
            (st.isDeleting && !t.next.isDeleting ==>
               t.next.phraseIndex == (st.phraseIndex + 1) % |phrases|) &&
            (st.isDeleting == t.next.isDeleting ==>
               t.next.phraseIndex == st.phraseIndex &&
               t.delay == (if st.isDeleting then DeletingSpeed else TypingSpeed))
  {
  }

  /** The state after `k` calls of `type()`. */
  function Run(phrases: seq<string>, st: TypingState, k: nat): (r: TypingState)
    requires st.phraseIndex < |phrases|
    ensures r.phraseIndex < |phrases|
    decreases k
  {
    if k == 0 then st else Run(phrases, Advance(phrases, st).next, k - 1)
  }

  /** From position `j` of phrase `i`, typing reaches the end of the phrase in `len - j` steps and turns to deleting. */
  lemma {:induction false} TypeToEnd(phrases: seq<string>, i: nat, j: nat, k: nat)
    requires i < |phrases| && j < |phrases[i]|
    ensures Run(phrases, TypingState(i, j, false), |phrases[i]| - j + k)
         == Run(phrases, TypingState(i, |phrases[i]|, true), k)
    decreases |phrases[i]| - j
  {
    var st := TypingState(i, j, false);
    assert Advance(phrases, st).next
        == if j + 1 == |phrases[i]| then TypingState(i, j + 1, true) else TypingState(i, j + 1, false);
    if j + 1 < |phrases[i]| {
      TypeToEnd(phrases, i, j + 1, k);
    }
  }

  /** From position `j` of phrase `i`, deleting empties the phrase in `j` steps and moves to the start of the next phrase. */
  lemma {:induction false} DeleteToStart(phrases: seq<string>, i: nat, j: nat, k: nat)
    requires i < |phrases| && 0 < j <= |phrases[i]|
    ensures Run(phrases, TypingState(i, j, true), j + k)
         == Run(phrases, TypingState((i + 1) % |phrases|, 0, false), k)
    decreases j
  {
    var st := TypingState(i, j, true);
    assert Advance(phrases, st).next
        == if j == 1 then TypingState((i + 1) % |phrases|, 0, false) else TypingState(i, j - 1, true);
    if j > 1 {
      DeleteToStart(phrases, i, j - 1, k);
    }
  }

  /**
   * Phrases are shown in cyclic order: from the beginning of phrase `i`,
   * exactly twice its length in steps later the animation is at the
   * beginning of phrase `(i + 1) mod n`, typing.
   */
  lemma {:induction false} CyclicOrder(phrases: seq<string>, i: nat)
    requires WellFormed(phrases) && i < |phrases|
    ensures Run(phrases, TypingState(i, 0, false), 2 * |phrases[i]|)
         == TypingState((i + 1) % |phrases|, 0, false)
  {
    var len := |phrases[i]|;
    TypeToEnd(phrases, i, 0, len);
    DeleteToStart(phrases, i, len, 0);
  }

  /** The bounds hold on every state the animation reaches from its start. */
  lemma {:induction false} RunKeepsBounds(phrases: seq<string>, st: TypingState, k: nat)
    requires WellFormed(phrases) && InBounds(phrases, st)
    ensures InBounds(phrases, Run(phrases, st, k))
    decreases k
  {
    if k > 0 {
      AdvanceKeepsBounds(phrases, st);
      RunKeepsBounds(phrases, Advance(phrases, st).next, k - 1);
    }
  }

  /** The closure of `initTypingAnimation`: the phrase list and the three mutable variables. */
  class Typewriter {
    const phrases: seq<string>
    var phraseIndex: nat
    var charIndex: int
    var isDeleting: bool

    function State(): TypingState
      reads this
    {
      TypingState(phraseIndex, charIndex, isDeleting)
    }

    ghost predicate Valid()
      reads this
    {
      WellFormed(phrases) && InBounds(phrases, State())
    }

    constructor (phrases: seq<string>)
      requires WellFormed(phrases)
      ensures this.phrases == phrases && State() == Start
      ensures Valid()
    {
      this.phrases := phrases;
      phraseIndex, charIndex, isDeleting := 0, 0, false;
    }

    /** One call of `type()`: shows `text` and returns the delay after which it is called again. */
    method Step() returns (text: string, delay: nat)
      requires Valid()
      modifies this
      ensures Valid()
      ensures State() == Advance(phrases, old(State())).next
      ensures text == Advance(phrases, old(State())).text
      ensures delay == Advance(phrases, old(State())).delay
      ensures 0 <= charIndex && text == phrases[old(phraseIndex)][..charIndex]
    {
      ghost var before := State();
      AdvanceShowsPrefix(phrases, before);
      AdvanceKeepsBounds(phrases, before);
      var currentPhrase := phrases[phraseIndex];
      if isDeleting {
        text := Substring(currentPhrase, 0, charIndex - 1);
        charIndex := charIndex - 1;
      } else {
        text := Substring(currentPhrase, 0, charIndex + 1);
        charIndex := charIndex + 1;
      }
      delay := if isDeleting then DeletingSpeed else TypingSpeed;
      if !isDeleting && charIndex == |currentPhrase| {
        delay := PauseTime;
        isDeleting := true;
      } else if isDeleting && charIndex == 0 {
        isDeleting := false;
        phraseIndex := (phraseIndex + 1) % |phrases|;
        delay := NextPhraseDelay;
      }
    }
  }
}
