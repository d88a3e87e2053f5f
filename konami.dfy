/**
 * The Konami-code easter egg at the end of script.js: every `keydown`
 * pushes the key onto a buffer, the buffer is cut to its last ten keys,
 * and the effect fires when the buffer joined with commas equals the
 * target sequence joined with commas.
 */
module Konami {

  /** Length of the rolling buffer and of the target sequence. */
  const Window := 10

  const KonamiSequence: seq<string> :=
    ["ArrowUp", "ArrowUp", "ArrowDown", "ArrowDown", "ArrowLeft", "ArrowRight",
     "ArrowLeft", "ArrowRight", "b", "a"]

  function Min(a: int, b: int): int {
    if a <= b then a else b
  }

  /**
   * JavaScript's `Array.prototype.slice(start)`: a negative start counts
   * from the end and is clamped to 0, a positive one is clamped to the
   * length. For a negative start `-n` the result is the last `min(n, |s|)`
   * elements.
   */
  function Slice<T>(s: seq<T>, start: int): (r: seq<T>)
    ensures start < 0 ==> |r| == Min(-start, |s|) && r == s[|s| - |r|..]
    ensures 0 <= start ==> |r| == |s| - Min(start, |s|) && r == s[|s| - |r|..]
  {
    var from := if start < 0 then (if |s| + start < 0 then 0 else |s| + start)
                else Min(start, |s|);
    s[from..]
  }

  /** JavaScript's `Array.prototype.join(sep)` over strings: the parts with `sep` between neighbours. */
  function Join(parts: seq<string>, sep: char): string
    decreases |parts|
  {
    if |parts| == 0 then ""
    else if |parts| == 1 then parts[0]
    else parts[0] + [sep] + Join(parts[1..], sep)
  }

  /** Keys that carry no comma and are not empty, as every key of the target sequence. */
  predicate Plain(k: string) {
    |k| > 0 && ',' !in k
  }

  /**
   * A `KeyboardEvent.key` value contains a comma only when it is the comma
   * key itself.
   */
  predicate IsKeyValue(k: string) {
    ',' !in k || k == ","
  }

  /** A joined list starts with the first character of its first part. */
  lemma JoinStartsWith(parts: seq<string>, sep: char)
    requires |parts| > 0 && |parts[0]| > 0
    ensures |Join(parts, sep)| > 0 && Join(parts, sep)[0] == parts[0][0]
  {
  }

  /** A joined list of more than one part contains the separator right after its first part. */
  lemma JoinHasSeparator(parts: seq<string>, sep: char)
    requires |parts| > 1
    ensures |Join(parts, sep)| > |parts[0]| && Join(parts, sep)[|parts[0]|] == sep
  {
  }

  /**
   * Comparing joined strings decides sequence equality, for a target of
   * plain keys and a buffer of key values: the comma key can never line up
   * with the target because the target has no empty field.
   */
  lemma {:induction false} JoinInjective(xs: seq<string>, ys: seq<string>)
    requires |xs| > 0 && |ys| > 0
    requires forall i :: 0 <= i < |xs| ==> IsKeyValue(xs[i])
    requires forall i :: 0 <= i < |ys| ==> Plain(ys[i])
    ensures Join(xs, ',') == Join(ys, ',') <==> xs == ys
    decreases |xs|
  {
    if Join(xs, ',') == Join(ys, ',') {
      var a, b := xs[0], ys[0];
      var s := Join(xs, ',');
      // A joined buffer that starts with the comma key starts with a comma; the target does not.
      JoinStartsWith(ys, ',');
      assert b[0] in b;
      if |a| > 0 {
        JoinStartsWith(xs, ',');
      }
      assert a != ",";
      if |ys| > 1 {
        JoinHasSeparator(ys, ',');
      }
      if |xs| > 1 {
        JoinHasSeparator(xs, ',');
        // Both first keys end where the first comma stands.
        assert a == s[..|a|] == b;
        assert Join(xs[1..], ',') == s[|a| + 1..] == Join(ys[1..], ',');
        JoinInjective(xs[1..], ys[1..]);
        assert xs == [a] + xs[1..] && ys == [b] + ys[1..];
      }
    }
  }

  /**
   * Cutting after every push keeps the same keys as cutting the whole
   * history once: the rolling buffer is the last `n` keys ever pressed.
   */
  lemma SliceOfPush(history: seq<string>, key: string, n: int)
    requires n > 0
    ensures Slice(Slice(history, -n) + [key], -n) == Slice(history + [key], -n)
  {
  }

  /** The target's keys are plain, so its joined form has one field per key. */
  lemma KonamiSequencePlain()
    ensures |KonamiSequence| == Window
    ensures forall i :: 0 <= i < |KonamiSequence| ==> Plain(KonamiSequence[i])
  {
  }

  /**
   * Comparing joined strings decides sequence equality against any
   * non-empty target of plain keys, the empty buffer included.
   */
  lemma JoinDecidesEquality(buffer: seq<string>, target: seq<string>)
    requires |target| > 0 && forall i :: 0 <= i < |target| ==> Plain(target[i])
    requires forall i :: 0 <= i < |buffer| ==> IsKeyValue(buffer[i])
    ensures Join(buffer, ',') == Join(target, ',') <==> buffer == target
  {
    if buffer == [] {
      JoinStartsWith(target, ',');
    } else {
      JoinInjective(buffer, target);
    }
  }

  /**
   * For a buffer of key values, the comparison of joined strings that the
   * listener makes is plain sequence equality with the target.
   */
  lemma FiresExactlyOnSequence(buffer: seq<string>)
    requires forall i :: 0 <= i < |buffer| ==> IsKeyValue(buffer[i])
    ensures Join(buffer, ',') == Join(KonamiSequence, ',') <==> buffer == KonamiSequence
  {
    KonamiSequencePlain();
    JoinDecidesEquality(buffer, KonamiSequence);
  }

  /** The `konamiCode` buffer of the keydown listener. */
  class KeyBuffer {
    var konamiCode: seq<string>
    /** Every key pressed so far, oldest first. */
    ghost var history: seq<string>

    ghost predicate Valid()
      reads this
    {
      konamiCode == Slice(history, -Window)
    }

    constructor ()
      ensures Valid() && konamiCode == [] && history == []
    {
      konamiCode := [];
      history := [];
    }

    /** One `keydown` event; `fired` tells whether the easter-egg animation starts. */
    method Press(key: string) returns (fired: bool)
      requires Valid()
      modifies this
      ensures Valid()
      ensures history == old(history) + [key]
      ensures |konamiCode| == Min(Window, |history|)
      ensures konamiCode == history[|history| - |konamiCode|..]
      ensures fired == (Join(konamiCode, ',') == Join(KonamiSequence, ','))
      ensures (forall i :: 0 <= i < |konamiCode| ==> IsKeyValue(konamiCode[i])) ==>
                (fired <==> konamiCode == KonamiSequence)
    {
      SliceOfPush(history, key, Window);
      history := history + [key];
      konamiCode := konamiCode + [key];
      konamiCode := Slice(konamiCode, -Window);
      fired := Join(konamiCode, ',') == Join(KonamiSequence, ',');
      if forall i :: 0 <= i < |konamiCode| ==> IsKeyValue(konamiCode[i]) {
        FiresExactlyOnSequence(konamiCode);
      }
    }
  }
}
