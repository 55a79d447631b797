/**
 * Storage keys for checklist items: `slug(day, task)` in app.py.
 *
 * The key of a task on a day is the text `day + "::" + task` with every
 * letter or digit lowercased and every other character replaced by '-',
 * cut to its first 200 characters. Characters are modelled as ASCII:
 * `IsAlnum` and `Lower` stand for Python's `str.isalnum` and `str.lower`.
 */
module TaskKeys {

  /** Longest key `slug` returns; longer texts are cut. */
  const MaxLength: nat := 200

  /** Text placed between the day name and the task text. */
  const Separator: string := "::"

  /** Character replacing everything that is not a letter or digit. */
  const Filler: char := '-'

  predicate IsUpper(c: char) { 'A' <= c <= 'Z' }

  /** `str.isalnum` on one character, restricted to ASCII: the 26 letters in either case and the 10 digits. */
  predicate IsAlnum(c: char)
    ensures IsAlnum(c) ==> c as int < 0x80
    ensures 'a' <= c <= 'z' || IsUpper(c) || '0' <= c <= '9' ==> IsAlnum(c)
  {
    'a' <= c <= 'z' || IsUpper(c) || '0' <= c <= '9'
  }

  /** `str.lower` on one character, restricted to ASCII. */
  function Lower(c: char): (r: char)
    ensures !IsUpper(r)
    ensures IsAlnum(r) <==> IsAlnum(c)
    ensures !IsUpper(c) ==> r == c
    ensures IsUpper(c) ==> 'a' <= r <= 'z' && r as int - 'a' as int == c as int - 'A' as int
  {
    if IsUpper(c) then (c as int + ('a' as int - 'A' as int)) as char else c
  }

  /** The characters a key is made of. */
  predicate IsKeyChar(c: char) { c == Filler || (IsAlnum(c) && !IsUpper(c)) }

  /** What one input character becomes in a key. */
  function KeyChar(c: char): (r: char)
    ensures IsKeyChar(r)
    ensures r == Filler <==> !IsAlnum(c)
  {
    if IsAlnum(c) then Lower(c) else Filler
  }

  /**
   * Two letters or digits share a key character exactly when they are the
   * same character or the same letter in different case.
   */
  lemma KeyCharCaseInsensitive(a: char, b: char)
    requires IsAlnum(a) && IsAlnum(b)
    ensures KeyChar(a) == KeyChar(b) <==>
      a == b || (IsUpper(a) && b as int == a as int + 32) || (IsUpper(b) && a as int == b as int + 32)
  {
  }

  /** The character-by-character mapping of a whole text (the comprehension, before the cut). */
  function KeyChars(s: string): (r: string)
    ensures |r| == |s|
    ensures forall i :: 0 <= i < |s| ==> r[i] == KeyChar(s[i])
  {
    if s == [] then [] else [KeyChar(s[0])] + KeyChars(s[1..])
  }

  function Min(a: nat, b: nat): nat { if a <= b then a else b }

  /** A text made only of letters and digits, such as a weekday name. */
  predicate IsWord(s: string) { forall i :: 0 <= i < |s| ==> IsAlnum(s[i]) }

  /**
   * `slug(day, task)`: the key under which the tick of `task` on `day` is
   * stored. It is at most 200 characters long, each character is '-' or a
   * lowercased letter or digit, and it agrees position by position with the
   * mapping of `day + "::" + task`; both ':' become '-'.
   */
  function Slug(day: string, task: string): (r: string)
    ensures |r| == Min(MaxLength, |day| + |Separator| + |task|)
    ensures |r| <= MaxLength
    ensures forall i :: 0 <= i < |r| ==> r[i] == KeyChar((day + Separator + task)[i])
    ensures forall i :: 0 <= i < |r| ==> IsKeyChar(r[i])
    ensures |day| + |Separator| <= MaxLength ==> r[|day|] == Filler && r[|day| + 1] == Filler
    ensures forall i :: 0 <= i < |day| && i < MaxLength ==> r[i] == KeyChar(day[i])
  {
    var text := day + Separator + task;
    KeyChars(text)[..Min(MaxLength, |text|)]
  }

  /**
   * Keys tell days apart: two day names made of letters and digits whose
   * lowercased forms differ give different keys to any two tasks.
   */
  lemma SlugDeterminesDay(d1: string, d2: string, t1: string, t2: string)
    requires IsWord(d1) && IsWord(d2)
    requires |d1| + |Separator| <= MaxLength && |d2| + |Separator| <= MaxLength
    requires KeyChars(d1) != KeyChars(d2)
    ensures Slug(d1, t1) != Slug(d2, t2)
  {
    var s1, s2 := Slug(d1, t1), Slug(d2, t2);
    if |d1| < |d2| {
      assert s1[|d1|] == Filler;
      assert s2[|d1|] == KeyChar(d2[|d1|]) != Filler;
    } else if |d2| < |d1| {
      assert s2[|d2|] == Filler;
      assert s1[|d2|] == KeyChar(d1[|d2|]) != Filler;
    } else {
      var i :| 0 <= i < |d1| && KeyChars(d1)[i] != KeyChars(d2)[i];
      assert s1[i] != s2[i];
    }
  }

  /**
   * Keys forget punctuation: task texts of the same length that differ only
   * in which non-alphanumeric characters they hold share one key, so their
   * ticks are one and the same entry.
   */
  lemma SlugIgnoresPunctuation(day: string, t1: string, t2: string)
    requires |t1| == |t2|
    requires forall i :: 0 <= i < |t1| ==> t1[i] == t2[i] || (!IsAlnum(t1[i]) && !IsAlnum(t2[i]))
    ensures Slug(day, t1) == Slug(day, t2)
  {
    var s1, s2 := Slug(day, t1), Slug(day, t2);
    forall i | 0 <= i < |s1|
      ensures s1[i] == s2[i]
    {
      if i >= |day| + |Separator| {
        var k := i - |day| - |Separator|;
        assert (day + Separator + t1)[i] == t1[k];
        assert (day + Separator + t2)[i] == t2[k];
      } else {
        assert (day + Separator + t1)[i] == (day + Separator + t2)[i];
      }
    }
  }

  /**
   * Keys forget what lies past the cut: texts whose first 200 characters
   * agree give the same key.
   */
  lemma SlugIgnoresTail(day: string, t1: string, t2: string)
    requires |day| + |Separator| + |t1| >= MaxLength && |day| + |Separator| + |t2| >= MaxLength
    requires (day + Separator + t1)[..MaxLength] == (day + Separator + t2)[..MaxLength]
    ensures Slug(day, t1) == Slug(day, t2)
  {
    var s1, s2 := Slug(day, t1), Slug(day, t2);
    forall i | 0 <= i < MaxLength
      ensures s1[i] == s2[i]
    {
      assert (day + Separator + t1)[i] == (day + Separator + t1)[..MaxLength][i];
      assert (day + Separator + t2)[i] == (day + Separator + t2)[..MaxLength][i];
    }
  }
}
