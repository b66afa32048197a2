/**
 * The handful of Python `str` operations the extractor uses: substring search (`x in s`),
 * `s.split(sep)` and `s.lower()`, over `string` (a `seq<char>`).
 */
module Text {
  import opened Wrappers

  /** `t` occurs in `s` at position `i`. */
  predicate OccursAt(s: string, t: string, i: nat)
  {
    i + |t| <= |s| && s[i..i + |t|] == t
  }

  /** Position of the leftmost occurrence of `t` in `s`, as `s.find(t)` computes it. */
  function IndexOf(s: string, t: string, from: nat := 0): (r: Option<nat>)
    requires from <= |s|
    ensures r.Some? ==> from <= r.value && OccursAt(s, t, r.value)
    ensures r.Some? ==> forall j :: from <= j < r.value ==> !OccursAt(s, t, j)
    ensures r.None? ==> forall j :: from <= j <= |s| ==> !OccursAt(s, t, j)
    decreases |s| - from
  {
    if OccursAt(s, t, from) then Some(from)
    else if from == |s| then None
    else IndexOf(s, t, from + 1)
  }

  /** Python's `t in s`. */
  predicate Contains(s: string, t: string)
  {
    IndexOf(s, t).Some?
  }

  lemma ContainsAt(s: string, t: string, i: nat)
    requires OccursAt(s, t, i)
    ensures Contains(s, t)
  {
  }

  lemma ContainsWitness(s: string, t: string) returns (i: nat)
    requires Contains(s, t)
    ensures OccursAt(s, t, i)
  {
    i := IndexOf(s, t).value;
  }

  /** `s.split(sep)` for a non-empty separator: the pieces between non-overlapping occurrences,
      found left to right. */
  function SplitOn(s: string, sep: string): (parts: seq<string>)
    requires |sep| > 0
    ensures |parts| >= 1
    ensures forall k :: 0 <= k < |parts| ==> !Contains(parts[k], sep)
    decreases |s|
  {
    match IndexOf(s, sep)
    case None => [s]
    case Some(i) =>
      NoEarlierOccurrence(s, sep, i);
      [s[..i]] + SplitOn(s[i + |sep|..], sep)
  }

  /** The leftmost occurrence of `sep` in `s` is at `i`, so `s[..i]` holds none. */
  lemma NoEarlierOccurrence(s: string, sep: string, i: nat)
    requires |sep| > 0
    requires IndexOf(s, sep) == Some(i)
    ensures !Contains(s[..i], sep)
  {
    if Contains(s[..i], sep) {
      var j := ContainsWitness(s[..i], sep);
      assert s[j..j + |sep|] == s[..i][j..j + |sep|];
      assert OccursAt(s, sep, j) && j < i;
      assert false;
    }
  }

  /** `sep.join(parts)`: the inverse of `SplitOn`. */
  function Join(parts: seq<string>, sep: string): (r: string)
    requires |parts| >= 1
    decreases |parts|
  {
    if |parts| == 1 then parts[0] else parts[0] + sep + Join(parts[1..], sep)
  }

  /** Splitting loses nothing: joining the pieces back gives the original text. */
  lemma {:induction false} JoinSplit(s: string, sep: string)
    requires |sep| > 0
    ensures Join(SplitOn(s, sep), sep) == s
    decreases |s|
  {
    match IndexOf(s, sep)
    case None =>
    case Some(i) =>
      var rest := s[i + |sep|..];
      var parts := SplitOn(rest, sep);
      JoinSplit(rest, sep);
      assert SplitOn(s, sep) == [s[..i]] + parts;
      assert ([s[..i]] + parts)[1..] == parts;
      assert Join([s[..i]] + parts, sep) == s[..i] + sep + Join(parts, sep);
      assert s[i..i + |sep|] == sep;
      assert s == s[..i] + s[i..i + |sep|] + rest;
  }

  /** Python's `str.lower()` on one character, restricted to ASCII. */
  function LowerChar(c: char): (d: char)
  {
    if 'A' <= c <= 'Z' then c - 'A' + 'a' else c
  }

  function ToLower(s: string): (r: string)
    ensures |r| == |s|
    ensures forall k :: 0 <= k < |s| ==> r[k] == LowerChar(s[k])
  {
    seq(|s|, k requires 0 <= k < |s| => LowerChar(s[k]))
  }

  /** Python's `s.replace(a, b)` for single characters. */
  function ReplaceChar(s: string, a: char, b: char): (r: string)
    ensures |r| == |s|
    ensures forall k :: 0 <= k < |s| ==> r[k] == if s[k] == a then b else s[k]
  {
    seq(|s|, k requires 0 <= k < |s| => if s[k] == a then b else s[k])
  }
}
