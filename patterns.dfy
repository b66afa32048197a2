/**
 * The four fixed regular expressions of database.py, written as scanners over `string`.
 *
 * Each pattern is a list of pieces: a literal, or a capture group `(\w+)`. Every capture group
 * in these patterns is followed by a literal that starts with a non-word character, so the
 * greedy run of word characters is the only way a group can match, and a scanner that takes
 * the longest run without backtracking finds exactly what Python's `re` finds.
 */
module Patterns {
  import opened Wrappers

  /** `\w`, restricted to ASCII. */
  predicate IsWordChar(c: char)
  {
    'a' <= c <= 'z' || 'A' <= c <= 'Z' || '0' <= c <= '9' || c == '_'
  }

  predicate IsWord(w: string)
  {
    |w| > 0 && forall k :: 0 <= k < |w| ==> IsWordChar(w[k])
  }

  datatype Piece = Lit(text: string) | Group

  type Pattern = seq<Piece>

  /** `` `(\w+)` `` */
  const BacktickWord: Pattern := [Lit("`"), Group, Lit("`")]
  /** ``TABLE `(\w+)` `` */
  const TableHeader: Pattern := [Lit("TABLE `"), Group, Lit("`")]
  /** ``PRIMARY KEY \(`(\w+)`\)`` */
  const PrimaryKeyClause: Pattern := [Lit("PRIMARY KEY (`"), Group, Lit("`)")]
  /** ``FOREIGN KEY \(`(\w+)`\) REFERENCES `(\w+)` \(`(\w+)`\)`` */
  const ForeignKeyClause: Pattern :=
    [Lit("FOREIGN KEY (`"), Group, Lit("`) REFERENCES `"), Group, Lit("` (`"), Group, Lit("`)")]

  /** Every group is followed by a literal whose first character cannot extend the group. */
  predicate WellFormed(p: Pattern)
    decreases |p|
  {
    p == [] ||
    ((p[0].Group? ==> |p| > 1 && p[1].Lit? && |p[1].text| > 0 && !IsWordChar(p[1].text[0])) &&
     WellFormed(p[1..]))
  }

  function GroupCount(p: Pattern): nat
  {
    if p == [] then 0 else (if p[0].Group? then 1 else 0) + GroupCount(p[1..])
  }

  /** The text a pattern stands for once its groups are filled in: the reference meaning of a match. */
  function Render(p: Pattern, groups: seq<string>): string
    requires |groups| == GroupCount(p)
  {
    if p == [] then []
    else if p[0].Lit? then p[0].text + Render(p[1..], groups)
    else groups[0] + Render(p[1..], groups[1..])
  }

  /** Length of the longest run of word characters starting at `i`. */
  function WordRun(s: string, i: nat): (n: nat)
    requires i <= |s|
    ensures i + n <= |s|
    ensures forall k :: i <= k < i + n ==> IsWordChar(s[k])
    ensures i + n == |s| || !IsWordChar(s[i + n])
    decreases |s| - i
  {
    if i < |s| && IsWordChar(s[i]) then 1 + WordRun(s, i + 1) else 0
  }

  /** A match anchored at `i`: where it ends and what its groups captured. */
  datatype Hit = Hit(end: nat, groups: seq<string>)

  function MatchAt(s: string, i: nat, p: Pattern): (r: Option<Hit>)
    requires i <= |s|
    ensures r.Some? ==> i <= r.value.end <= |s| && |r.value.groups| == GroupCount(p)
    ensures r.Some? ==> forall g :: 0 <= g < |r.value.groups| ==> IsWord(r.value.groups[g])
    decreases |p|
  {
    if p == [] then Some(Hit(i, []))
    else match p[0]
      case Lit(t) =>
        if i + |t| <= |s| && s[i..i + |t|] == t then MatchAt(s, i + |t|, p[1..]) else None
      case Group =>
        var n := WordRun(s, i);
        if n == 0 then None
        else match MatchAt(s, i + n, p[1..])
          case None => None
          case Some(h) => Some(Hit(h.end, [s[i..i + n]] + h.groups))
  }

  /** Soundness: the matched text is the pattern with the captured words filled in. */
  lemma {:induction false} MatchAtSound(s: string, i: nat, p: Pattern)
    requires i <= |s| && MatchAt(s, i, p).Some?
    ensures s[i..MatchAt(s, i, p).value.end] == Render(p, MatchAt(s, i, p).value.groups)
    decreases |p|, 1
  {
    if p != [] {
      if p[0].Lit? {
        SoundLit(s, i, p);
      } else {
        SoundGroup(s, i, p);
      }
    }
  }

  lemma {:induction false} SoundLit(s: string, i: nat, p: Pattern)
    requires i <= |s| && p != [] && p[0].Lit? && MatchAt(s, i, p).Some?
    ensures s[i..MatchAt(s, i, p).value.end] == Render(p, MatchAt(s, i, p).value.groups)
    decreases |p|, 0
  {
    var h := MatchAt(s, i, p).value;
    var t := p[0].text;
    RenderStep(p, h.groups);
    MatchAtLit(s, i, p);
    MatchAtSound(s, i + |t|, p[1..]);
    ConcatSlices(s, i, i + |t|, h.end);
  }

  lemma {:induction false} SoundGroup(s: string, i: nat, p: Pattern)
    requires i <= |s| && p != [] && p[0].Group? && MatchAt(s, i, p).Some?
    ensures s[i..MatchAt(s, i, p).value.end] == Render(p, MatchAt(s, i, p).value.groups)
    decreases |p|, 0
  {
    MatchAtGroup(s, i, p);
    MatchAtSound(s, i + WordRun(s, i), p[1..]);
    SoundGroupStep(s, i, p);
  }

  /** One group step of soundness, given the soundness of the match of the rest of the pattern. */
  lemma SoundGroupStep(s: string, i: nat, p: Pattern)
    requires i <= |s| && p != [] && p[0].Group? && MatchAt(s, i, p).Some?
    requires WordRun(s, i) > 0 && MatchAt(s, i + WordRun(s, i), p[1..]).Some?
    requires s[i + WordRun(s, i)..MatchAt(s, i + WordRun(s, i), p[1..]).value.end] ==
      Render(p[1..], MatchAt(s, i + WordRun(s, i), p[1..]).value.groups)
    ensures s[i..MatchAt(s, i, p).value.end] == Render(p, MatchAt(s, i, p).value.groups)
  {
    var n := WordRun(s, i);
    MatchAtGroup(s, i, p);
    var h := MatchAt(s, i, p).value;
    var h' := MatchAt(s, i + n, p[1..]).value;
    HeadTail(s[i..i + n], h'.groups);
    assert h.groups[0] == s[i..i + n] && h.groups[1..] == h'.groups && h.end == h'.end;
    RenderStep(p, h.groups);
    ConcatSlices(s, i, i + n, h.end);
  }

  /** One step of `MatchAt` on a leading literal. */
  lemma MatchAtLit(s: string, i: nat, p: Pattern)
    requires i <= |s| && p != [] && p[0].Lit?
    ensures MatchAt(s, i, p) ==
      if i + |p[0].text| <= |s| && s[i..i + |p[0].text|] == p[0].text then MatchAt(s, i + |p[0].text|, p[1..])
      else None
  {
  }

  /** One step of a successful `MatchAt` on a leading group. */
  lemma MatchAtGroup(s: string, i: nat, p: Pattern)
    requires i <= |s| && p != [] && p[0].Group? && MatchAt(s, i, p).Some?
    ensures WordRun(s, i) > 0 && MatchAt(s, i + WordRun(s, i), p[1..]).Some?
    ensures MatchAt(s, i, p).value == Hit(MatchAt(s, i + WordRun(s, i), p[1..]).value.end,
      [s[i..i + WordRun(s, i)]] + MatchAt(s, i + WordRun(s, i), p[1..]).value.groups)
  {
  }

  /** One step of `Render`. */
  lemma RenderStep(p: Pattern, groups: seq<string>)
    requires p != [] && |groups| == GroupCount(p)
    ensures p[0].Lit? ==> Render(p, groups) == p[0].text + Render(p[1..], groups)
    ensures p[0].Group? ==> |groups| > 0 && Render(p, groups) == groups[0] + Render(p[1..], groups[1..])
  {
  }

  lemma ConcatSlices(s: string, a: nat, b: nat, c: nat)
    requires a <= b <= c <= |s|
    ensures s[a..c] == s[a..b] + s[b..c]
  {
  }

  /** Completeness: wherever the pattern, filled in with words, occurs, the scanner matches it,
      with exactly those words. */
  lemma {:induction false} MatchAtComplete(s: string, i: nat, p: Pattern, groups: seq<string>)
    requires WellFormed(p)
    requires |groups| == GroupCount(p)
    requires forall g :: 0 <= g < |groups| ==> IsWord(groups[g])
    requires i + |Render(p, groups)| <= |s| && s[i..i + |Render(p, groups)|] == Render(p, groups)
    ensures MatchAt(s, i, p).Some?
    ensures MatchAt(s, i, p).value.end == i + |Render(p, groups)|
    ensures MatchAt(s, i, p).value.groups == groups
    decreases |p|, 1
  {
    if p != [] {
      if p[0].Lit? {
        CompleteLit(s, i, p, groups);
      } else {
        CompleteGroup(s, i, p, groups);
      }
    }
  }

  lemma {:induction false} CompleteLit(s: string, i: nat, p: Pattern, groups: seq<string>)
    requires p != [] && p[0].Lit?
    requires WellFormed(p)
    requires |groups| == GroupCount(p)
    requires forall g :: 0 <= g < |groups| ==> IsWord(groups[g])
    requires i + |Render(p, groups)| <= |s| && s[i..i + |Render(p, groups)|] == Render(p, groups)
    ensures MatchAt(s, i, p).Some?
    ensures MatchAt(s, i, p).value.end == i + |Render(p, groups)|
    ensures MatchAt(s, i, p).value.groups == groups
    decreases |p|, 0
  {
    LitPremises(s, i, p, groups);
    MatchAtComplete(s, i + |p[0].text|, p[1..], groups);
    LitStep(s, i, p, groups);
  }

  /** What completeness needs of the rest of the pattern after a leading literal. */
  lemma LitPremises(s: string, i: nat, p: Pattern, groups: seq<string>)
    requires p != [] && p[0].Lit? && WellFormed(p) && |groups| == GroupCount(p)
    requires i + |Render(p, groups)| <= |s| && s[i..i + |Render(p, groups)|] == Render(p, groups)
    ensures WellFormed(p[1..]) && |groups| == GroupCount(p[1..])
    ensures Render(p, groups) == p[0].text + Render(p[1..], groups)
    ensures |Render(p, groups)| == |p[0].text| + |Render(p[1..], groups)|
    ensures i + |p[0].text| + |Render(p[1..], groups)| <= |s|
    ensures s[i..i + |p[0].text|] == p[0].text
    ensures s[i + |p[0].text|..i + |p[0].text| + |Render(p[1..], groups)|] == Render(p[1..], groups)
  {
    TailWellFormed(p);
    RenderStep(p, groups);
    SliceOfConcat(s, i, p[0].text, Render(p[1..], groups));
  }

  /** One literal step of completeness, given the match of the rest of the pattern. */
  lemma LitStep(s: string, i: nat, p: Pattern, groups: seq<string>)
    requires p != [] && p[0].Lit? && |groups| == GroupCount(p)
    requires i + |p[0].text| <= |s| && s[i..i + |p[0].text|] == p[0].text
    requires MatchAt(s, i + |p[0].text|, p[1..]).Some?
    requires MatchAt(s, i + |p[0].text|, p[1..]).value.end == i + |p[0].text| + |Render(p[1..], groups)|
    requires MatchAt(s, i + |p[0].text|, p[1..]).value.groups == groups
    ensures MatchAt(s, i, p).Some?
    ensures MatchAt(s, i, p).value.end == i + |Render(p, groups)|
    ensures MatchAt(s, i, p).value.groups == groups
  {
    MatchAtLit(s, i, p);
    RenderStep(p, groups);
  }

  lemma {:induction false} CompleteGroup(s: string, i: nat, p: Pattern, groups: seq<string>)
    requires p != [] && p[0].Group?
    requires WellFormed(p)
    requires |groups| == GroupCount(p)
    requires forall g :: 0 <= g < |groups| ==> IsWord(groups[g])
    requires i + |Render(p, groups)| <= |s| && s[i..i + |Render(p, groups)|] == Render(p, groups)
    ensures MatchAt(s, i, p).Some?
    ensures MatchAt(s, i, p).value.end == i + |Render(p, groups)|
    ensures MatchAt(s, i, p).value.groups == groups
    decreases |p|, 0
  {
    GroupPremises(s, i, p, groups);
    MatchAtComplete(s, i + |groups[0]|, p[1..], groups[1..]);
    GroupStep(s, i, p, groups);
  }

  /** What completeness needs of the rest of the pattern after a leading group. */
  lemma GroupPremises(s: string, i: nat, p: Pattern, groups: seq<string>)
    requires p != [] && p[0].Group? && WellFormed(p) && |groups| == GroupCount(p)
    requires forall g :: 0 <= g < |groups| ==> IsWord(groups[g])
    requires i + |Render(p, groups)| <= |s| && s[i..i + |Render(p, groups)|] == Render(p, groups)
    ensures |groups| > 0
    ensures WellFormed(p[1..]) && |groups[1..]| == GroupCount(p[1..])
    ensures forall g :: 0 <= g < |groups[1..]| ==> IsWord(groups[1..][g])
    ensures i + |groups[0]| + |Render(p[1..], groups[1..])| <= |s|
    ensures s[i + |groups[0]|..i + |groups[0]| + |Render(p[1..], groups[1..])|] == Render(p[1..], groups[1..])
  {
    TailWellFormed(p);
    RenderStep(p, groups);
    SliceOfConcat(s, i, groups[0], Render(p[1..], groups[1..]));
    TailWords(groups);
  }

  lemma HeadTail(x: string, ys: seq<string>)
    ensures ([x] + ys)[0] == x && ([x] + ys)[1..] == ys
  {
  }

  lemma TailWords(groups: seq<string>)
    requires |groups| > 0 && forall g :: 0 <= g < |groups| ==> IsWord(groups[g])
    ensures forall g :: 0 <= g < |groups[1..]| ==> IsWord(groups[1..][g])
  {
    forall g | 0 <= g < |groups[1..]| ensures IsWord(groups[1..][g]) { assert groups[1..][g] == groups[g + 1]; }
  }

  /** One group step of completeness, given the match of the rest of the pattern. */
  lemma GroupStep(s: string, i: nat, p: Pattern, groups: seq<string>)
    requires p != [] && p[0].Group? && WellFormed(p) && |groups| == GroupCount(p)
    requires forall g :: 0 <= g < |groups| ==> IsWord(groups[g])
    requires i + |Render(p, groups)| <= |s| && s[i..i + |Render(p, groups)|] == Render(p, groups)
    requires |groups| > 0
    requires MatchAt(s, i + |groups[0]|, p[1..]).Some?
    requires MatchAt(s, i + |groups[0]|, p[1..]).value.end == i + |groups[0]| + |Render(p[1..], groups[1..])|
    requires MatchAt(s, i + |groups[0]|, p[1..]).value.groups == groups[1..]
    ensures MatchAt(s, i, p).Some?
    ensures MatchAt(s, i, p).value.end == i + |Render(p, groups)|
    ensures MatchAt(s, i, p).value.groups == groups
  {
    var rest := Render(p[1..], groups[1..]);
    GroupHead(s, i, p, groups);
    GroupIsLongestRun(s, i, p, groups, rest);
    GroupUnfold(s, i, p, |groups[0]|);
    Cons(groups);
    RenderStep(p, groups);
  }

  /** The facts about the captured word that the group step needs. */
  lemma GroupHead(s: string, i: nat, p: Pattern, groups: seq<string>)
    requires p != [] && p[0].Group? && WellFormed(p) && |groups| == GroupCount(p) && |groups| > 0
    requires forall g :: 0 <= g < |groups| ==> IsWord(groups[g])
    requires i + |Render(p, groups)| <= |s| && s[i..i + |Render(p, groups)|] == Render(p, groups)
    ensures IsWord(groups[0]) && |groups[0]| > 0
    ensures |Render(p, groups)| == |groups[0]| + |Render(p[1..], groups[1..])|
    ensures i + |groups[0]| + |Render(p[1..], groups[1..])| <= |s|
    ensures s[i..i + |groups[0]|] == groups[0]
    ensures s[i + |groups[0]|..i + |groups[0]| + |Render(p[1..], groups[1..])|] == Render(p[1..], groups[1..])
  {
    RenderStep(p, groups);
    SliceOfConcat(s, i, groups[0], Render(p[1..], groups[1..]));
  }

  /** The captured word, followed by the literal after the group, is the longest run there. */
  lemma GroupIsLongestRun(s: string, i: nat, p: Pattern, groups: seq<string>, rest: string)
    requires WellFormed(p) && p != [] && p[0].Group?
    requires |groups| == GroupCount(p) && IsWord(groups[0])
    requires rest == Render(p[1..], groups[1..])
    requires i + |groups[0]| + |rest| <= |s|
    requires s[i..i + |groups[0]|] == groups[0]
    requires s[i + |groups[0]|..i + |groups[0]| + |rest|] == rest
    ensures WordRun(s, i) == |groups[0]|
  {
    var lit := p[1].text;
    assert p[1].Lit? && |lit| > 0 && !IsWordChar(lit[0]);
    RenderStep(p[1..], groups[1..]);
    assert rest == lit + Render(p[2..], groups[1..]) by { assert p[1..][1..] == p[2..]; }
    assert s[i + |groups[0]|] == rest[0];
    GroupRun(s, i, groups[0], lit, rest);
  }

  /** A group followed by a match of the rest of the pattern is a match of the whole. */
  lemma GroupUnfold(s: string, i: nat, p: Pattern, n: nat)
    requires i <= |s| && p != [] && p[0].Group?
    requires n > 0 && WordRun(s, i) == n && MatchAt(s, i + n, p[1..]).Some?
    ensures MatchAt(s, i, p).Some?
    ensures MatchAt(s, i, p).value.end == MatchAt(s, i + n, p[1..]).value.end
    ensures MatchAt(s, i, p).value.groups == [s[i..i + n]] + MatchAt(s, i + n, p[1..]).value.groups
  {
  }

  lemma Cons<T>(xs: seq<T>)
    requires |xs| > 0
    ensures [xs[0]] + xs[1..] == xs
  {
  }

  lemma TailWellFormed(p: Pattern)
    requires WellFormed(p) && p != []
    ensures WellFormed(p[1..])
  {
  }

  lemma SliceOfConcat(s: string, i: nat, a: string, b: string)
    requires i + |a + b| <= |s| && s[i..i + |a + b|] == a + b
    ensures s[i..i + |a|] == a && s[i + |a|..i + |a| + |b|] == b
    ensures forall k :: 0 <= k < |b| ==> s[i + |a| + k] == b[k]
  {
    assert s[i..i + |a|] == (a + b)[..|a|];
    assert s[i + |a|..i + |a| + |b|] == (a + b)[|a|..];
  }

  /** A captured word followed by a literal that starts with a non-word character is a longest run. */
  lemma GroupRun(s: string, i: nat, w: string, lit: string, rest: string)
    requires IsWord(w) && |lit| > 0 && !IsWordChar(lit[0])
    requires |rest| > 0 && rest[0] == lit[0]
    requires i + |w| + |rest| <= |s| && s[i..i + |w|] == w && s[i + |w|] == rest[0]
    ensures WordRun(s, i) == |w|
  {
    forall k | i <= k < i + |w| ensures IsWordChar(s[k]) {
      assert s[k] == w[k - i];
    }
    WordRunIs(s, i, |w|);
  }

  lemma WordRunIs(s: string, i: nat, n: nat)
    requires i + n < |s|
    requires forall k :: i <= k < i + n ==> IsWordChar(s[k])
    requires !IsWordChar(s[i + n])
    ensures WordRun(s, i) == n
    decreases n
  {
    if n > 0 { WordRunIs(s, i + 1, n - 1); }
  }

  /** A match of the whole pattern somewhere in the text. */
  datatype Match = Match(start: nat, end: nat, groups: seq<string>)

  predicate IsMatch(s: string, p: Pattern, m: Match)
  {
    m.start <= |s| && MatchAt(s, m.start, p) == Some(Hit(m.end, m.groups))
  }

  /** Where a scan resumes after a match (an empty match would advance by one character). */
  function Resume(m: Match): nat
  {
    if m.end > m.start then m.end else m.start + 1
  }

  /** `re.search(p, s[from:])`: the leftmost match starting at or after `from`. */
  function Search(s: string, p: Pattern, from: nat := 0): (r: Option<Match>)
    requires from <= |s|
    ensures r.Some? ==> IsMatch(s, p, r.value) && from <= r.value.start
    ensures r.Some? ==> forall j :: from <= j < r.value.start ==> MatchAt(s, j, p).None?
    ensures r.None? ==> forall j :: from <= j <= |s| ==> MatchAt(s, j, p).None?
    decreases |s| - from
  {
    match MatchAt(s, from, p)
    case Some(h) => Some(Match(from, h.end, h.groups))
    case None => if from == |s| then None else Search(s, p, from + 1)
  }

  /** Some match in `ms` starts at or spans position `j`. */
  ghost predicate Covers(ms: seq<Match>, j: nat)
  {
    exists k :: 0 <= k < |ms| && ms[k].start <= j < Resume(ms[k])
  }

  /** `re.finditer(p, s)` from position `from`: the non-overlapping matches, left to right. */
  function FindAll(s: string, p: Pattern, from: nat := 0): (r: seq<Match>)
    requires from <= |s|
    ensures forall k :: 0 <= k < |r| ==> IsMatch(s, p, r[k]) && from <= r[k].start
    ensures forall a, b :: 0 <= a < b < |r| ==> Resume(r[a]) <= r[b].start
    decreases |s| - from
  {
    match Search(s, p, from)
    case None => []
    case Some(m) => if Resume(m) <= |s| then [m] + FindAll(s, p, Resume(m)) else [m]
  }

  /** No match is skipped: every position where the pattern matches is the start of a match
      `FindAll` reports or lies inside one. */
  lemma {:induction false} FindAllComplete(s: string, p: Pattern, from: nat, j: nat)
    requires from <= j <= |s| && MatchAt(s, j, p).Some?
    ensures Covers(FindAll(s, p, from), j)
    decreases |s| - from
  {
    var m := Search(s, p, from).value;
    var r := FindAll(s, p, from);
    if j < Resume(m) {
      assert r[0] == m;
    } else {
      var rest := FindAll(s, p, Resume(m));
      FindAllComplete(s, p, Resume(m), j);
      var k :| 0 <= k < |rest| && rest[k].start <= j < Resume(rest[k]);
      assert r[k + 1] == rest[k];
    }
  }

  /** The captured groups of each match, in order (what `re.findall` returns). */
  function Captures(s: string, p: Pattern): (r: seq<seq<string>>)
    ensures |r| == |FindAll(s, p)|
    ensures forall k :: 0 <= k < |r| ==> |r[k]| == GroupCount(p)
    ensures forall k :: 0 <= k < |r| ==> forall g :: 0 <= g < |r[k]| ==> IsWord(r[k][g])
  {
    var ms := FindAll(s, p);
    seq(|ms|, k requires 0 <= k < |ms| => ms[k].groups)
  }

  // The four patterns are well formed, and what they stand for once filled in.

  lemma RenderLit(t: string, p: Pattern, groups: seq<string>)
    requires |groups| == GroupCount(p)
    ensures GroupCount([Lit(t)] + p) == GroupCount(p)
    ensures Render([Lit(t)] + p, groups) == t + Render(p, groups)
  {
    assert ([Lit(t)] + p)[1..] == p;
  }

  lemma RenderGroup(p: Pattern, groups: seq<string>)
    requires |groups| == GroupCount(p) + 1
    ensures GroupCount([Group] + p) == GroupCount(p) + 1
    ensures Render([Group] + p, groups) == groups[0] + Render(p, groups[1..])
  {
    assert ([Group] + p)[1..] == p;
  }

  lemma QuotedShape(before: string, w: string, after: string)
    ensures GroupCount([Lit(before), Group, Lit(after)]) == 1
    ensures WellFormed([Lit(before), Group, Lit(after)]) <==> |after| > 0 && !IsWordChar(after[0])
    ensures Render([Lit(before), Group, Lit(after)], [w]) == before + w + after
  {
    var tail: Pattern := [Lit(after)];
    RenderLit(after, [], []);
    assert [Group] + tail == [Group, Lit(after)];
    RenderGroup(tail, [w]);
    assert [Lit(before)] + [Group, Lit(after)] == [Lit(before), Group, Lit(after)];
    RenderLit(before, [Group, Lit(after)], [w]);
    assert WellFormed(tail) by { assert tail[1..] == []; }
    assert [Group, Lit(after)][1..] == tail;
    assert WellFormed([Group, Lit(after)]) <==> |after| > 0 && !IsWordChar(after[0]);
    assert [Lit(before), Group, Lit(after)][1..] == [Group, Lit(after)];
  }

  lemma ForeignKeyShape(a: string, b: string, c: string)
    ensures GroupCount(ForeignKeyClause) == 3
    ensures Render(ForeignKeyClause, [a, b, c]) ==
      "FOREIGN KEY (`" + a + "`) REFERENCES `" + b + "` (`" + c + "`)"
  {
    var p1: Pattern := [Group, Lit("`) REFERENCES `"), Group, Lit("` (`"), Group, Lit("`)")];
    ForeignKeyMiddle(a, b, c);
    assert ForeignKeyClause == [Lit("FOREIGN KEY (`")] + p1;
    RenderLit("FOREIGN KEY (`", p1, [a, b, c]);
    SeqAssoc5("FOREIGN KEY (`", a, "`) REFERENCES `", b, "` (`" + c + "`)");
    SeqAssoc3("FOREIGN KEY (`" + a + "`) REFERENCES `" + b, "` (`" + c, "`)");
    SeqAssoc3("FOREIGN KEY (`" + a + "`) REFERENCES `" + b, "` (`", c);
  }

  /** The foreign-key pattern from its first group on. */
  lemma ForeignKeyMiddle(a: string, b: string, c: string)
    ensures GroupCount([Group, Lit("`) REFERENCES `"), Group, Lit("` (`"), Group, Lit("`)")]) == 3
    ensures Render([Group, Lit("`) REFERENCES `"), Group, Lit("` (`"), Group, Lit("`)")], [a, b, c]) ==
      a + ("`) REFERENCES `" + (b + ("` (`" + c + "`)")))
  {
    var p3: Pattern := [Group, Lit("` (`"), Group, Lit("`)")];
    ForeignKeyTail(b, c);
    var p2: Pattern := [Lit("`) REFERENCES `")] + p3;
    RenderLit("`) REFERENCES `", p3, [b, c]);
    assert [Group] + p2 == [Group, Lit("`) REFERENCES `"), Group, Lit("` (`"), Group, Lit("`)")];
    RenderGroup(p2, [a, b, c]);
    assert [a, b, c][1..] == [b, c];
  }

  /** The foreign-key pattern from its second group on. */
  lemma ForeignKeyTail(b: string, c: string)
    ensures GroupCount([Group, Lit("` (`"), Group, Lit("`)")]) == 2
    ensures Render([Group, Lit("` (`"), Group, Lit("`)")], [b, c]) == b + ("` (`" + c + "`)")
  {
    var p4: Pattern := [Lit("` (`"), Group, Lit("`)")];
    QuotedShape("` (`", c, "`)");
    assert [Group] + p4 == [Group, Lit("` (`"), Group, Lit("`)")];
    RenderGroup(p4, [b, c]);
    assert [b, c][1..] == [c];
  }

  lemma SeqAssoc5<T>(x1: seq<T>, x2: seq<T>, x3: seq<T>, x4: seq<T>, x5: seq<T>)
    ensures x1 + (x2 + (x3 + (x4 + x5))) == x1 + x2 + x3 + x4 + x5
  {
  }

  lemma SeqAssoc3<T>(x1: seq<T>, x2: seq<T>, x3: seq<T>)
    ensures x1 + (x2 + x3) == x1 + x2 + x3
  {
  }

  lemma ForeignKeyWellFormed()
    ensures WellFormed(ForeignKeyClause)
  {
  }

  lemma SimplePatternsShape(w: string)
    ensures GroupCount(BacktickWord) == 1 && WellFormed(BacktickWord)
    ensures GroupCount(TableHeader) == 1 && WellFormed(TableHeader)
    ensures GroupCount(PrimaryKeyClause) == 1 && WellFormed(PrimaryKeyClause)
    ensures Render(BacktickWord, [w]) == "`" + w + "`"
    ensures Render(TableHeader, [w]) == "TABLE `" + w + "`"
    ensures Render(PrimaryKeyClause, [w]) == "PRIMARY KEY (`" + w + "`)"
  {
    QuotedShape("`", w, "`");
    QuotedShape("TABLE `", w, "`");
    QuotedShape("PRIMARY KEY (`", w, "`)");
  }
}
