/** The string operations the services and the frontend take from Python and JavaScript: leftmost search, split, join,
    replace, and maximal runs (`str.split()` and the word regex both enumerate maximal runs). */
module Text {

  const BLANK_LINE: string := "\n\n"

  predicate OccursAt(s: string, p: string, i: int) {
    0 <= i && i + |p| <= |s| && s[i..i + |p|] == p
  }

  ghost predicate Contains(s: string, p: string) {
    exists i :: OccursAt(s, p, i)
  }

  function FindFrom(s: string, p: string, from: nat): (r: int)
    requires from <= |s|
    ensures r == -1 ==> forall i | from <= i :: !OccursAt(s, p, i)
    ensures r != -1 ==> from <= r && OccursAt(s, p, r) && forall i | from <= i < r :: !OccursAt(s, p, i)
    decreases |s| - from
  {
    if from + |p| > |s| then -1
    else if s[from..from + |p|] == p then from
    else FindFrom(s, p, from + 1)
  }

  /** Leftmost occurrence, or -1. */
  function Find(s: string, p: string): (r: int)
    ensures r == -1 <==> !Contains(s, p)
    ensures r != -1 ==> OccursAt(s, p, r) && forall i | 0 <= i < r :: !OccursAt(s, p, i)
  {
    FindFrom(s, p, 0)
  }

  /** `s.split(sep)`: cut at the leftmost, non-overlapping occurrences. */
  function SplitOn(s: string, sep: string): (parts: seq<string>)
    requires sep != ""
    ensures parts != []
    decreases |s|
  {
    var i := Find(s, sep);
    if i == -1 then [s] else [s[..i]] + SplitOn(s[i + |sep|..], sep)
  }

  /** `sep.join(parts)` */
  function Join(parts: seq<string>, sep: string): string {
    if parts == [] then ""
    else if |parts| == 1 then parts[0]
    else parts[0] + sep + Join(parts[1..], sep)
  }

  /** `s.replace(marker, by)` */
  function Replace(s: string, marker: string, replacement: string): string
    requires marker != ""
  {
    Join(SplitOn(s, marker), replacement)
  }

  function Init(parts: seq<string>): seq<string>
    requires parts != []
  {
    parts[..|parts| - 1]
  }

  function Last(parts: seq<string>): string
    requires parts != []
  {
    parts[|parts| - 1]
  }

  function RunLength(p: char -> bool, s: string): (n: nat)
    ensures n <= |s|
    ensures forall i | 0 <= i < n :: p(s[i])
    ensures n < |s| ==> !p(s[n])
  {
    if s == "" || !p(s[0]) then 0 else 1 + RunLength(p, s[1..])
  }

  /** The maximal runs of characters satisfying `p`, left to right. */
  function Runs(p: char -> bool, s: string): seq<string>
    decreases |s|
  {
    if s == "" then []
    else if !p(s[0]) then Runs(p, s[1..])
    else
      var n := RunLength(p, s);
      [s[..n]] + Runs(p, s[n..])
  }

  predicate StartsWith(s: string, p: string) {
    |p| <= |s| && s[..|p|] == p
  }

  /** Python `str.isspace` for one character. */
  predicate IsSpace(c: char) {
    || '\t' <= c <= '\r'
    || '\U{1c}' <= c <= ' '
    || c == '\U{85}' || c == '\U{a0}' || c == '\U{1680}'
    || '\U{2000}' <= c <= '\U{200a}'
    || c == '\U{2028}' || c == '\U{2029}' || c == '\U{202f}' || c == '\U{205f}' || c == '\U{3000}'
  }

  predicate NotSpace(c: char) {
    !IsSpace(c)
  }

  function TrimStart(space: char -> bool, s: string): (r: string)
    ensures r == "" || !space(r[0])
  {
    s[RunLength(space, s)..]
  }

  function TrimEnd(space: char -> bool, s: string): (r: string)
    ensures |r| <= |s| && r == s[..|r|]
    ensures r == "" || !space(r[|r| - 1])
    ensures forall i | |r| <= i < |s| :: space(s[i])
  {
    if s == "" then s
    else if space(s[|s| - 1]) then TrimEnd(space, s[..|s| - 1])
    else s
  }

  function Trim(space: char -> bool, s: string): string {
    TrimEnd(space, TrimStart(space, s))
  }

  /** Python `str.strip()` */
  function Strip(s: string): string {
    Trim(IsSpace, s)
  }

  // ---------- searching ----------

  lemma SliceOfSlice(s: string, lo: nat, hi: nat, i: nat, j: nat)
    requires lo <= hi <= |s| && i <= j <= hi - lo
    ensures s[lo..hi][i..j] == s[lo + i..lo + j]
  {
    var left, right := s[lo..hi][i..j], s[lo + i..lo + j];
    assert |left| == |right| && forall k | 0 <= k < |left| :: left[k] == right[k];
  }

  lemma ContainsTransitive(s: string, t: string, m: string)
    requires Contains(s, t) && Contains(t, m)
    ensures Contains(s, m)
  {
    var i :| OccursAt(s, t, i);
    var j :| OccursAt(t, m, j);
    SliceOfSlice(s, i, i + |t|, j, j + |m|);
    assert OccursAt(s, m, i + j);
  }

  lemma SliceWithin(s: string, lo: nat, hi: nat)
    requires lo <= hi <= |s|
    ensures Contains(s, s[lo..hi])
  {
    assert OccursAt(s, s[lo..hi], lo);
  }

  lemma SuffixWithin(s: string, lo: nat)
    requires lo <= |s|
    ensures Contains(s, s[lo..])
  {
    SliceWithin(s, lo, |s|);
    assert s[lo..|s|] == s[lo..];
  }

  lemma OccurrenceCovers(s: string, m: string, i: int)
    requires OccursAt(s, m, i)
    ensures forall k | i <= k < i + |m| :: s[k] in m
  {
  }

  /** An occurrence that avoids the character `c` lies wholly on one side of it. */
  lemma ContainsAcross(a: string, c: char, b: string, m: string)
    requires m != "" && c !in m
    requires Contains(a + [c] + b, m)
    ensures Contains(a, m) || Contains(b, m)
  {
    var s := a + [c] + b;
    var i :| OccursAt(s, m, i);
    OccurrenceCovers(s, m, i);
    assert s[|a|] == c;
    if i + |m| <= |a| {
      assert s[i..i + |m|] == a[i..i + |m|];
      assert OccursAt(a, m, i);
    } else if i > |a| {
      assert s[i..i + |m|] == b[i - |a| - 1..i - |a| - 1 + |m|];
      assert OccursAt(b, m, i - |a| - 1);
    } else {
      assert false;
    }
  }

  lemma {:induction false} ContainsInJoin(parts: seq<string>, c: char, m: string)
    requires m != "" && c !in m
    requires Contains(Join(parts, [c]), m)
    ensures exists k :: 0 <= k < |parts| && Contains(parts[k], m)
  {
    if |parts| <= 1 {
    } else {
      var rest := Join(parts[1..], [c]);
      assert Join(parts, [c]) == parts[0] + [c] + rest;
      ContainsAcross(parts[0], c, rest, m);
      if !Contains(parts[0], m) {
        ContainsInJoin(parts[1..], c, m);
        var k :| 0 <= k < |parts[1..]| && Contains(parts[1..][k], m);
        assert Contains(parts[k + 1], m);
      }
    }
  }

  // ---------- split and join ----------

  lemma InitLast(first: string, rest: seq<string>, more: seq<string>)
    requires rest != []
    ensures Init([first] + rest) == [first] + Init(rest) && Last([first] + rest) == Last(rest)
    ensures Init([first] + rest) + more == [first] + (Init(rest) + more)
  {
  }

  lemma JoinCons(first: string, rest: seq<string>, sep: string)
    requires rest != []
    ensures Join([first] + rest, sep) == first + sep + Join(rest, sep)
  {
  }

  /** A first occurrence stays the first one when text is appended. */
  lemma FindInPrefix(a: string, c: string, p: string)
    requires Find(a, p) != -1
    ensures Find(a + c, p) == Find(a, p)
    ensures var i := Find(a, p); (a + c)[..i] == a[..i] && (a + c)[i + |p|..] == a[i + |p|..] + c
  {
    var i := Find(a, p);
    forall j | 0 <= j <= i
      ensures OccursAt(a + c, p, j) == OccursAt(a, p, j)
    {
      assert (a + c)[j..j + |p|] == a[j..j + |p|];
    }
    assert OccursAt(a + c, p, i);
  }

  /** Splitting a longer text refines splitting its prefix: every complete part stays, and only the
      last, open part is split further together with the new text. */
  lemma {:induction false} SplitAppend(a: string, c: string, sep: string)
    requires sep != ""
    ensures SplitOn(a + c, sep) == Init(SplitOn(a, sep)) + SplitOn(Last(SplitOn(a, sep)) + c, sep)
    decreases |a|
  {
    hide Find;
    var i := Find(a, sep);
    if i == -1 {
      assert Init([a]) == [] && Last([a]) == a;
    } else {
      hide Init, Last;
      var rest := a[i + |sep|..];
      FindInPrefix(a, c, sep);
      SplitAppend(rest, c, sep);
      InitLast(a[..i], SplitOn(rest, sep), SplitOn(Last(SplitOn(rest, sep)) + c, sep));
    }
  }

  lemma BeforeFirst(s: string, p: string)
    requires Find(s, p) != -1
    ensures !Contains(s[..Find(s, p)], p) || p == ""
  {
    var i := Find(s, p);
    if p != "" {
      if j :| OccursAt(s[..i], p, j) {
        SliceOfSlice(s, 0, i, j, j + |p|);
        assert OccursAt(s, p, j);
      }
    }
  }

  /** Every part is a piece of the text and holds no separator. */
  lemma {:induction false} SplitParts(s: string, sep: string, part: string)
    requires sep != "" && part in SplitOn(s, sep)
    ensures Contains(s, part) && !Contains(part, sep)
    decreases |s|
  {
    hide Contains, FindFrom;
    var i := Find(s, sep);
    if i == -1 {
      SuffixWithin(s, 0);
      assert s[0..] == s == part;
    } else if part == s[..i] {
      SliceWithin(s, 0, i);
      BeforeFirst(s, sep);
    } else {
      var rest := s[i + |sep|..];
      SplitParts(rest, sep, part);
      SuffixWithin(s, i + |sep|);
      ContainsTransitive(s, rest, part);
    }
  }

  /** A part that, followed by a separator, is cut exactly at its own end. */
  ghost predicate Cuttable(part: string, sep: string) {
    Find(part + sep, sep) == |part|
  }

  lemma SplitFirst(part: string, sep: string, rest: string)
    requires sep != "" && Cuttable(part, sep)
    ensures SplitOn(part + sep + rest, sep) == [part] + SplitOn(rest, sep)
  {
    var s := part + sep + rest;
    var n := |part|;
    forall j | 0 <= j <= n
      ensures OccursAt(s, sep, j) == OccursAt(part + sep, sep, j)
    {
      assert s[j..j + |sep|] == (part + sep)[j..j + |sep|];
    }
    assert OccursAt(s, sep, n);
    assert Find(s, sep) == n;
    assert s[..n] == part && s[n + |sep|..] == rest;
  }

  lemma {:induction false} SplitJoin(parts: seq<string>, sep: string)
    requires sep != "" && parts != []
    requires forall i | 0 <= i < |parts| - 1 :: Cuttable(parts[i], sep)
    requires !Contains(Last(parts), sep)
    ensures SplitOn(Join(parts, sep), sep) == parts
  {
    if |parts| == 1 {
    } else {
      SplitJoin(parts[1..], sep);
      SplitFirst(parts[0], sep, Join(parts[1..], sep));
    }
  }

  /** Joining undoes splitting. */
  lemma {:induction false} JoinSplit(s: string, sep: string)
    requires sep != ""
    ensures Join(SplitOn(s, sep), sep) == s
    decreases |s|
  {
    var i := Find(s, sep);
    if i == -1 {
    } else {
      var rest := s[i + |sep|..];
      JoinSplit(rest, sep);
      JoinCons(s[..i], SplitOn(rest, sep), sep);
      assert s == s[..i] + sep + rest;
    }
  }

  lemma BlankLineAt(s: string, i: int)
    requires OccursAt(s, BLANK_LINE, i)
    ensures s[i] == '\n' && s[i + 1] == '\n'
  {
  }

  /** For the blank-line separator: no separator inside and no trailing newline is enough. */
  lemma CuttableByBlankLine(part: string)
    requires !Contains(part, BLANK_LINE)
    requires part == "" || part[|part| - 1] != '\n'
    ensures Cuttable(part, BLANK_LINE)
  {
    var s := part + BLANK_LINE;
    forall j | 0 <= j < |part|
      ensures !OccursAt(s, BLANK_LINE, j)
    {
      if j + 2 <= |part| {
        assert s[j..j + 2] == part[j..j + 2];
        assert !OccursAt(part, BLANK_LINE, j);
      } else {
        assert s[j..j + 2][0] == part[j];
      }
    }
    assert OccursAt(s, BLANK_LINE, |part|);
  }

  /** For a one-character separator: not occurring inside is enough. */
  lemma CuttableByChar(part: string, c: char)
    requires c !in part
    ensures Cuttable(part, [c])
  {
    var s := part + [c];
    forall j | 0 <= j < |part|
      ensures !OccursAt(s, [c], j)
    {
      assert s[j..j + 1][0] == part[j];
    }
    assert OccursAt(s, [c], |part|);
  }

  lemma NoCharNoOccurrence(s: string, c: char)
    ensures Contains(s, [c]) <==> c in s
  {
    if Contains(s, [c]) {
      var i :| OccursAt(s, [c], i);
      assert s[i] == s[i..i + 1][0];
    }
    if c in s {
      var i :| 0 <= i < |s| && s[i] == c;
      assert s[i..i + 1] == [c];
      assert OccursAt(s, [c], i);
    }
  }

  lemma {:induction false} JoinAppend(a: seq<string>, b: seq<string>, sep: string)
    requires a != [] && b != []
    ensures Join(a + b, sep) == Join(a, sep) + sep + Join(b, sep)
  {
    if |a| == 1 {
      assert (a + b)[1..] == b;
    } else {
      assert (a + b)[1..] == a[1..] + b;
      JoinAppend(a[1..], b, sep);
    }
  }

  // ---------- maximal runs ----------

  /** A character outside the class separates the runs of the text before and after it. */
  lemma {:induction false} RunsSplit(p: char -> bool, a: string, c: char, b: string)
    requires !p(c)
    ensures Runs(p, a + [c] + b) == Runs(p, a) + Runs(p, b)
    decreases |a|
  {
    var s := a + [c] + b;
    if a == "" {
      assert s[1..] == b;
    } else if !p(a[0]) {
      assert s[1..] == a[1..] + [c] + b;
      RunsSplit(p, a[1..], c, b);
    } else {
      hide Runs;
      var n := RunLength(p, a);
      FirstRunSplits(p, a, c, b);
      RunsSplit(p, a[n..], c, b);
      RunsAfterFirst(p, a);
      RunsAfterFirst(p, s);
      assert [a[..n]] + Runs(p, a[n..]) + Runs(p, b) == [a[..n]] + (Runs(p, a[n..]) + Runs(p, b));
    }
  }

  lemma RunsAfterFirst(p: char -> bool, s: string)
    requires s != "" && p(s[0])
    ensures Runs(p, s) == [s[..RunLength(p, s)]] + Runs(p, s[RunLength(p, s)..])
  {
  }

  lemma AppendSlices(a: string, t: string, n: nat)
    requires n <= |a|
    ensures (a + t)[..n] == a[..n] && (a + t)[n..] == a[n..] + t
  {
  }

  lemma Regroup(a: string, b: string, c: string)
    ensures a + b + c == a + (b + c)
  {
  }

  /** What follows a run does not make it longer, if it starts with a separator. */
  lemma RunEnds(p: char -> bool, a: string, t: string)
    requires t != "" && !p(t[0])
    ensures RunLength(p, a + t) == RunLength(p, a)
  {
    var n := RunLength(p, a);
    assert forall i | 0 <= i < n :: (a + t)[i] == a[i];
    assert (a + t)[n] == if n < |a| then a[n] else t[0];
    RunLengthIs(p, a + t, n);
  }

  lemma FirstRunSplits(p: char -> bool, a: string, c: char, b: string)
    requires a != "" && p(a[0]) && !p(c)
    ensures
      var n, s := RunLength(p, a), a + [c] + b;
      0 < n == RunLength(p, s) && s[..n] == a[..n] && s[n..] == a[n..] + [c] + b
  {
    var n, t := RunLength(p, a), [c] + b;
    Regroup(a, [c], b);
    Regroup(a[n..], [c], b);
    RunEnds(p, a, t);
    AppendSlices(a, t, n);
  }

  lemma {:induction false} RunLengthIs(p: char -> bool, s: string, n: nat)
    requires n <= |s| && (forall i | 0 <= i < n :: p(s[i])) && (n < |s| ==> !p(s[n]))
    ensures RunLength(p, s) == n
  {
  }

  ghost predicate IsRun(p: char -> bool, word: string) {
    word != "" && forall c | c in word :: p(c)
  }

  /** Every run is a non-empty piece of the text made of class characters only. */
  lemma {:induction false} RunsAreRuns(p: char -> bool, s: string, word: string)
    requires word in Runs(p, s)
    ensures IsRun(p, word) && Contains(s, word)
    decreases |s|
  {
    hide Contains;
    if !p(s[0]) {
      RunsAreRuns(p, s[1..], word);
      SuffixWithin(s, 1);
      ContainsTransitive(s, s[1..], word);
    } else {
      var n := RunLength(p, s);
      if word == s[..n] {
        SliceWithin(s, 0, n);
      } else {
        RunsAreRuns(p, s[n..], word);
        SuffixWithin(s, n);
        ContainsTransitive(s, s[n..], word);
      }
    }
  }

  lemma RunsOfRun(p: char -> bool, word: string)
    requires IsRun(p, word)
    ensures Runs(p, word) == [word]
  {
    RunLengthIs(p, word, |word|);
    assert word[0] in word;
    assert word[|word|..] == "";
    assert word[..|word|] == word;
  }

  // ---------- strip ----------

  lemma StripWithin(s: string)
    ensures Contains(s, Strip(s))
    ensures Strip(s) == "" || (!IsSpace(Strip(s)[0]) && !IsSpace(Last([Strip(s)])[|Strip(s)| - 1]))
    ensures |Strip(s)| <= |s|
  {
    var t := TrimStart(IsSpace, s);
    var k := RunLength(IsSpace, s);
    var r := TrimEnd(IsSpace, t);
    assert r == s[k..k + |r|];
    SliceWithin(s, k, k + |r|);
  }

  /** What stripping keeps is the text between its first and its last character that is not whitespace. */
  lemma StripIs(s: string)
    ensures exists lo, hi :: 0 <= lo <= hi <= |s| && StripsTo(s, lo, hi)
    ensures Strip(s) == "" <==> forall i | 0 <= i < |s| :: IsSpace(s[i])
  {
    var lo := RunLength(IsSpace, s);
    var t := TrimStart(IsSpace, s);
    var r := TrimEnd(IsSpace, t);
    var hi := lo + |r|;
    assert r == s[lo..hi];
    forall i | hi <= i < |s|
      ensures IsSpace(s[i])
    {
      assert s[i] == t[i - lo];
    }
    assert r != "" ==> r[0] == s[lo] && r[|r| - 1] == s[hi - 1];
    assert StripsTo(s, lo, hi);
  }

  ghost predicate StripsTo(s: string, lo: int, hi: int)
    requires 0 <= lo <= hi <= |s|
  {
    && Strip(s) == s[lo..hi]
    && (forall i | 0 <= i < lo || hi <= i < |s| :: IsSpace(s[i]))
    && (lo < hi ==> !IsSpace(s[lo]) && !IsSpace(s[hi - 1]))
  }
}
