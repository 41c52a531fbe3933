/** Knowledge for a project turn: paragraph-aligned chunks and their budgeted selection. */
module ProjectContext {
  import opened Prelude
  import opened Text
  import opened Sorting
  import TextNorm

  const KNOWLEDGE_BUDGET: int := 4000
  const CHUNK_CHARS: int := 700

  // ---------- chunking ----------

  predicate NotEmpty(s: string) {
    s != ""
  }

  /** The stripped, non-empty parts between blank lines. */
  function Paragraphs(text: string): seq<string> {
    Filter(NotEmpty, Map(Strip, SplitOn(text, BLANK_LINE)))
  }

  function Size(paragraphs: seq<string>): nat {
    if paragraphs == [] then 0 else Size(paragraphs[..|paragraphs| - 1]) + |paragraphs[|paragraphs| - 1]|
  }

  /** Which paragraphs share a chunk: a new chunk starts when the next paragraph would overflow this one. */
  function GroupFrom(buffer: seq<string>, paragraphs: seq<string>): seq<seq<string>>
    decreases |paragraphs|
  {
    if paragraphs == [] then (if buffer == [] then [] else [buffer])
    else if Size(buffer) > 0 && Size(buffer) + |paragraphs[0]| > CHUNK_CHARS then
      [buffer] + GroupFrom([paragraphs[0]], paragraphs[1..])
    else GroupFrom(buffer + [paragraphs[0]], paragraphs[1..])
  }

  function JoinBlank(paragraphs: seq<string>): string {
    Join(paragraphs, BLANK_LINE)
  }

  function Groups(text: string): seq<seq<string>> {
    GroupFrom([], Paragraphs(text))
  }

  function Chunks(text: string): seq<string> {
    Map(JoinBlank, Groups(text))
  }

  method ChunkText(text: string) returns (chunks: seq<string>)
    ensures chunks == Chunks(text)
  {
    hide Paragraphs, JoinBlank;
    var paragraphs := Paragraphs(text);
    chunks := [];
    var buffer: seq<string> := [];
    var size := 0;
    ghost var groups: seq<seq<string>> := [];
    for i := 0 to |paragraphs|
      invariant size == Size(buffer)
      invariant chunks == Map(JoinBlank, groups)
      invariant groups + GroupFrom(buffer, paragraphs[i..]) == GroupFrom([], paragraphs)
    {
      var paragraph := paragraphs[i];
      assert paragraphs[i..][1..] == paragraphs[i + 1..];
      if size > 0 && size + |paragraph| > CHUNK_CHARS {
        CloseChunk(groups, buffer, GroupFrom([paragraph], paragraphs[i + 1..]));
        chunks := chunks + [JoinBlank(buffer)];
        groups := groups + [buffer];
        buffer := [];
        size := 0;
        assert [] + [paragraph] == [paragraph];
      }
      SizeSnoc(buffer, paragraph);
      buffer := buffer + [paragraph];
      size := size + |paragraph|;
    }
    if buffer != [] {
      CloseChunk(groups, buffer, []);
      chunks := chunks + [JoinBlank(buffer)];
    }
    assert groups + [] == groups;
  }

  lemma CloseChunk(groups: seq<seq<string>>, buffer: seq<string>, rest: seq<seq<string>>)
    ensures Map(JoinBlank, groups + [buffer]) == Map(JoinBlank, groups) + [JoinBlank(buffer)]
    ensures groups + ([buffer] + rest) == groups + [buffer] + rest
  {
  }

  lemma SizeSnoc(buffer: seq<string>, p: string)
    ensures Size(buffer + [p]) == Size(buffer) + |p|
  {
  }

  // ---------- nothing is lost or reordered ----------

  lemma {:induction false} GroupsFlatten(buffer: seq<string>, paragraphs: seq<string>)
    ensures Concat(GroupFrom(buffer, paragraphs)) == buffer + paragraphs
    ensures forall g | g in GroupFrom(buffer, paragraphs) :: g != []
    decreases |paragraphs|
  {
    hide Size;
    if paragraphs == [] {
      assert buffer != [] ==> Concat([buffer]) == buffer + Concat([]) by {
        assert [buffer][1..] == [];
      }
    } else {
      assert paragraphs == [paragraphs[0]] + paragraphs[1..];
      if Size(buffer) > 0 && Size(buffer) + |paragraphs[0]| > CHUNK_CHARS {
        GroupsFlatten([paragraphs[0]], paragraphs[1..]);
        SizeOfNothing();
        var rest := GroupFrom([paragraphs[0]], paragraphs[1..]);
        assert ([buffer] + rest)[1..] == rest;
      } else {
        GroupsFlatten(buffer + [paragraphs[0]], paragraphs[1..]);
      }
    }
  }

  lemma SizeOfNothing()
    ensures Size([]) == 0
  {
  }

  lemma {:induction false} JoinGroups(groups: seq<seq<string>>)
    requires forall g | g in groups :: g != []
    ensures Join(Map(JoinBlank, groups), BLANK_LINE) == Join(Concat(groups), BLANK_LINE)
    ensures groups != [] ==> Concat(groups) != []
  {
    if groups == [] {
    } else {
      var rest := groups[1..];
      assert groups[0] in groups && Concat(groups) == groups[0] + Concat(rest);
      assert forall g | g in rest :: g in groups;
      JoinGroups(rest);
      if rest == [] {
        assert groups[0] + [] == groups[0];
      } else {
        JoinAppend(groups[0], Concat(rest), BLANK_LINE);
        assert Map(JoinBlank, groups) == [JoinBlank(groups[0])] + Map(JoinBlank, rest);
        JoinCons(JoinBlank(groups[0]), Map(JoinBlank, rest), BLANK_LINE);
      }
    }
  }

  /** The chunks joined by blank lines are the paragraphs joined by blank lines. */
  lemma ChunksJoin(text: string)
    ensures Join(Chunks(text), BLANK_LINE) == Join(Paragraphs(text), BLANK_LINE)
  {
    hide Paragraphs, GroupFrom;
    GroupsFlatten([], Paragraphs(text));
    assert [] + Paragraphs(text) == Paragraphs(text);
    JoinGroups(Groups(text));
  }

  /** A paragraph is non-empty, carries no whitespace at its ends and no blank line inside. */
  ghost predicate IsParagraph(p: string) {
    p != "" && !IsSpace(p[0]) && !IsSpace(p[|p| - 1]) && !Contains(p, BLANK_LINE)
  }

  lemma ParagraphsAre(text: string, p: string)
    requires p in Paragraphs(text)
    ensures IsParagraph(p)
  {
    hide Contains, Strip;
    var parts := SplitOn(text, BLANK_LINE);
    FilterMember(NotEmpty, Map(Strip, parts), p);
    var k :| 0 <= k < |parts| && Strip(parts[k]) == p;
    SplitParts(text, BLANK_LINE, parts[k]);
    StripWithin(parts[k]);
    if Contains(p, BLANK_LINE) {
      ContainsTransitive(parts[k], p, BLANK_LINE);
    }
  }

  lemma SplitJoinedParagraphs(paragraphs: seq<string>)
    requires paragraphs != [] && forall p | p in paragraphs :: IsParagraph(p)
    ensures SplitOn(Join(paragraphs, BLANK_LINE), BLANK_LINE) == paragraphs
  {
    hide Contains;
    forall i | 0 <= i < |paragraphs|
      ensures Cuttable(paragraphs[i], BLANK_LINE)
    {
      assert paragraphs[i] in paragraphs;
      CuttableByBlankLine(paragraphs[i]);
    }
    assert Last(paragraphs) in paragraphs;
    SplitJoin(paragraphs, BLANK_LINE);
  }

  lemma {:induction false} StripAll(paragraphs: seq<string>)
    requires forall p | p in paragraphs :: p != "" && Strip(p) == p
    ensures Filter(NotEmpty, Map(Strip, paragraphs)) == paragraphs
  {
    assert Map(Strip, paragraphs) == paragraphs by {
      forall i | 0 <= i < |paragraphs|
        ensures Map(Strip, paragraphs)[i] == paragraphs[i]
      {
        assert paragraphs[i] in paragraphs;
      }
    }
    FilterAll(NotEmpty, paragraphs);
  }

  /** Joining the chunks by blank lines and splitting again gives exactly the paragraphs of the text. */
  lemma ChunksLoseNothing(text: string)
    ensures Paragraphs(text) != [] ==> SplitOn(Join(Chunks(text), BLANK_LINE), BLANK_LINE) == Paragraphs(text)
    ensures Paragraphs(text) == [] ==> Chunks(text) == []
    ensures Paragraphs(Join(Chunks(text), BLANK_LINE)) == Paragraphs(text)
  {
    hide Paragraphs, IsParagraph, Strip, Chunks;
    var ps := Paragraphs(text);
    forall p | p in ps
      ensures IsParagraph(p) && p != "" && Strip(p) == p
    {
      ParagraphsAre(text, p);
      ParagraphFixed(p);
    }
    ChunksJoin(text);
    NoParagraphsNoChunks(text);
    if ps != [] {
      SplitJoinedParagraphs(ps);
      StripAll(ps);
      ParagraphsOf(Join(ps, BLANK_LINE));
    } else {
      ParagraphsOfNothing();
    }
  }

  /** The characters of a text that are not whitespace. */
  function Visible(text: string): string {
    Filter(NotSpace, text)
  }

  lemma VisibleStrip(s: string)
    ensures Visible(Strip(s)) == Visible(s)
  {
    StripIs(s);
    var lo, hi :| 0 <= lo <= hi <= |s| && StripsTo(s, lo, hi);
    hide Filter, Strip;
    VisibleMiddle(s, lo, hi);
  }

  lemma VisibleMiddle(s: string, lo: int, hi: int)
    requires 0 <= lo <= hi <= |s| && forall i | 0 <= i < lo || hi <= i < |s| :: IsSpace(s[i])
    ensures Filter(NotSpace, s) == Filter(NotSpace, s[lo..hi])
  {
    hide Filter, IsSpace;
    var left, mid, right := s[..lo], s[lo..hi], s[hi..];
    assert s == left + mid + right;
    FilterAppend(NotSpace, left + mid, right);
    FilterAppend(NotSpace, left, mid);
    FilterNone(NotSpace, left);
    FilterNone(NotSpace, right);
    assert [] + Filter(NotSpace, mid) == Filter(NotSpace, mid) == Filter(NotSpace, mid) + [];
  }

  lemma {:induction false} VisibleJoin(parts: seq<string>)
    ensures Visible(Join(parts, BLANK_LINE)) == Concat(Map(Visible, parts))
  {
    if parts == [] {
    } else {
      hide Filter;
      var rest := parts[1..];
      assert Map(Visible, parts) == [Visible(parts[0])] + Map(Visible, rest);
      assert Concat(Map(Visible, parts)) == Visible(parts[0]) + Concat(Map(Visible, rest));
      VisibleJoin(rest);
      if rest == [] {
        assert Visible(parts[0]) + [] == Visible(parts[0]);
      } else {
        FilterAppend(NotSpace, parts[0] + BLANK_LINE, Join(rest, BLANK_LINE));
        FilterAppend(NotSpace, parts[0], BLANK_LINE);
        FilterNone(NotSpace, BLANK_LINE);
        assert Visible(parts[0]) + [] == Visible(parts[0]);
      }
    }
  }

  lemma {:induction false} VisibleParagraphs(parts: seq<string>)
    ensures Concat(Map(Visible, Filter(NotEmpty, Map(Strip, parts)))) == Concat(Map(Visible, parts))
  {
    if parts == [] {
    } else {
      hide Strip, Visible;
      var rest, p := parts[1..], Strip(parts[0]);
      VisibleParagraphs(rest);
      VisibleStrip(parts[0]);
      assert Map(Strip, parts) == [p] + Map(Strip, rest)
          && Map(Visible, parts) == [Visible(parts[0])] + Map(Visible, rest);
      assert Concat(Map(Visible, parts)) == Visible(parts[0]) + Concat(Map(Visible, rest));
      var kept := Filter(NotEmpty, Map(Strip, rest));
      if p == "" {
        NothingVisible();
        assert [] + Concat(Map(Visible, rest)) == Concat(Map(Visible, rest));
      } else {
        assert Map(Visible, [p] + kept) == [Visible(p)] + Map(Visible, kept);
        assert ([Visible(p)] + Map(Visible, kept))[1..] == Map(Visible, kept);
      }
    }
  }

  lemma NothingVisible()
    ensures Visible("") == ""
  {
  }

  /** Apart from whitespace, the chunks hold the whole text, in order. */
  lemma ChunksHoldWholeText(text: string)
    ensures Visible(Join(Chunks(text), BLANK_LINE)) == Visible(text)
    ensures Concat(Map(Visible, Chunks(text))) == Visible(text)
  {
    hide Visible, Chunks, Paragraphs, Strip, SplitOn, Join, Filter, Concat, Map;
    var parts := SplitOn(text, BLANK_LINE);
    ChunksJoin(text);
    ParagraphsOf(text);
    VisibleJoin(Chunks(text));
    VisibleJoin(Paragraphs(text));
    VisibleParagraphs(parts);
    VisibleJoin(parts);
    JoinSplit(text, BLANK_LINE);
  }

  lemma ParagraphFixed(p: string)
    requires IsParagraph(p)
    ensures p != "" && Strip(p) == p
  {
  }

  lemma NoParagraphsNoChunks(text: string)
    ensures Paragraphs(text) == [] ==> Chunks(text) == []
  {
  }

  lemma ParagraphsOf(text: string)
    ensures Paragraphs(text) == Filter(NotEmpty, Map(Strip, SplitOn(text, BLANK_LINE)))
  {
  }

  lemma ParagraphsOfNothing()
    ensures Paragraphs(Join([], BLANK_LINE)) == []
  {
  }

  /** Chunking what the chunks make up gives the same chunks. */
  lemma RechunkIsIdentity(text: string)
    ensures Chunks(Join(Chunks(text), BLANK_LINE)) == Chunks(text)
  {
    hide Paragraphs, GroupFrom;
    ChunksLoseNothing(text);
  }

  // ---------- chunk sizes ----------

  /** A chunk is a single paragraph or holds at most 700 paragraph characters; and it was closed only because
      the first paragraph of the next chunk would have overflowed it. */
  ghost predicate WellSized(groups: seq<seq<string>>) {
    && (forall i | 0 <= i < |groups| :: |groups[i]| == 1 || Size(groups[i]) <= 700)
    && (forall i, j | 0 <= i && j == i + 1 < |groups| ::
          groups[j] != [] && Size(groups[i]) + |groups[j][0]| > 700)
  }

  lemma {:induction false} GroupsWellSized(buffer: seq<string>, paragraphs: seq<string>)
    requires forall p | p in paragraphs :: p != ""
    requires buffer == [] || (Size(buffer) > 0 && (|buffer| == 1 || Size(buffer) <= CHUNK_CHARS))
    ensures var groups := GroupFrom(buffer, paragraphs);
            && WellSized(groups)
            && (buffer != [] ==> groups != [] && groups[0] != [] && groups[0][0] == buffer[0])
    decreases |paragraphs|
  {
    hide WellSized;
    if paragraphs == [] {
      LastWellSized(buffer);
    } else {
      var p, rest := paragraphs[0], paragraphs[1..];
      assert p in paragraphs && forall q | q in rest :: q in paragraphs;
      SizeSnoc(buffer, p);
      SizeSnoc([], p);
      assert [] + [p] == [p];
      if Size(buffer) > 0 && Size(buffer) + |p| > CHUNK_CHARS {
        GroupsWellSized([p], rest);
        var groups := GroupFrom([p], rest);
        WellSizedCons(buffer, groups);
      } else {
        GroupsWellSized(buffer + [p], rest);
        assert buffer != [] ==> (buffer + [p])[0] == buffer[0];
      }
    }
  }

  lemma LastWellSized(buffer: seq<string>)
    requires buffer == [] || |buffer| == 1 || Size(buffer) <= CHUNK_CHARS
    ensures WellSized([]) && (buffer != [] ==> WellSized([buffer]))
  {
  }

  lemma WellSizedCons(first: seq<string>, groups: seq<seq<string>>)
    requires WellSized(groups) && (|first| == 1 || Size(first) <= CHUNK_CHARS)
    requires groups != [] && groups[0] != [] && Size(first) + |groups[0][0]| > CHUNK_CHARS
    ensures WellSized([first] + groups)
  {
    hide Size;
    var all := [first] + groups;
    forall i | 0 <= i < |all|
      ensures |all[i]| == 1 || Size(all[i]) <= CHUNK_CHARS
    {
      if i > 0 {
        assert all[i] == groups[i - 1];
      }
    }
    forall i, j | 0 <= i && j == i + 1 < |all|
      ensures all[j] != [] && Size(all[i]) + |all[j][0]| > CHUNK_CHARS
    {
      assert all[j] == groups[j - 1];
      if i > 0 {
        assert all[i] == groups[i - 1];
      }
    }
  }

  lemma ChunksWellSized(text: string)
    ensures WellSized(Groups(text))
  {
    hide Paragraphs, GroupFrom;
    forall p | p in Paragraphs(text)
      ensures p != ""
    {
      ParagraphsAre(text, p);
    }
    GroupsWellSized([], Paragraphs(text));
  }

  // ---------- selection ----------

  datatype File = File(name: string, extractOk: bool, text: string)

  datatype Excerpt = Excerpt(filename: string, text: string, score: real)

  predicate Readable(f: File) {
    f.extractOk && f.text != ""
  }

  function TextLength(f: File): int {
    |f.text|
  }

  /** Term overlap damped by chunk length. `_relevance` scores overlap / sqrt(terms); its square orders the
      chunks the same way and is exact. */
  function RelevanceSquared(terms: set<string>, chunk: string): real {
    var chunkTerms := TextNorm.QueryTerms(chunk);
    var overlap := |terms * chunkTerms|;
    if terms == {} || chunkTerms == {} || overlap == 0 then 0.0
    else (overlap * overlap) as real / |chunkTerms| as real
  }

  function ScorerFor(query: string): string -> real {
    var terms := TextNorm.QueryTerms(query);
    (chunk: string) => RelevanceSquared(terms, chunk)
  }

  function ScoredAt(score: real): Excerpt -> bool {
    (e: Excerpt) => e.score == score
  }

  predicate MoreRelevant(a: Excerpt, b: Excerpt) {
    a.score >= b.score
  }

  function WholeFile(f: File): Excerpt {
    Excerpt(f.name, Strip(f.text), 1.0)
  }

  function ToExcerpt(f: File, score: string -> real): string -> Excerpt {
    (chunk: string) => Excerpt(f.name, chunk, score(chunk))
  }

  function ExcerptsOf(score: string -> real): File -> seq<Excerpt> {
    (f: File) => Map(ToExcerpt(f, score), Chunks(f.text))
  }

  function TotalText(excerpts: seq<Excerpt>): int {
    if excerpts == [] then 0 else TotalText(excerpts[..|excerpts| - 1]) + |excerpts[|excerpts| - 1].text|
  }

  /** Best first, skipping what does not fit what is left of the budget. */
  function Fitting(budget: int, ranked: seq<Excerpt>): seq<Excerpt> {
    if ranked == [] then []
    else
      var n := |ranked| - 1;
      var chosen := Fitting(budget, ranked[..n]);
      if TotalText(chosen) + |ranked[n].text| > budget then chosen else chosen + [ranked[n]]
  }

  function SelectBy(score: string -> real, files: seq<File>): seq<Excerpt> {
    var readable := Filter(Readable, files);
    if readable == [] then []
    else if Sum(Map(TextLength, readable)) <= KNOWLEDGE_BUDGET then Map(WholeFile, readable)
    else Fitting(KNOWLEDGE_BUDGET, Sort(MoreRelevant, FlatMap(ExcerptsOf(score), readable)))
  }

  method SelectKnowledge(files: seq<File>, query: string) returns (selected: seq<Excerpt>)
    ensures selected == SelectBy(ScorerFor(query), files)
  {
    hide ScorerFor, ExcerptsOf, WholeFile, Sort;
    var readable := Filter(Readable, files);
    if readable == [] {
      return [];
    }
    if Sum(Map(TextLength, readable)) <= KNOWLEDGE_BUDGET {
      return Map(WholeFile, readable);
    }
    var ranked := Sort(MoreRelevant, FlatMap(ExcerptsOf(ScorerFor(query)), readable));
    selected := [];
    var used := 0;
    for i := 0 to |ranked|
      invariant selected == Fitting(KNOWLEDGE_BUDGET, ranked[..i])
      invariant used == TotalText(selected)
    {
      assert ranked[..i + 1][..i] == ranked[..i];
      TotalTextSnoc(selected, ranked[i]);
      if used + |ranked[i].text| > KNOWLEDGE_BUDGET {
        continue;
      }
      selected := selected + [ranked[i]];
      used := used + |ranked[i].text|;
    }
    assert ranked[..|ranked|] == ranked;
  }

  lemma TotalTextSnoc(excerpts: seq<Excerpt>, e: Excerpt)
    ensures TotalText(excerpts + [e]) == TotalText(excerpts) + |e.text|
  {
  }

  lemma {:induction false} FittingWithinBudget(budget: int, ranked: seq<Excerpt>)
    requires budget >= 0
    ensures TotalText(Fitting(budget, ranked)) <= budget
  {
    if ranked == [] {
    } else {
      var n := |ranked| - 1;
      FittingWithinBudget(budget, ranked[..n]);
      TotalTextSnoc(Fitting(budget, ranked[..n]), ranked[n]);
    }
  }

  lemma {:induction false} WholeFilesWithin(files: seq<File>)
    ensures TotalText(Map(WholeFile, files)) <= Sum(Map(TextLength, files))
  {
    hide WholeFile;
    if files == [] {
    } else {
      var front, last := files[..|files| - 1], files[|files| - 1];
      WholeFilesWithin(front);
      assert files == front + [last];
      OneMoreFile(front, last);
    }
  }

  lemma OneMoreFile(front: seq<File>, last: File)
    ensures TotalText(Map(WholeFile, front + [last])) <= TotalText(Map(WholeFile, front)) + |last.text|
    ensures Sum(Map(TextLength, front + [last])) == Sum(Map(TextLength, front)) + |last.text|
  {
    hide TotalText, Strip;
    assert Map(WholeFile, front + [last]) == Map(WholeFile, front) + [WholeFile(last)];
    assert Map(TextLength, front + [last]) == Map(TextLength, front) + [|last.text|];
    TotalTextSnoc(Map(WholeFile, front), WholeFile(last));
    SumAppend(Map(TextLength, front), [|last.text|]);
    assert [|last.text|][1..] == [];
    StripWithin(last.text);
  }

  /** At most 4000 characters of knowledge enter a turn, whichever branch is taken. */
  lemma SelectionWithinBudget(score: string -> real, files: seq<File>)
    ensures TotalText(SelectBy(score, files)) <= KNOWLEDGE_BUDGET
  {
    hide WholeFile, ExcerptsOf, Sort;
    var readable := Filter(Readable, files);
    if readable != [] {
      WholeFilesWithin(readable);
      FittingWithinBudget(KNOWLEDGE_BUDGET, Sort(MoreRelevant, FlatMap(ExcerptsOf(score), readable)));
    }
  }

  lemma {:induction false} FittingIsPrefixwise(budget: int, ranked: seq<Excerpt>, k: nat)
    requires k <= |ranked|
    ensures Fitting(budget, ranked[..k]) <= Fitting(budget, ranked)
    decreases |ranked|
  {
    if k < |ranked| {
      var n := |ranked| - 1;
      assert ranked[..n][..k] == ranked[..k];
      FittingIsPrefixwise(budget, ranked[..n], k);
    } else {
      assert ranked[..k] == ranked;
    }
  }

  /** For a large knowledge base: candidates are taken in order of relevance, document order breaking ties,
      and one is left out exactly when the more relevant ones already taken leave no room for it. */
  lemma LeftOutIffNoRoom(score: string -> real, files: seq<File>, k: nat)
    requires Sum(Map(TextLength, Filter(Readable, files))) > KNOWLEDGE_BUDGET
    requires k < |Sort(MoreRelevant, FlatMap(ExcerptsOf(score), Filter(Readable, files)))|
    ensures
      var ranked := Sort(MoreRelevant, FlatMap(ExcerptsOf(score), Filter(Readable, files)));
      var better := Fitting(KNOWLEDGE_BUDGET, ranked[..k]);
      && Sorted(MoreRelevant, ranked)
      && (forall v: real :: Filter(ScoredAt(v), ranked)
                            == Filter(ScoredAt(v), FlatMap(ExcerptsOf(score), Filter(Readable, files))))
      && Fitting(KNOWLEDGE_BUDGET, ranked[..k + 1])
           == (if TotalText(better) + |ranked[k].text| > KNOWLEDGE_BUDGET then better else better + [ranked[k]])
      && Fitting(KNOWLEDGE_BUDGET, ranked[..k + 1]) <= SelectBy(score, files)
  {
    hide ExcerptsOf, WholeFile;
    var readable := Filter(Readable, files);
    assert readable != [];
    var candidates := FlatMap(ExcerptsOf(score), readable);
    var ranked := Sort(MoreRelevant, candidates);
    SortSorted(MoreRelevant, candidates);
    forall v: real
      ensures Filter(ScoredAt(v), ranked) == Filter(ScoredAt(v), candidates)
    {
      SortStable(ScoredAt(v), MoreRelevant, candidates);
    }
    assert ranked[..k + 1][..k] == ranked[..k];
    FittingIsPrefixwise(KNOWLEDGE_BUDGET, ranked, k + 1);
  }
}
