/** Which knowledge enters a project turn, in terms of the files, their chunks and the places these have. */
module KnowledgeSelection {
  import opened Prelude
  import opened Text
  import opened Sorting
  import opened ProjectContext
  import TextNorm

  // ---------- small knowledge bases ----------

  predicate HasText(f: File) {
    f.extractOk && f.text != ""
  }

  function ReadableChars(f: File): int {
    if HasText(f) then |f.text| else 0
  }

  lemma {:induction false} ReadableTotal(files: seq<File>)
    ensures Sum(Map(ReadableChars, files)) == Sum(Map(TextLength, Filter(Readable, files)))
  {
    if files == [] {
    } else {
      ReadableTotal(files[1..]);
      assert files == [files[0]] + files[1..];
    }
  }

  /** The selection is every readable file, whole: one excerpt per file with text, in order, with the file's name and
      its stripped text. */
  ghost predicate WholeFiles(files: seq<File>, selected: seq<Excerpt>, picks: seq<nat>) {
    && Selects(HasText, files, picks) && |selected| == |picks|
    && forall k | 0 <= k < |picks| ::
         picks[k] < |files| && selected[k].filename == files[picks[k]].name
         && selected[k].text == Strip(files[picks[k]].text)
  }

  /** When the texts of all readable files fit the budget together, nothing is lost: every one of them is selected
      whole, and nothing else. */
  lemma SmallBasesEnterWhole(score: string -> real, files: seq<File>)
    requires Sum(Map(ReadableChars, files)) <= 4000
    ensures exists picks :: WholeFiles(files, SelectBy(score, files), picks)
  {
    hide Sum, Strip, Sort, ExcerptsOf;
    ReadableTotal(files);
    FilterCongruent(HasText, Readable, files);
    var picks := FilterSelects(HasText, files);
    assert WholeFiles(files, SelectBy(score, files), picks);
  }

  // ---------- places in the knowledge base ----------

  /** The chunk `chunk` of the file `file`. */
  datatype Place = Place(file: int, chunk: int)

  predicate IsPlace(files: seq<File>, p: Place) {
    0 <= p.file < |files| && HasText(files[p.file]) && 0 <= p.chunk < |Chunks(files[p.file].text)|
  }

  function TextAt(files: seq<File>, p: Place): string {
    if IsPlace(files, p) then Chunks(files[p.file].text)[p.chunk] else ""
  }

  function ExcerptAt(score: string -> real, files: seq<File>): Place -> Excerpt {
    (p: Place) =>
      Excerpt(if IsPlace(files, p) then files[p.file].name else "", TextAt(files, p), score(TextAt(files, p)))
  }

  predicate Above(p: Place, q: Place) {
    p.file < q.file || (p.file == q.file && p.chunk < q.chunk)
  }

  /** A chunk comes before another when it scores higher, or the same and stands above it. */
  predicate Before(score: string -> real, files: seq<File>, p: Place, q: Place) {
    var a, b := score(TextAt(files, p)), score(TextAt(files, q));
    a > b || (a == b && Above(p, q))
  }

  function PlacesIn(files: seq<File>, n: nat): seq<Place>
    requires n < |files|
  {
    if HasText(files[n]) then seq(|Chunks(files[n].text)|, c => Place(n, c)) else []
  }

  function Places(files: seq<File>, n: nat): seq<Place>
    requires n <= |files|
  {
    if n == 0 then [] else Places(files, n - 1) + PlacesIn(files, n - 1)
  }

  ghost predicate InDocumentOrder(places: seq<Place>) {
    forall i, j | 0 <= i < j < |places| :: Above(places[i], places[j])
  }

  lemma {:induction false} PlacesAre(files: seq<File>, n: nat)
    requires n <= |files|
    ensures InDocumentOrder(Places(files, n))
    ensures forall p :: p in Places(files, n) <==> IsPlace(files, p) && p.file < n
  {
    if n == 0 {
    } else {
      PlacesAre(files, n - 1);
      PlacesInAre(files, n - 1);
      OrderAppend(Places(files, n - 1), PlacesIn(files, n - 1), n - 1);
      hide PlacesIn, IsPlace;
    }
  }

  lemma PlacesInAre(files: seq<File>, n: nat)
    requires n < |files|
    ensures InDocumentOrder(PlacesIn(files, n))
    ensures forall p :: p in PlacesIn(files, n) <==> IsPlace(files, p) && p.file == n
  {
    hide Chunks;
    var places := PlacesIn(files, n);
    forall p
      ensures p in places <==> IsPlace(files, p) && p.file == n
    {
      if IsPlace(files, p) && p.file == n {
        assert places[p.chunk] == p;
      }
    }
  }

  lemma OrderAppend(front: seq<Place>, last: seq<Place>, n: int)
    requires InDocumentOrder(front) && InDocumentOrder(last)
    requires (forall p | p in front :: p.file < n) && (forall p | p in last :: p.file == n)
    ensures InDocumentOrder(front + last)
  {
    forall i, j | 0 <= i < j < |front + last|
      ensures Above((front + last)[i], (front + last)[j])
    {
      if i < |front| {
        assert front[i] in front;
      }
      if j >= |front| {
        assert last[j - |front|] in last;
      }
    }
  }

  lemma {:induction false} CandidatesAreAtPlaces(score: string -> real, files: seq<File>, n: nat)
    requires n <= |files|
    ensures Map(ExcerptAt(score, files), Places(files, n)) == FlatMap(ExcerptsOf(score), Filter(Readable, files[..n]))
  {
    hide Chunks, ExcerptAt, ExcerptsOf, PlacesIn;
    if n == 0 {
    } else {
      var at, f := ExcerptAt(score, files), files[n - 1];
      CandidatesAreAtPlaces(score, files, n - 1);
      assert files[..n] == files[..n - 1] + [f];
      FilterAppend(Readable, files[..n - 1], [f]);
      assert [f][1..] == [];
      MapAppend(at, Places(files, n - 1), PlacesIn(files, n - 1));
      var front := Filter(Readable, files[..n - 1]);
      if HasText(f) {
        assert Filter(Readable, [f]) == [f] && Filter(Readable, files[..n]) == front + [f];
        FlatMapSnoc(ExcerptsOf(score), front, f);
        FileAtPlaces(score, files, n - 1);
      } else {
        NoPlacesIn(files, n - 1);
        assert front + [] == front && Places(files, n - 1) + [] == Places(files, n - 1);
      }
    }
  }

  lemma NoPlacesIn(files: seq<File>, n: nat)
    requires n < |files| && !HasText(files[n])
    ensures PlacesIn(files, n) == []
  {
  }

  lemma FileAtPlaces(score: string -> real, files: seq<File>, n: nat)
    requires n < |files| && HasText(files[n])
    ensures Map(ExcerptAt(score, files), PlacesIn(files, n)) == ExcerptsOf(score)(files[n])
  {
    hide Chunks;
    var at, places, chunks := ExcerptAt(score, files), PlacesIn(files, n), Chunks(files[n].text);
    forall c | 0 <= c < |chunks|
      ensures Map(at, places)[c] == Excerpt(files[n].name, chunks[c], score(chunks[c]))
    {
      assert places[c] == Place(n, c) && IsPlace(files, places[c]);
      assert TextAt(files, places[c]) == chunks[c];
    }
  }

  // ---------- ranking the places ----------

  function Under<A, B>(le: (B, B) -> bool, f: A -> B): (A, A) -> bool {
    (a: A, b: A) => le(f(a), f(b))
  }

  lemma {:induction false} InsertMap<A, B>(le: (B, B) -> bool, f: A -> B, x: A, s: seq<A>)
    ensures Map(f, Insert(Under(le, f), x, s)) == Insert(le, f(x), Map(f, s))
  {
    if s == [] {
    } else {
      InsertMap(le, f, x, s[1..]);
      assert Map(f, s)[1..] == Map(f, s[1..]);
    }
  }

  /** Sorting by a key and mapping commute. */
  lemma {:induction false} SortMap<A, B>(le: (B, B) -> bool, f: A -> B, s: seq<A>)
    ensures Map(f, Sort(Under(le, f), s)) == Sort(le, Map(f, s))
  {
    if s == [] {
    } else {
      SortMap(le, f, s[1..]);
      InsertMap(le, f, s[0], Sort(Under(le, f), s[1..]));
    }
  }

  function ByScore(score: string -> real, files: seq<File>): (Place, Place) -> bool {
    Under(MoreRelevant, ExcerptAt(score, files))
  }

  lemma ByScoreIff(score: string -> real, files: seq<File>, p: Place, q: Place)
    ensures ByScore(score, files)(p, q) <==> score(TextAt(files, p)) >= score(TextAt(files, q))
  {
    hide TextAt;
    var at := ExcerptAt(score, files);
    assert at(p).score == score(TextAt(files, p)) && at(q).score == score(TextAt(files, q));
    assert ByScore(score, files)(p, q) == MoreRelevant(at(p), at(q));
  }

  ghost predicate Ranked(score: string -> real, files: seq<File>, places: seq<Place>) {
    forall i, j | 0 <= i < j < |places| :: Before(score, files, places[i], places[j])
  }

  lemma {:induction false} InsertRanked(score: string -> real, files: seq<File>, x: Place, s: seq<Place>)
    requires Ranked(score, files, s) && forall q | q in s :: Above(x, q)
    ensures Ranked(score, files, Insert(ByScore(score, files), x, s))
  {
    var le := ByScore(score, files);
    if s == [] {
    } else {
      ByScoreIff(score, files, x, s[0]);
      if le(x, s[0]) {
        PutFirst(score, files, x, s);
      } else {
        InsertRanked(score, files, x, s[1..]);
        InsertPermutes(le, x, s[1..]);
        hide ByScore;
        PutBehind(score, files, x, s, Insert(le, x, s[1..]));
      }
    }
  }

  lemma PutFirst(score: string -> real, files: seq<File>, x: Place, s: seq<Place>)
    requires Ranked(score, files, s) && s != [] && forall q | q in s :: Above(x, q)
    requires score(TextAt(files, x)) >= score(TextAt(files, s[0]))
    ensures Ranked(score, files, [x] + s)
  {
    hide TextAt;
    var all := [x] + s;
    forall j | 0 < j < |all|
      ensures Before(score, files, x, all[j])
    {
      assert all[j] == s[j - 1] && s[j - 1] in s;
      assert j > 1 ==> Before(score, files, s[0], s[j - 1]);
    }
    hide Before;
    forall i, j | 0 < i < j < |all|
      ensures Before(score, files, all[i], all[j])
    {
      assert all[i] == s[i - 1] && all[j] == s[j - 1];
    }
  }

  lemma PutBehind(score: string -> real, files: seq<File>, x: Place, s: seq<Place>, rest: seq<Place>)
    requires Ranked(score, files, s) && s != [] && Ranked(score, files, rest)
    requires multiset(rest) == multiset{x} + multiset(s[1..]) && score(TextAt(files, x)) < score(TextAt(files, s[0]))
    ensures Ranked(score, files, [s[0]] + rest)
  {
    hide TextAt;
    var all := [s[0]] + rest;
    assert Before(score, files, s[0], x);
    hide Before;
    forall j | 0 <= j < |rest|
      ensures Before(score, files, s[0], rest[j])
    {
      assert rest[j] in multiset(rest);
      if rest[j] != x {
        assert rest[j] in s[1..];
        var k :| 0 <= k < |s[1..]| && s[1..][k] == rest[j];
        assert Before(score, files, s[0], s[k + 1]);
      }
    }
    forall i, j | 0 <= i < j < |all|
      ensures Before(score, files, all[i], all[j])
    {
      assert all[j] == rest[j - 1];
      assert i > 0 ==> all[i] == rest[i - 1];
    }
  }

  lemma {:induction false} SortRanked(score: string -> real, files: seq<File>, s: seq<Place>)
    requires InDocumentOrder(s)
    ensures Ranked(score, files, Sort(ByScore(score, files), s))
  {
    hide Ranked;
    if s == [] {
      assert Ranked(score, files, []) by {
        NothingRanked(score, files);
      }
    } else {
      SortRanked(score, files, s[1..]);
      forall q | q in Sort(ByScore(score, files), s[1..])
        ensures Above(s[0], q)
      {
        SortMember(ByScore(score, files), s[1..], q);
        var k :| 0 <= k < |s[1..]| && s[1..][k] == q;
        assert s[k + 1] == q;
      }
      InsertRanked(score, files, s[0], Sort(ByScore(score, files), s[1..]));
    }
  }

  lemma NothingRanked(score: string -> real, files: seq<File>)
    ensures Ranked(score, files, [])
  {
  }

  // ---------- taking what fits ----------

  function Chars(files: seq<File>): Place -> int {
    (p: Place) => |TextAt(files, p)|
  }

  function FittingPlaces(files: seq<File>, budget: int, ranked: seq<Place>): seq<Place> {
    if ranked == [] then []
    else
      var n := |ranked| - 1;
      var chosen := FittingPlaces(files, budget, ranked[..n]);
      if Sum(Map(Chars(files), chosen)) + |TextAt(files, ranked[n])| > budget then chosen else chosen + [ranked[n]]
  }

  lemma NoTotal()
    ensures TotalText([]) == 0 && Sum([]) == 0
  {
  }

  lemma {:induction false} TotalAtPlaces(score: string -> real, files: seq<File>, chosen: seq<Place>)
    ensures TotalText(Map(ExcerptAt(score, files), chosen)) == Sum(Map(Chars(files), chosen))
  {
    hide TextAt, Sum, TotalText;
    if chosen == [] {
      NoTotal();
    } else {
      var front, last := chosen[..|chosen| - 1], chosen[|chosen| - 1];
      TotalAtPlaces(score, files, front);
      assert chosen == front + [last];
      assert Map(ExcerptAt(score, files), chosen)
          == Map(ExcerptAt(score, files), front) + [ExcerptAt(score, files)(last)];
      TotalTextSnoc(Map(ExcerptAt(score, files), front), ExcerptAt(score, files)(last));
      SumMapSnoc(Chars(files), front, last);
    }
  }

  lemma {:induction false} FittingAtPlaces(score: string -> real, files: seq<File>, budget: int, ranked: seq<Place>)
    ensures Map(ExcerptAt(score, files), FittingPlaces(files, budget, ranked))
         == Fitting(budget, Map(ExcerptAt(score, files), ranked))
  {
    hide TextAt, Sum, TotalText;
    if ranked == [] {
    } else {
      var at, n := ExcerptAt(score, files), |ranked| - 1;
      var chosen := FittingPlaces(files, budget, ranked[..n]);
      FittingAtPlaces(score, files, budget, ranked[..n]);
      assert Map(at, ranked)[..n] == Map(at, ranked[..n]);
      TotalAtPlaces(score, files, chosen);
      assert Map(at, chosen + [ranked[n]]) == Map(at, chosen) + [at(ranked[n])];
    }
  }

  /** Characters of a chunk that comes before `p`. */
  function CharsBefore(score: string -> real, files: seq<File>, p: Place): Place -> int {
    (q: Place) => if Before(score, files, q, p) then |TextAt(files, q)| else 0
  }

  lemma {:induction false} AllBefore(score: string -> real, files: seq<File>, p: Place, chosen: seq<Place>)
    requires forall q | q in chosen :: Before(score, files, q, p)
    ensures Sum(Map(CharsBefore(score, files, p), chosen)) == Sum(Map(Chars(files), chosen))
  {
    hide Before, TextAt, Sum;
    if chosen == [] {
    } else {
      var front, last := chosen[..|chosen| - 1], chosen[|chosen| - 1];
      assert chosen == front + [last] && last in chosen && forall q | q in front :: q in chosen;
      AllBefore(score, files, p, front);
      SumMapSnoc(CharsBefore(score, files, p), front, last);
      SumMapSnoc(Chars(files), front, last);
    }
  }

  lemma {:induction false} FittingMember(files: seq<File>, budget: int, ranked: seq<Place>, p: Place)
    requires p in FittingPlaces(files, budget, ranked)
    ensures p in ranked
  {
    var n := |ranked| - 1;
    if p in FittingPlaces(files, budget, ranked[..n]) {
      FittingMember(files, budget, ranked[..n], p);
    }
  }

  lemma {:induction false} TakenIffRoom(score: string -> real, files: seq<File>, budget: int, ranked: seq<Place>,
                                        k: nat)
    requires k < |ranked| && Ranked(score, files, ranked)
    ensures
      var taken := FittingPlaces(files, budget, ranked);
      ranked[k] in taken <==>
        Sum(Map(CharsBefore(score, files, ranked[k]), taken)) + |TextAt(files, ranked[k])| <= budget
    decreases |ranked|
  {
    hide TextAt, Sum;
    var p, n := ranked[k], |ranked| - 1;
    var chosen, w := FittingPlaces(files, budget, ranked[..n]), CharsBefore(score, files, p);
    SumMapSnoc(w, chosen, ranked[n]);
    if k < n {
      TakenIffRoom(score, files, budget, ranked[..n], k);
      assert Before(score, files, p, ranked[n]);
      assert !Before(score, files, ranked[n], p);
    } else {
      forall q | q in chosen
        ensures Before(score, files, q, p)
      {
        FittingMember(files, budget, ranked[..n], q);
        var i :| 0 <= i < n && ranked[..n][i] == q;
        assert ranked[i] == q;
      }
      AllBefore(score, files, p, chosen);
    }
  }

  lemma {:induction false} FittingRanked(score: string -> real, files: seq<File>, budget: int, ranked: seq<Place>)
    requires Ranked(score, files, ranked)
    ensures Ranked(score, files, FittingPlaces(files, budget, ranked))
  {
    hide Before, TextAt, Sum;
    if ranked == [] {
    } else {
      var n := |ranked| - 1;
      var chosen := FittingPlaces(files, budget, ranked[..n]);
      FittingRanked(score, files, budget, ranked[..n]);
      forall i | 0 <= i < |chosen|
        ensures Before(score, files, chosen[i], ranked[n])
      {
        FittingMember(files, budget, ranked[..n], chosen[i]);
        var k :| 0 <= k < n && ranked[..n][k] == chosen[i];
        assert ranked[k] == chosen[i];
      }
    }
  }

  // ---------- large knowledge bases ----------

  /** `taken` are the places the selection consists of, best first, and a chunk is among them exactly when it fits the
      budget beside those of them that come before it. */
  ghost predicate BestThatFit(score: string -> real, files: seq<File>, selected: seq<Excerpt>, taken: seq<Place>) {
    && |selected| == |taken|
    && (forall k | 0 <= k < |taken| ::
          IsPlace(files, taken[k])
          && selected[k] == Excerpt(files[taken[k].file].name, TextAt(files, taken[k]), score(TextAt(files, taken[k]))))
    && (forall k, l | 0 <= k < l < |taken| :: Before(score, files, taken[k], taken[l]))
    && (forall p | IsPlace(files, p) ::
          p in taken <==> Sum(Map(CharsBefore(score, files, p), taken)) + |TextAt(files, p)| <= 4000)
  }

  /** When the readable files do not fit together, the selection consists of chunks of readable files, each once, by
      falling score and, for equal scores, in document order; and a chunk is left out exactly when it does not fit
      beside the selected ones before it. */
  lemma LargeBasesEnterByRelevance(score: string -> real, files: seq<File>)
    requires Sum(Map(ReadableChars, files)) > 4000
    ensures exists taken :: BestThatFit(score, files, SelectBy(score, files), taken)
  {
    hide *;
    var places := Places(files, |files|);
    var ranked := Sort(ByScore(score, files), places);
    SelectedAtPlaces(score, files);
    PlacesAre(files, |files|);
    SortRanked(score, files, places);
    forall p
      ensures p in ranked <==> IsPlace(files, p)
    {
      SortMember(ByScore(score, files), places, p);
      PlaceBounds(files, p);
    }
    FittingIsBest(score, files, ranked);
  }

  lemma PlaceBounds(files: seq<File>, p: Place)
    ensures IsPlace(files, p) ==> p.file < |files|
  {
  }

  lemma FittingIsBest(score: string -> real, files: seq<File>, ranked: seq<Place>)
    requires Ranked(score, files, ranked) && forall p :: p in ranked <==> IsPlace(files, p)
    ensures var taken := FittingPlaces(files, 4000, ranked);
            BestThatFit(score, files, Map(ExcerptAt(score, files), taken), taken)
  {
    hide FittingPlaces, Sum, Before, TextAt, IsPlace, Chunks;
    var taken := FittingPlaces(files, 4000, ranked);
    FittingRanked(score, files, 4000, ranked);
    forall k | 0 <= k < |taken|
      ensures IsPlace(files, taken[k]) && PlaceIn(files, taken[k])
    {
      FittingMember(files, 4000, ranked, taken[k]);
      PlaceIsIn(files, taken[k]);
    }
    forall p | IsPlace(files, p)
      ensures p in taken <==> Sum(Map(CharsBefore(score, files, p), taken)) + |TextAt(files, p)| <= 4000
    {
      var k :| 0 <= k < |ranked| && ranked[k] == p;
      TakenIffRoom(score, files, 4000, ranked, k);
    }
  }

  predicate PlaceIn(files: seq<File>, p: Place) {
    0 <= p.file < |files|
  }

  lemma PlaceIsIn(files: seq<File>, p: Place)
    requires IsPlace(files, p)
    ensures PlaceIn(files, p)
  {
  }

  lemma SelectedAtPlaces(score: string -> real, files: seq<File>)
    requires Sum(Map(ReadableChars, files)) > 4000
    ensures SelectBy(score, files)
         == Map(ExcerptAt(score, files),
                FittingPlaces(files, 4000, Sort(ByScore(score, files), Places(files, |files|))))
  {
    hide *;
    var at, places := ExcerptAt(score, files), Places(files, |files|);
    LargeSelection(score, files);
    assert files[..|files|] == files;
    CandidatesAreAtPlaces(score, files, |files|);
    SortMap(MoreRelevant, at, places);
    SortedByScore(score, files, places);
    FittingAtPlaces(score, files, 4000, Sort(ByScore(score, files), places));
  }

  lemma SortedByScore(score: string -> real, files: seq<File>, places: seq<Place>)
    ensures Sort(ByScore(score, files), places) == Sort(Under(MoreRelevant, ExcerptAt(score, files)), places)
  {
  }

  lemma LargeSelection(score: string -> real, files: seq<File>)
    requires Sum(Map(ReadableChars, files)) > 4000
    ensures SelectBy(score, files)
         == Fitting(4000, Sort(MoreRelevant, FlatMap(ExcerptsOf(score), Filter(Readable, files))))
  {
    hide Sort, Fitting, FlatMap, ExcerptsOf, WholeFile;
    ReadableTotal(files);
  }

  // ---------- relevance ----------

  function Shared(query: string, chunk: string): nat {
    |TextNorm.QueryTerms(query) * TextNorm.QueryTerms(chunk)|
  }

  function Square(n: nat): nat {
    n * n
  }

  function Times(a: int, b: int): int {
    a * b
  }

  /** A chunk scores above zero exactly when it shares a term with the query; and of two such chunks the one with the
      larger quotient of shared terms and square root of terms scores higher: the squares are compared, crosswise. */
  lemma HigherScoreIff(query: string, a: string, b: string)
    ensures ProjectContext.ScorerFor(query)(a) > 0.0 <==> Shared(query, a) > 0
    ensures ProjectContext.ScorerFor(query)(a) >= 0.0
    ensures Shared(query, a) > 0 && Shared(query, b) > 0 ==>
              (ProjectContext.ScorerFor(query)(a) > ProjectContext.ScorerFor(query)(b) <==>
               Times(Square(Shared(query, a)), |TextNorm.QueryTerms(b)|)
                 > Times(Square(Shared(query, b)), |TextNorm.QueryTerms(a)|))
  {
    hide TextNorm.QueryTerms;
    ScoreIs(query, a);
    ScoreIs(query, b);
    if Shared(query, a) > 0 && Shared(query, b) > 0 {
      CompareQuotients(Square(Shared(query, a)), |TextNorm.QueryTerms(a)|,
                       Square(Shared(query, b)), |TextNorm.QueryTerms(b)|);
    }
  }

  lemma ScoreIs(query: string, chunk: string)
    ensures ProjectContext.ScorerFor(query)(chunk) >= 0.0
    ensures ProjectContext.ScorerFor(query)(chunk) > 0.0 <==> Shared(query, chunk) > 0
    ensures Shared(query, chunk) > 0 ==>
              && |TextNorm.QueryTerms(chunk)| > 0
              && ProjectContext.ScorerFor(query)(chunk)
                   == Square(Shared(query, chunk)) as real / |TextNorm.QueryTerms(chunk)| as real
  {
    hide TextNorm.QueryTerms;
    var terms, own := TextNorm.QueryTerms(query), TextNorm.QueryTerms(chunk);
    if Shared(query, chunk) > 0 {
      var t :| t in terms * own;
      assert |own| > 0 && terms != {};
      SquarePositive(Shared(query, chunk));
      QuotientPositive(Square(Shared(query, chunk)), |own|);
    }
  }

  lemma SquarePositive(n: nat)
    requires n > 0
    ensures Square(n) > 0
  {
  }

  lemma QuotientPositive(x: nat, n: nat)
    requires x > 0 && n > 0
    ensures x as real / n as real > 0.0
  {
  }

  lemma CompareQuotients(x: nat, n: nat, y: nat, m: nat)
    requires n > 0 && m > 0
    ensures x as real / n as real > y as real / m as real <==> Times(x, m) > Times(y, n)
  {
    var q, r := x as real / n as real, y as real / m as real;
    var nr, mr := n as real, m as real;
    assert q * nr == x as real && r * mr == y as real;
    assert (q - r) * (nr * mr) == (q * nr) * mr - (r * mr) * nr;
    assert nr * mr > 0.0;
    SignOfProduct(q - r, nr * mr);
    assert Times(x, m) as real == x as real * mr && Times(y, n) as real == y as real * nr;
  }

  lemma SignOfProduct(d: real, p: real)
    requires p > 0.0
    ensures d * p > 0.0 <==> d > 0.0
  {
  }
}
