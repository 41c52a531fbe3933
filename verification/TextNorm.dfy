/** German-aware term extraction: fold, stem, tokenize, expand by synonyms. */
module TextNorm {
  import opened Prelude
  import opened Text

  /** Suffixes in the order they are tried, each already stripped of blanks. */
  const SUFFIXES: seq<string> := [
    "ungen", "lich", "isch", "keit", "heit", "ende", "ern", "est",
    "en", "er", "es", "em", "et", "st", "e", "s", "n"
  ]

  const STOPWORDS: seq<string> := [
    "der", "die", "das", "und", "oder", "ist", "war", "ein", "eine", "einen", "im", "in", "an", "am",
    "zu", "fuer", "mit", "von", "the", "a", "of", "to", "is", "are", "was"
  ]

  /** Each group is a base term with its variants. */
  const SYNONYM_GROUPS: seq<seq<string>> := [
    ["name", "vorname", "nachname", "heisst", "heisse"],
    ["wohnort", "wohnt", "wohne", "adresse", "stadt", "ort"],
    ["arbeit", "job", "beruf", "arbeitet", "arbeite", "firma", "arbeitgeber"],
    ["sprache", "language", "deutsch", "englisch", "spreche"],
    ["telefon", "handy", "nummer", "mobil", "phone"],
    ["mail", "email", "e-mail", "mailadresse"],
    ["projekt", "project", "vorhaben"],
    ["geburtstag", "geboren", "geburtsdatum", "birthday"],
    ["server", "vps", "host", "maschine"],
    ["passwort", "password", "kennwort", "credentials", "zugang"]
  ]

  /** `[a-z0-9äöüß]` without regard to case. */
  predicate IsWordChar(c: char) {
    || 'a' <= c <= 'z' || 'A' <= c <= 'Z' || '0' <= c <= '9'
    || c in {'\U{e4}', '\U{f6}', '\U{fc}', '\U{df}', '\U{c4}', '\U{d6}', '\U{dc}', '\U{1e9e}'}
  }

  function LowerChar(c: char): char {
    if 'A' <= c <= 'Z' then (c as int + 32) as char
    else if c == '\U{c4}' then '\U{e4}'
    else if c == '\U{d6}' then '\U{f6}'
    else if c == '\U{dc}' then '\U{fc}'
    else if c == '\U{1e9e}' then '\U{df}'
    else c
  }

  function Lower(text: string): string {
    Map(LowerChar, text)
  }

  function FoldChar(c: char): string {
    var l := LowerChar(c);
    if l == '\U{e4}' then "ae"
    else if l == '\U{f6}' then "oe"
    else if l == '\U{fc}' then "ue"
    else if l == '\U{df}' then "ss"
    else [l]
  }

  function Fold(text: string): string {
    FlatMap(FoldChar, text)
  }

  predicate EndsWith(s: string, suffix: string) {
    |suffix| <= |s| && s[|s| - |suffix|..] == suffix
  }

  predicate Strippable(folded: string, suffix: string) {
    |folded| > |suffix| + 2 && EndsWith(folded, suffix)
  }

  function StemBy(folded: string, suffixes: seq<string>): (root: string)
    ensures StartsWith(folded, root) && (|folded| >= 3 ==> |root| >= 3)
    decreases folded, |suffixes|
  {
    if suffixes == [] then folded
    else if Strippable(folded, suffixes[0]) then folded[..|folded| - |suffixes[0]|]
    else StemBy(folded, suffixes[1..])
  }

  function Stem(token: string): string {
    StemBy(Fold(token), SUFFIXES)
  }

  method ComputeStem(token: string) returns (root: string)
    ensures root == Stem(token)
  {
    var folded := Fold(token);
    for i := 0 to |SUFFIXES|
      invariant StemBy(folded, SUFFIXES[i..]) == StemBy(folded, SUFFIXES)
    {
      if Strippable(folded, SUFFIXES[i]) {
        return folded[..|folded| - |SUFFIXES[i]|];
      }
      assert SUFFIXES[i..][1..] == SUFFIXES[i + 1..];
    }
    return folded;
  }

  predicate NotStopword(token: string) {
    token !in STOPWORDS
  }

  function Tokenize(text: string): seq<string> {
    Filter(NotStopword, Map(Fold, Runs(IsWordChar, text)))
  }

  /** Every term sharing a synonym group with `token`. */
  function Variants(token: string): set<string> {
    set group, t | group in SYNONYM_GROUPS && token in group && t in group :: t
  }

  function Expand(token: string): set<string> {
    var folded := Fold(token);
    set t | t in Variants(folded) + {folded} :: Stem(t)
  }

  function QueryTerms(text: string): set<string> {
    UnionMap(Expand, Tokenize(text))
  }

  method ComputeQueryTerms(text: string) returns (terms: set<string>)
    ensures terms == QueryTerms(text)
  {
    hide Expand;
    terms := {};
    var tokens := Tokenize(text);
    for i := 0 to |tokens|
      invariant terms == UnionMap(Expand, tokens[..i])
    {
      assert tokens[..i + 1] == tokens[..i] + [tokens[i]];
      terms := terms + Expand(tokens[i]);
    }
    assert tokens[..|tokens|] == tokens;
  }

  // ---------- properties ----------

  /** Behind the suffix three characters or more remain. */
  ghost predicate Removable(folded: string, suffix: string) {
    |folded| >= |suffix| + 3 && exists root :: folded == root + suffix
  }

  lemma StrippableIff(folded: string, suffix: string)
    ensures Strippable(folded, suffix) <==> Removable(folded, suffix)
    ensures Strippable(folded, suffix) ==> folded == folded[..|folded| - |suffix|] + suffix
  {
    if Strippable(folded, suffix) {
      assert folded == folded[..|folded| - |suffix|] + suffix;
    }
  }

  /** At most one suffix goes: the first of the list that leaves three characters or more. */
  lemma {:induction false} StemStripsFirst(folded: string, suffixes: seq<string>)
    ensures
      var root := StemBy(folded, suffixes);
      || (root == folded && forall s | s in suffixes :: !Removable(folded, s))
      || (exists i :: 0 <= i < |suffixes| && Removable(folded, suffixes[i]) && folded == root + suffixes[i]
                      && forall s | s in suffixes[..i] :: !Removable(folded, s))
    decreases |suffixes|
  {
    hide Strippable, EndsWith, Removable;
    if suffixes == [] {
    } else {
      StrippableIff(folded, suffixes[0]);
      if Strippable(folded, suffixes[0]) {
        assert suffixes[..0] == [];
      } else {
        var rest := suffixes[1..];
        StemStripsFirst(folded, rest);
        if i :| 0 <= i < |rest| && Removable(folded, rest[i]) && folded == StemBy(folded, rest) + rest[i]
                && forall s | s in rest[..i] :: !Removable(folded, s) {
          assert suffixes[i + 1] == rest[i];
          assert suffixes[..i + 1] == [suffixes[0]] + rest[..i];
        }
      }
    }
  }

  // ---------- folding ----------

  lemma FoldAround(a: string, mid: string, b: string)
    ensures Fold(a + mid + b) == Fold(a) + Fold(mid) + Fold(b)
  {
    FlatMapAppend(FoldChar, a + mid, b);
    FlatMapAppend(FoldChar, a, mid);
  }

  lemma FoldOne(c: char)
    ensures Fold([c]) == FoldChar(c)
  {
    assert [c][1..] == [];
    assert FlatMap(FoldChar, [c]) == FoldChar(c) + FlatMap(FoldChar, []);
  }

  lemma FoldTwo(x: char, y: char)
    ensures Fold([x, y]) == FoldChar(x) + FoldChar(y)
  {
    FoldOne(x);
    FoldOne(y);
    FlatMapAppend(FoldChar, [x], [y]);
    assert [x] + [y] == [x, y];
  }

  lemma FoldsAlike(a: string, b: string, c: char, x: char, y: char)
    requires FoldChar(c) == FoldChar(x) + FoldChar(y)
    ensures Fold(a + [c] + b) == Fold(a + [x, y] + b)
  {
    hide Fold, FoldChar;
    FoldAround(a, [c], b);
    FoldAround(a, [x, y], b);
    FoldOne(c);
    FoldTwo(x, y);
  }

  /** Wherever it stands, an umlaut or sharp s folds like its two letters, in either case. */
  lemma FoldTransliterates(a: string, b: string)
    ensures Fold(a + "\U{e4}" + b) == Fold(a + "\U{c4}" + b) == Fold(a + "ae" + b)
    ensures Fold(a + "\U{f6}" + b) == Fold(a + "\U{d6}" + b) == Fold(a + "oe" + b)
    ensures Fold(a + "\U{fc}" + b) == Fold(a + "\U{dc}" + b) == Fold(a + "ue" + b)
    ensures Fold(a + "\U{df}" + b) == Fold(a + "\U{1e9e}" + b) == Fold(a + "ss" + b)
  {
    hide Fold;
    FoldsAlike(a, b, '\U{e4}', 'a', 'e');
    FoldsAlike(a, b, '\U{c4}', 'a', 'e');
    FoldsAlike(a, b, '\U{f6}', 'o', 'e');
    FoldsAlike(a, b, '\U{d6}', 'o', 'e');
    FoldsAlike(a, b, '\U{fc}', 'u', 'e');
    FoldsAlike(a, b, '\U{dc}', 'u', 'e');
    FoldsAlike(a, b, '\U{df}', 's', 's');
    FoldsAlike(a, b, '\U{1e9e}', 's', 's');
  }

  /** Wherever it stands, a capital letter folds like its small one, and any character that is neither that nor an
      umlaut or sharp s stays as it is. */
  lemma FoldLowers(a: string, b: string, c: char)
    ensures 'A' <= c <= 'Z' ==> Fold(a + [c] + b) == Fold(a) + [(c as int - 'A' as int + 'a' as int) as char] + Fold(b)
    ensures !('A' <= c <= 'Z') && c !in "\U{e4}\U{c4}\U{f6}\U{d6}\U{fc}\U{dc}\U{df}\U{1e9e}" ==>
              Fold(a + [c] + b) == Fold(a) + [c] + Fold(b)
  {
    hide Fold;
    FoldAround(a, [c], b);
    FoldOne(c);
  }

  /** Words are made of what folds to the letters a to z and to digits. */
  lemma WordCharIff(c: char)
    ensures IsWordChar(c) <==> forall x | x in Fold([c]) :: 'a' <= x <= 'z' || '0' <= x <= '9'
  {
    FoldOne(c);
    assert FoldChar(c)[0] in FoldChar(c);
  }

  lemma {:induction false} FoldIdempotent(text: string)
    ensures Fold(Fold(text)) == Fold(text)
  {
    if text == "" {
    } else {
      FoldIdempotent(text[1..]);
      FlatMapAppend(FoldChar, FoldChar(text[0]), Fold(text[1..]));
      var c := FoldChar(text[0]);
      if |c| == 1 {
        FoldOne(c[0]);
      } else {
        FoldTwo(c[0], c[1]);
        assert c == [c[0], c[1]];
      }
    }
  }

  // ---------- terms ----------

  /** `u` is the folded word or stands in a synonym group with it. */
  ghost predicate Akin(folded: string, u: string) {
    u == folded || exists group :: group in SYNONYM_GROUPS && folded in group && u in group
  }

  /** The terms of a text are the stems of its folded words that are no stopwords, and of what shares a synonym group
      with one of these. */
  lemma QueryTermsIff(text: string, t: string)
    ensures t in QueryTerms(text) <==>
              exists w, u :: w in Runs(IsWordChar, text) && Fold(w) !in STOPWORDS && Akin(Fold(w), u) && t == Stem(u)
  {
    hide Fold, Stem, Runs, Tokenize, Akin;
    if t in QueryTerms(text) {
      var token :| token in Tokenize(text) && t in Expand(token);
      TokenIsFoldedWord(text, token);
      var w :| w in Runs(IsWordChar, text) && Fold(w) == token;
      FoldIdempotent(w);
      ExpandIff(token, t);
    }
    if w, u :| w in Runs(IsWordChar, text) && Fold(w) !in STOPWORDS && Akin(Fold(w), u) && t == Stem(u) {
      TokenIsFoldedWord(text, Fold(w));
      FoldIdempotent(w);
      ExpandIff(Fold(w), t);
    }
  }

  lemma ExpandIff(token: string, t: string)
    requires Fold(token) == token
    ensures t in Expand(token) <==> exists u :: Akin(token, u) && t == Stem(u)
  {
    hide Fold, Stem;
    forall u
      ensures Akin(token, u) <==> u in Variants(token) + {token}
    {
    }
    hide Akin, Variants;
  }

  /** The terms of two texts joined by any non-word character are the union of their terms. */
  lemma QueryTermsUnion(a: string, c: char, b: string)
    requires !IsWordChar(c)
    ensures QueryTerms(a + [c] + b) == QueryTerms(a) + QueryTerms(b)
  {
    hide Expand, Fold, NotStopword;
    RunsSplit(IsWordChar, a, c, b);
    MapAppend(Fold, Runs(IsWordChar, a), Runs(IsWordChar, b));
    FilterAppend(NotStopword, Map(Fold, Runs(IsWordChar, a)), Map(Fold, Runs(IsWordChar, b)));
  }

  /** The terms of a text depend only on which words occur in it. */
  lemma QueryTermsByWords(a: string, b: string)
    requires forall w :: w in Runs(IsWordChar, a) <==> w in Runs(IsWordChar, b)
    ensures QueryTerms(a) == QueryTerms(b)
  {
    hide Expand, Tokenize, Runs;
    forall t
      ensures t in Tokenize(a) <==> t in Tokenize(b)
    {
      TokenIsFoldedWord(a, t);
      TokenIsFoldedWord(b, t);
    }
  }

  lemma TokenIsFoldedWord(text: string, token: string)
    ensures token in Tokenize(text) <==> NotStopword(token) && exists w :: w in Runs(IsWordChar, text)
                                                                           && Fold(w) == token
  {
    hide Fold, NotStopword, Runs;
    var words := Runs(IsWordChar, text);
    FilterMember(NotStopword, Map(Fold, words), token);
    if w :| w in words && Fold(w) == token {
      var i :| 0 <= i < |words| && words[i] == w;
      assert Map(Fold, words)[i] == token;
    }
    if token in Map(Fold, words) {
      var i :| 0 <= i < |words| && Map(Fold, words)[i] == token;
      assert words[i] in words;
    }
  }

  /** A single letter other than the stopword `a` is its own only term. */
  lemma LetterIsItsTerm(c: char)
    requires 'b' <= c <= 'z'
    ensures QueryTerms([c]) == {[c]}
  {
    RunsOfRun(IsWordChar, [c]);
    LetterFolds(c);
    LetterKept(c);
    LetterExpands(c);
    assert Map(Fold, [[c]]) == [[c]];
    assert [[c]][1..] == [];
    assert Tokenize([c]) == [[c]];
    hide Expand;
    assert QueryTerms([c]) == Expand([c]);
  }

  lemma LetterFolds(c: char)
    requires 'b' <= c <= 'z'
    ensures Fold([c]) == [c]
  {
    assert [c][1..] == [] && FoldChar(c) == [c];
    assert FlatMap(FoldChar, [c]) == FoldChar(c) + FlatMap(FoldChar, []);
  }

  lemma LetterKept(c: char)
    requires 'b' <= c <= 'z'
    ensures NotStopword([c])
  {
    forall w | w in STOPWORDS
      ensures w != [c]
    {
      assert |w| > 1 || w[0] == 'a';
    }
  }

  lemma SynonymsAreWords()
    ensures forall group, t | group in SYNONYM_GROUPS && t in group :: |t| > 1
  {
  }

  lemma {:induction false} ShortStaysWhole(folded: string, suffixes: seq<string>)
    requires |folded| == 1
    ensures StemBy(folded, suffixes) == folded
    decreases |suffixes|
  {
    if suffixes == [] {
    } else {
      ShortStaysWhole(folded, suffixes[1..]);
    }
  }

  lemma LetterExpands(c: char)
    requires 'b' <= c <= 'z'
    ensures Expand([c]) == {[c]}
  {
    SynonymsAreWords();
    LetterFolds(c);
    ShortStaysWhole([c], SUFFIXES);
    assert Variants([c]) == {};
    assert Variants([c]) + {[c]} == {[c]};
  }

  lemma NoTerms()
    ensures QueryTerms("") == {}
  {
  }
}
