/** Single-valued lane resolution and what it does to a lane over a whole history of facts. */
module Conflicts {
  import opened Prelude
  import opened Text
  import opened TextNorm
  import opened Lanes

  datatype Fact = Fact(value: string, source: Source)

  datatype Reason = NoReason | IdenticalValue | IncomingSupersedes | ExistingMoreTrusted

  datatype Resolution = Resolution(conflict: bool, writeIncoming: bool, supersedeExisting: bool, reason: Reason)

  /** `value.strip().lower()` */
  function Normalised(value: string): string {
    Lower(Strip(value))
  }

  /** The same letter in upper and in lower case. */
  predicate IsCapitalOf(x: char, y: char) {
    || ('A' <= x <= 'Z' && y as int == x as int + 32)
    || (x == '\U{c4}' && y == '\U{e4}') || (x == '\U{d6}' && y == '\U{f6}') || (x == '\U{dc}' && y == '\U{fc}')
    || (x == '\U{1e9e}' && y == '\U{df}')
  }

  /** Equal but for whitespace around them and for the case of their letters. */
  predicate SameText(a: string, b: string) {
    var s, t := Strip(a), Strip(b);
    && |s| == |t|
    && forall i | 0 <= i < |s| :: s[i] == t[i] || IsCapitalOf(s[i], t[i]) || IsCapitalOf(t[i], s[i])
  }

  lemma SameTextIff(a: string, b: string)
    ensures Normalised(a) == Normalised(b) <==> SameText(a, b)
  {
    hide Strip;
    var s, t := Strip(a), Strip(b);
    if Lower(s) == Lower(t) {
      forall i | 0 <= i < |s|
        ensures LowerChar(s[i]) == LowerChar(t[i])
      {
        assert Lower(s)[i] == Lower(t)[i];
      }
    }
    if SameText(a, b) {
      forall i | 0 <= i < |s|
        ensures Lower(s)[i] == Lower(t)[i]
      {
      }
    }
  }

  /** `norm` tells which values count as the same; the service passes `Normalised`. */
  function ResolveSingleValued(norm: string -> string, lane: Lane, existing: Option<Fact>, incoming: Fact): Resolution {
    if !PolicyFor(lane).singleValued || existing == None then
      Resolution(false, true, false, NoReason)
    else if norm(existing.value.value) == norm(incoming.value) then
      Resolution(false, false, false, IdenticalValue)
    else if !IsMoreTrusted(existing.value.source, incoming.source) then
      Resolution(true, true, true, IncomingSupersedes)
    else
      Resolution(true, false, false, ExistingMoreTrusted)
  }

  /** A fact is written unless one is held in a single-valued lane that has the same value or is more trusted;
      writing over a held fact supersedes it; and only different values are in conflict. */
  lemma ResolutionIff(norm: string -> string, lane: Lane, existing: Option<Fact>, incoming: Fact)
    ensures
      var r := ResolveSingleValued(norm, lane, existing, incoming);
      var held := (lane == Identity || lane == Authorization) && existing.Some?;
      var same := held && norm(existing.value.value) == norm(incoming.value);
      && (r.writeIncoming <==> !same && !(held && IsMoreTrusted(existing.value.source, incoming.source)))
      && (r.supersedeExisting <==> held && r.writeIncoming)
      && (r.conflict <==> held && !same)
  {
  }

  /** The fact held after one write. */
  function Hold(norm: string -> string, lane: Lane, held: Option<Fact>, incoming: Fact): Fact {
    if held == None || ResolveSingleValued(norm, lane, held, incoming).writeIncoming then incoming else held.value
  }

  /** The fact held after a whole history of writes. */
  function HoldAll(norm: string -> string, lane: Lane, facts: seq<Fact>): Option<Fact> {
    if facts == [] then None
    else Some(Hold(norm, lane, HoldAll(norm, lane, facts[..|facts| - 1]), facts[|facts| - 1]))
  }

  /** The last of the most trusted facts. */
  function LastMostTrusted(facts: seq<Fact>): (k: nat)
    requires facts != []
    ensures k < |facts|
    ensures forall j | 0 <= j < |facts| :: !IsMoreTrusted(facts[j].source, facts[k].source)
    ensures forall j | k < j < |facts| :: IsMoreTrusted(facts[k].source, facts[j].source)
  {
    var n := |facts| - 1;
    if n == 0 then 0
    else
      var k := LastMostTrusted(facts[..n]);
      assert forall j | 0 <= j < n :: facts[..n][j] == facts[j];
      if IsMoreTrusted(facts[k].source, facts[n].source) then k else n
  }

  /** Equal values, up to normalisation, never come from differently trusted sources. */
  ghost predicate ValueFixesSource(norm: string -> string, facts: seq<Fact>) {
    forall i, j | 0 <= i < |facts| && 0 <= j < |facts| && norm(facts[i].value) == norm(facts[j].value) ::
      facts[i].source == facts[j].source
  }

  lemma {:induction false} TrustNeverDrops(norm: string -> string, lane: Lane, facts: seq<Fact>, n: nat)
    requires PolicyFor(lane).singleValued && 0 < n <= |facts|
    ensures HoldAll(norm, lane, facts).Some? && HoldAll(norm, lane, facts[..n]).Some?
    ensures !IsMoreTrusted(HoldAll(norm, lane, facts[..n]).value.source, HoldAll(norm, lane, facts).value.source)
    decreases |facts|
  {
    var before := facts[..|facts| - 1];
    if n < |facts| {
      assert before[..n] == facts[..n];
      TrustNeverDrops(norm, lane, before, n);
    } else {
      assert facts[..n] == facts;
    }
  }

  lemma PrefixFixesSource(norm: string -> string, facts: seq<Fact>, n: nat)
    requires n <= |facts| && ValueFixesSource(norm, facts)
    ensures ValueFixesSource(norm, facts[..n])
  {
  }

  lemma FixedSource(norm: string -> string, facts: seq<Fact>, i: nat, j: nat)
    requires i < |facts| && j < |facts| && ValueFixesSource(norm, facts)
    ensures norm(facts[i].value) == norm(facts[j].value) ==> facts[i].source == facts[j].source
  {
  }

  /** The held fact has the value of the last fact of maximal trust, up to normalisation, and its source. */
  ghost predicate FactBest(norm: string -> string, lane: Lane, facts: seq<Fact>)
    requires facts != []
  {
    ValueBest(norm, lane, facts) && SourceBest(norm, lane, facts)
  }

  /** The held value is, up to normalisation, that of the last fact of maximal trust. */
  ghost predicate ValueBest(norm: string -> string, lane: Lane, facts: seq<Fact>)
    requires facts != []
  {
    var held := HoldAll(norm, lane, facts);
    held.Some? && norm(held.value.value) == norm(facts[LastMostTrusted(facts)].value)
  }

  /** No fact of the history is more trusted than the held one. */
  ghost predicate SourceBest(norm: string -> string, lane: Lane, facts: seq<Fact>)
    requires facts != []
  {
    var held := HoldAll(norm, lane, facts);
    held.Some? && held.value.source == facts[LastMostTrusted(facts)].source
  }

  /** The incoming fact confirms the held value from a better source, which the no-op does not record. */
  predicate LosesConfirmation(norm: string -> string, lane: Lane, before: seq<Fact>, incoming: Fact) {
    var held := HoldAll(norm, lane, before);
    held.Some? && norm(held.value.value) == norm(incoming.value) && IsMoreTrusted(incoming.source, held.value.source)
  }

  /** The incoming fact brings another value and beats the held source, but not the best source seen. */
  predicate DisplacesBest(norm: string -> string, lane: Lane, before: seq<Fact>, incoming: Fact)
    requires before != []
  {
    var held := HoldAll(norm, lane, before);
    && held.Some? && norm(incoming.value) != norm(held.value.value)
    && !IsMoreTrusted(held.value.source, incoming.source)
    && IsMoreTrusted(before[LastMostTrusted(before)].source, incoming.source)
  }

  lemma {:induction false} HeldIsAFact(norm: string -> string, lane: Lane, facts: seq<Fact>)
    requires facts != []
    ensures HoldAll(norm, lane, facts).Some? && HoldAll(norm, lane, facts).value in facts
  {
    var n := |facts| - 1;
    if n == 0 {
      assert facts[..0] == [];
    } else {
      HeldIsAFact(norm, lane, facts[..n]);
    }
  }

  /** One write: the source stays best exactly when no confirmation is lost. */
  lemma SourceStep(norm: string -> string, lane: Lane, before: seq<Fact>, incoming: Fact)
    requires PolicyFor(lane).singleValued && before != [] && SourceBest(norm, lane, before)
    ensures SourceBest(norm, lane, before + [incoming]) <==> !LosesConfirmation(norm, lane, before, incoming)
    ensures ValueBest(norm, lane, before) && SourceBest(norm, lane, before + [incoming]) ==>
        ValueBest(norm, lane, before + [incoming])
  {
    var all := before + [incoming];
    assert all[..|before|] == before;
    assert all[LastMostTrusted(before)] == before[LastMostTrusted(before)];
  }

  /** One write: the value stays the best one exactly when it is not displaced by a less trusted fact. */
  lemma ValueStep(norm: string -> string, lane: Lane, before: seq<Fact>, incoming: Fact)
    requires PolicyFor(lane).singleValued && before != [] && ValueBest(norm, lane, before)
    ensures ValueBest(norm, lane, before + [incoming]) <==> !DisplacesBest(norm, lane, before, incoming)
  {
    var all := before + [incoming];
    HeldIsAFact(norm, lane, before);
    var j :| 0 <= j < |before| && before[j] == HoldAll(norm, lane, before).value;
    assert all[..|before|] == before;
    assert all[LastMostTrusted(before)] == before[LastMostTrusted(before)];
  }

  lemma FirstIsBest(norm: string -> string, lane: Lane, facts: seq<Fact>)
    requires |facts| == 1
    ensures ValueBest(norm, lane, facts) && SourceBest(norm, lane, facts)
  {
    assert facts[..0] == [];
  }

  lemma {:induction false} NothingLostSoBest(norm: string -> string, lane: Lane, facts: seq<Fact>, n: nat)
    requires PolicyFor(lane).singleValued && 0 < n <= |facts|
    requires forall k | 0 < k < |facts| :: !LosesConfirmation(norm, lane, facts[..k], facts[k])
    ensures FactBest(norm, lane, facts[..n])
  {
    hide ValueBest, SourceBest, LosesConfirmation, PolicyFor, HoldAll, LastMostTrusted;
    if n == 1 {
      FirstIsBest(norm, lane, facts[..1]);
    } else {
      var before, incoming := facts[..n - 1], facts[n - 1];
      assert !LosesConfirmation(norm, lane, before, incoming);
      NothingLostSoBest(norm, lane, facts, n - 1);
      assert facts[..n] == before + [incoming];
      SourceStep(norm, lane, before, incoming);
    }
  }

  lemma {:induction false} NotDisplacedSoBest(norm: string -> string, lane: Lane, facts: seq<Fact>, n: nat)
    requires PolicyFor(lane).singleValued && 0 < n <= |facts|
    requires forall k | 0 < k < |facts| :: !DisplacesBest(norm, lane, facts[..k], facts[k])
    ensures ValueBest(norm, lane, facts[..n])
  {
    hide ValueBest, DisplacesBest, PolicyFor, HoldAll, LastMostTrusted;
    if n == 1 {
      FirstIsBest(norm, lane, facts[..1]);
    } else {
      var before, incoming := facts[..n - 1], facts[n - 1];
      assert !DisplacesBest(norm, lane, before, incoming);
      NotDisplacedSoBest(norm, lane, facts, n - 1);
      assert facts[..n] == before + [incoming];
      ValueStep(norm, lane, before, incoming);
    }
  }

  /** Exactly when the best value wins: the held value is that of the last fact of maximal trust after every
      write of a history if and only if no write with another value beats the held source while a better source
      has been seen. */
  lemma BestValueHeldIff(norm: string -> string, lane: Lane, facts: seq<Fact>)
    requires PolicyFor(lane).singleValued
    ensures (forall n | 0 < n <= |facts| :: ValueBest(norm, lane, facts[..n]))
            <==> forall n | 0 < n < |facts| :: !DisplacesBest(norm, lane, facts[..n], facts[n])
  {
    hide ValueBest, DisplacesBest;
    if forall n | 0 < n < |facts| :: !DisplacesBest(norm, lane, facts[..n], facts[n]) {
      forall n | 0 < n <= |facts|
        ensures ValueBest(norm, lane, facts[..n])
      {
        NotDisplacedSoBest(norm, lane, facts, n);
      }
    }
    if forall n | 0 < n <= |facts| :: ValueBest(norm, lane, facts[..n]) {
      forall n | 0 < n < |facts|
        ensures !DisplacesBest(norm, lane, facts[..n], facts[n])
      {
        assert facts[..n + 1] == facts[..n] + [facts[n]];
        ValueStep(norm, lane, facts[..n], facts[n]);
      }
    }
  }

  /** Exactly when the best source is kept with it: the held fact has the value and the source of the last fact
      of maximal trust after every write if and only if no write confirms the held value from a better source;
      and it is the source that such a confirmation spoils. */
  lemma BestFactHeldIff(norm: string -> string, lane: Lane, facts: seq<Fact>)
    requires PolicyFor(lane).singleValued
    ensures (forall n | 0 < n <= |facts| :: FactBest(norm, lane, facts[..n]))
            <==> forall n | 0 < n < |facts| :: !LosesConfirmation(norm, lane, facts[..n], facts[n])
    ensures (forall n | 0 < n <= |facts| :: SourceBest(norm, lane, facts[..n]))
            <==> forall n | 0 < n < |facts| :: !LosesConfirmation(norm, lane, facts[..n], facts[n])
  {
    hide ValueBest, SourceBest, LosesConfirmation;
    if forall n | 0 < n < |facts| :: !LosesConfirmation(norm, lane, facts[..n], facts[n]) {
      forall n | 0 < n <= |facts|
        ensures FactBest(norm, lane, facts[..n])
      {
        NothingLostSoBest(norm, lane, facts, n);
      }
    }
    if forall n | 0 < n <= |facts| :: SourceBest(norm, lane, facts[..n]) {
      forall n | 0 < n < |facts|
        ensures !LosesConfirmation(norm, lane, facts[..n], facts[n])
      {
        assert facts[..n + 1] == facts[..n] + [facts[n]];
        SourceStep(norm, lane, facts[..n], facts[n]);
      }
    }
  }

  /** In particular when equal values always come from equal sources. */
  lemma {:induction false} HeldIsLastMostTrusted(norm: string -> string, lane: Lane, facts: seq<Fact>)
    requires PolicyFor(lane).singleValued && facts != [] && ValueFixesSource(norm, facts)
    ensures FactBest(norm, lane, facts)
  {
    hide ValueFixesSource;
    var n := |facts| - 1;
    if n == 0 {
    } else {
      var before := facts[..n];
      PrefixFixesSource(norm, facts, n);
      HeldIsLastMostTrusted(norm, lane, before);
      var k := LastMostTrusted(before);
      FixedSource(norm, facts, k, n);
    }
  }

  /** Both can fail: an inferred value, confirmed by the user, keeps its inferred source, and is then displaced by
      a conversation source that is less trusted than the confirmation. */
  lemma ConfirmationCanBeLost()
    ensures
      var facts := [Fact("a", Inference), Fact("a", Observation), Fact("b", Conversation)];
      && LastMostTrusted(facts) == 1
      && HoldAll(Normalised, Identity, facts) == Some(Fact("b", Conversation))
  {
    hide Normalised;
    var f0, f1, f2 := Fact("a", Inference), Fact("a", Observation), Fact("b", Conversation);
    var facts := [f0, f1, f2];
    assert facts[..2] == [f0, f1] && facts[..2][..1] == [f0] && [f0][..0] == [];
    assert HoldAll(Normalised, Identity, [f0]) == Some(f0);
    assert HoldAll(Normalised, Identity, [f0, f1]) == Some(f0);
    DistinctLetters();
  }

  lemma DistinctLetters()
    ensures Normalised("a") != Normalised("b")
  {
  }
}
