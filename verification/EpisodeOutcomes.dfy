/** Which messages one indexing run takes, what it asks the embedding model, and what it stores. */
module EpisodeOutcomes {
  import opened Prelude
  import opened Text
  import opened Sorting
  import opened Conversation
  import opened EpisodeIndex

  // ---------- the messages taken ----------

  /** The message is the user's and no episode refers to its place in its conversation. */
  ghost predicate Waiting<V>(episodes: seq<Episode<V>>, user: nat, m: Message) {
    m.user == user
    && forall k | 0 <= k < |episodes| :: episodes[k].conversation != m.conversation || episodes[k].turnIndex != m.seqNo
  }

  lemma WaitingIff<V>(episodes: seq<Episode<V>>, user: nat, m: Message)
    ensures Waiting(episodes, user, m) <==> NeedsEpisode(episodes, user)(m)
  {
    if HasEpisode(episodes, m) {
      var i :| 0 <= i < |episodes| && EpisodeKey(episodes[i]) == KeyOf(m);
    }
    if k :| 0 <= k < |episodes| && episodes[k].conversation == m.conversation && episodes[k].turnIndex == m.seqNo {
      assert EpisodeKey(episodes[k]) in EpisodeKeys(episodes);
    }
  }

  lemma EarlierTotal()
    ensures TotalPreorder(Earlier)
  {
  }

  /** A run takes waiting messages only, each once, from the oldest on, at most `limit`; and one is left for a later run
      only when the limit is used up by messages that are at least as old. */
  lemma OldestAreTaken<V>(messages: seq<Message>, episodes: seq<Episode<V>>, user: nat, limit: nat, m: Message)
    requires NumberedFrom1(messages)
    ensures
      var todo := Unindexed(messages, episodes, user, limit);
      && |todo| <= limit
      && (forall a, b | 0 <= a < b < |todo| :: todo[a].createdAt <= todo[b].createdAt && todo[a].id != todo[b].id)
      && (m in todo ==> m in messages && Waiting(episodes, user, m))
      && (m in messages && Waiting(episodes, user, m) && m !in todo ==>
            |todo| == limit && forall x | x in todo :: x.createdAt <= m.createdAt)
  {
    hide NumberedFrom1, Sort, NeedsEpisode, Waiting, HasEpisode;
    var backlog := Backlog(messages, episodes, user);
    var sorted, todo := Sort(Earlier, backlog), Unindexed(messages, episodes, user, limit);
    EarlierTotal();
    SortSorted(Earlier, backlog);
    UnindexedIsPrefix(messages, episodes, user, limit);
    TodoIsDistinct(messages, episodes, user, limit);
    assert forall a, b | 0 <= a < b < |todo| :: Earlier(sorted[a], sorted[b]) && IdOf(todo[a]) != IdOf(todo[b]);
    SortMember(Earlier, backlog, m);
    FilterMember(NeedsEpisode(episodes, user), messages, m);
    WaitingIff(episodes, user, m);
    if m in sorted && m !in todo {
      LeftIsNoOlder(sorted, |todo|, m);
    }
  }

  lemma LeftIsNoOlder(sorted: seq<Message>, n: nat, m: Message)
    requires n <= |sorted| && Sorted(Earlier, sorted) && m in sorted && m !in sorted[..n]
    ensures n < |sorted| && forall x | x in sorted[..n] :: x.createdAt <= m.createdAt
  {
    var k :| 0 <= k < |sorted| && sorted[k] == m;
    assert forall l | 0 <= l < n :: sorted[l] in sorted[..n];
    forall x | x in sorted[..n]
      ensures x.createdAt <= m.createdAt
    {
      var l :| 0 <= l < n && sorted[l] == x;
      assert Earlier(sorted[l], sorted[k]);
    }
  }

  // ---------- what the model is asked ----------

  /** What the model gets of a message: its stripped text, cut to 4000 characters. */
  function AskedText(m: Message): string {
    if |Strip(m.content)| <= 4000 then Strip(m.content) else Strip(m.content)[..4000]
  }

  function BatchAt(messages: seq<Message>, at: nat): seq<Message>
    requires at <= |messages|
  {
    if at + 16 <= |messages| then messages[at..at + 16] else messages[at..]
  }

  function AnswerAt<V>(embed: Embedder<V>, messages: seq<Message>, at: nat): Option<seq<V>>
    requires at <= |messages|
  {
    embed(Map(AskedText, BatchAt(messages, at)))
  }

  ghost predicate Answered<V>(embed: Embedder<V>, messages: seq<Message>, at: nat)
    requires at <= |messages|
  {
    AnswerAt(embed, messages, at).Some? && |AnswerAt(embed, messages, at).value| == |BatchAt(messages, at)|
  }

  /** Where a batch begins. */
  predicate BatchStart(messages: seq<Message>, from: nat, at: int) {
    from <= at < |messages| && at % 16 == 0
  }

  ghost predicate FirstSilent<V>(embed: Embedder<V>, messages: seq<Message>, from: nat, at: int) {
    && BatchStart(messages, from, at) && AnswerAt(embed, messages, at) == None
    && forall b | BatchStart(messages, from, b) && b < at :: Answered(embed, messages, b)
  }

  lemma SameText()
    ensures forall m :: AskedText(m) == EmbeddedText(m)
  {
    hide Strip;
  }

  lemma OneBatch<V>(embed: Embedder<V>, done: map<nat, V>, messages: seq<Message>, from: nat)
    requires from < |messages|
    ensures
      var batch, answer := BatchAt(messages, from), AnswerAt(embed, messages, from);
      && 0 < |batch| && from + |batch| <= |messages|
      && (Answered(embed, messages, from) <==> answer.Some? && |answer.value| == |batch|)
      && (from % 16 == 0 ==> from + |batch| == |messages|
                                                                             || (from + |batch|) % 16 == 0)
      && (answer == None ==> EmbedFrom(embed, done, messages[from..]) == Unreachable)
      && (answer.Some? && |answer.value| != |batch| ==> EmbedFrom(embed, done, messages[from..]) == Mismatch)
      && (Answered(embed, messages, from) ==>
            EmbedFrom(embed, done, messages[from..])
              == EmbedFrom(embed, done + Zip(batch, answer.value), messages[from + |batch|..]))
  {
    hide Zip, AskedText, EmbeddedText;
    var rest, batch := messages[from..], BatchAt(messages, from);
    SameText();
    assert FirstBatch(rest) == batch && rest[|batch|..] == messages[from + |batch|..];
    forall k | 0 <= k < |batch|
      ensures Map(AskedText, batch)[k] == Map(EmbeddedText, batch)[k]
    {
    }
    assert Map(AskedText, batch) == Map(EmbeddedText, batch);
    EmbedUnfold(embed, done, rest);
  }

  /** The model is asked for sixteen texts at a time. The embedding succeeds exactly when every batch is answered
      with one vector per text, and is given up as unreachable exactly when some batch goes unanswered after all
      before it were answered. */
  lemma {:induction false} EmbedByBatches<V>(embed: Embedder<V>, done: map<nat, V>, messages: seq<Message>, from: nat)
    requires from == |messages| || (from < |messages| && from % 16 == 0)
    ensures
      var r := EmbedFrom(embed, done, messages[from..]);
      && (r.Vectors? <==> AllAnswered(embed, messages, from))
      && (r.Unreachable? <==> exists at :: FirstSilent(embed, messages, from, at))
    decreases |messages| - from
  {
    hide *;
    if from == |messages| {
      NothingToAsk(embed, done, messages);
    } else {
      OneBatch(embed, done, messages, from);
      var next := from + |BatchAt(messages, from)|;
      NextStart(messages, from, next);
      if Answered(embed, messages, from) {
        var more := done + Zip(BatchAt(messages, from), AnswerAt(embed, messages, from).value);
        EmbedByBatches(embed, more, messages, next);
        AllLater(embed, messages, from, next);
        SilentLater(embed, messages, from, next);
      } else {
        SilentNow(embed, messages, from);
      }
    }
  }

  lemma NothingToAsk<V>(embed: Embedder<V>, done: map<nat, V>, messages: seq<Message>)
    ensures EmbedFrom(embed, done, messages[|messages|..]) == Vectors(done)
    ensures AllAnswered(embed, messages, |messages|) && !exists at :: FirstSilent(embed, messages, |messages|, at)
  {
  }

  ghost predicate AllAnswered<V>(embed: Embedder<V>, messages: seq<Message>, from: nat) {
    forall at | BatchStart(messages, from, at) :: Answered(embed, messages, at)
  }

  lemma AllLater<V>(embed: Embedder<V>, messages: seq<Message>, from: nat, next: nat)
    requires from < |messages| && Answered(embed, messages, from)
    requires forall at :: BatchStart(messages, from, at) <==> at == from || BatchStart(messages, next, at)
    ensures AllAnswered(embed, messages, from) <==> AllAnswered(embed, messages, next)
  {
    hide Answered, BatchStart;
    hide AnswerAt;
    assert forall at | BatchStart(messages, next, at) :: BatchStart(messages, from, at);
  }

  lemma NextStart(messages: seq<Message>, from: nat, next: nat)
    requires from < |messages| && from % 16 == 0 && next == from + |BatchAt(messages, from)|
    ensures next == |messages| || (next < |messages| && next % 16 == 0)
    ensures forall at :: BatchStart(messages, from, at) <==> at == from || BatchStart(messages, next, at)
  {
    assert next == from + 16 || next == |messages|;
  }

  lemma AnsweredNotSilent<V>(embed: Embedder<V>, messages: seq<Message>, at: nat)
    requires at <= |messages| && Answered(embed, messages, at)
    ensures AnswerAt(embed, messages, at) != None
  {
  }

  lemma SilentLater<V>(embed: Embedder<V>, messages: seq<Message>, from: nat, next: nat)
    requires from < next && from < |messages| && Answered(embed, messages, from)
    requires forall at :: BatchStart(messages, from, at) <==> at == from || BatchStart(messages, next, at)
    ensures (exists at :: FirstSilent(embed, messages, from, at))
            <==> exists at :: FirstSilent(embed, messages, next, at)
  {
    hide AnswerAt;
    AnsweredNotSilent(embed, messages, from);
    hide Answered, BatchStart;
    if at :| FirstSilent(embed, messages, from, at) {
      assert FirstSilent(embed, messages, next, at);
    }
    if at :| FirstSilent(embed, messages, next, at) {
      assert FirstSilent(embed, messages, from, at);
    }
  }

  lemma SilentNow<V>(embed: Embedder<V>, messages: seq<Message>, from: nat)
    requires from < |messages| && from % 16 == 0 && !Answered(embed, messages, from)
    ensures !AllAnswered(embed, messages, from)
    ensures (exists at :: FirstSilent(embed, messages, from, at)) <==> AnswerAt(embed, messages, from) == None
  {
    hide BatchAt, AnswerAt;
    assert BatchStart(messages, from, from);
    if AnswerAt(embed, messages, from) == None {
      assert FirstSilent(embed, messages, from, from);
    }
    if at :| FirstSilent(embed, messages, from, at) {
      assert at <= from;
    }
  }

  // ---------- what is stored ----------

  /** Long enough to embed: twenty-five characters. */
  predicate LongEnough(m: Message) {
    |Strip(m.content)| >= 25
  }

  /** With a model that embeds each text on its own, a run stores one episode behind the others for each message taken,
      in order, with its conversation, number, user and content, and with the vector of its own text exactly when it is
      long enough; and reports how many it took, embedded and skipped. */
  lemma RunOutcome<V>(embed: Embedder<V>, f: string -> V, messages: seq<Message>, episodes: seq<Episode<V>>, user: nat,
                      limit: nat)
    requires NumberedFrom1(messages) && forall texts :: embed(texts) == Some(Map(f, texts))
    ensures
      var todo := Unindexed(messages, episodes, user, limit);
      var (after, outcome) := IndexUser(embed, messages, episodes, user, limit);
      && |after| == |episodes| + |todo| && after[..|episodes|] == episodes
      && (forall i | 0 <= i < |todo| ::
            after[|episodes| + i]
              == Episode(todo[i].conversation, todo[i].seqNo, todo[i].user, todo[i].content,
                         if LongEnough(todo[i]) then Some(f(AskedText(todo[i]))) else None))
      && outcome == Indexed(Counts(|todo|, Count(LongEnough, todo), |todo| - Count(LongEnough, todo)))
  {
    hide NumberedFrom1, Unindexed, IndexUser, AskedText, EmbeddedText, Strip, Count;
    var todo := Unindexed(messages, episodes, user, limit);
    assert Pointwise(embed, f);
    EpisodesGetOwnVectors(embed, f, messages, episodes, user, limit);
    SameText();
    PointwiseCounts(embed, f, messages, episodes, user, limit);
  }

  lemma PointwiseCounts<V>(embed: Embedder<V>, f: string -> V, messages: seq<Message>, episodes: seq<Episode<V>>,
                           user: nat, limit: nat)
    requires NumberedFrom1(messages) && Pointwise(embed, f)
    ensures
      var todo := Unindexed(messages, episodes, user, limit);
      IndexUser(embed, messages, episodes, user, limit).1
        == Indexed(Counts(|todo|, Count(LongEnough, todo), |todo| - Count(LongEnough, todo)))
  {
    hide NumberedFrom1, Unindexed, EmbeddedText, Strip, EmbedFrom, DistinctBy, Pointwise, Ids;
    var todo := Unindexed(messages, episodes, user, limit);
    var none: map<nat, V> := map[];
    TodoIsDistinct(messages, episodes, user, limit);
    DistinctByFilter(IdOf, Embeddable, todo);
    BatchingIsPointwise(embed, f, none, Filter(Embeddable, todo));
    EmbedCoversAll(embed, none, Filter(Embeddable, todo));
    FilterCongruent(Embeddable, LongEnough, todo);
  }
}
