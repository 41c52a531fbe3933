/** Indexing chat messages into episodes: batches, retries and exactly one episode per message. */
module EpisodeIndex {
  import opened Prelude
  import opened Text
  import opened Sorting
  import opened Conversation

  const BATCH: nat := 16
  const MAX_CHARS: nat := 4000
  const MIN_CHARS: nat := 25

  /** The embedding model: vectors for a list of texts, or `None` when it is unreachable. */
  type Embedder<!V> = seq<string> -> Option<seq<V>>

  datatype Episode<V> = Episode(conversation: nat, turnIndex: int, user: nat, content: string, embedding: Option<V>)

  /** `Mismatch` is the exception of a strict zip over lists of different length. */
  datatype Embedded<V> = Vectors(byId: map<nat, V>) | Unreachable | Mismatch

  datatype Counts = Counts(messages: nat, embedded: nat, skipped: int)

  datatype Outcome = Indexed(counts: Counts) | Raised

  // ---------- which messages ----------

  /** Position of a message in its conversation, which is how an episode refers to it. */
  function KeyOf(m: Message): (nat, int) {
    (m.conversation, m.seqNo)
  }

  function EpisodeKey<V>(e: Episode<V>): (nat, int) {
    (e.conversation, e.turnIndex)
  }

  function EpisodeKeys<V>(episodes: seq<Episode<V>>): set<(nat, int)> {
    set i | 0 <= i < |episodes| :: EpisodeKey(episodes[i])
  }

  predicate HasEpisode<V>(episodes: seq<Episode<V>>, m: Message) {
    KeyOf(m) in EpisodeKeys(episodes)
  }

  function NeedsEpisode<V>(episodes: seq<Episode<V>>, user: nat): Message -> bool {
    (m: Message) => m.user == user && !HasEpisode(episodes, m)
  }

  predicate Earlier(a: Message, b: Message) {
    a.createdAt <= b.createdAt
  }

  /** The user's messages without an episode. */
  function Backlog<V>(messages: seq<Message>, episodes: seq<Episode<V>>, user: nat): seq<Message> {
    Filter(NeedsEpisode(episodes, user), messages)
  }

  /** Oldest first, at most `limit`. */
  function Unindexed<V>(messages: seq<Message>, episodes: seq<Episode<V>>, user: nat, limit: nat): seq<Message> {
    var rows := Sort(Earlier, Backlog(messages, episodes, user));
    if |rows| <= limit then rows else rows[..limit]
  }

  // ---------- embedding ----------

  predicate Embeddable(m: Message) {
    |Strip(m.content)| >= MIN_CHARS
  }

  function EmbeddedText(m: Message): string {
    var text := Strip(m.content);
    if |text| <= MAX_CHARS then text else text[..MAX_CHARS]
  }

  function Zip<V>(batch: seq<Message>, vectors: seq<V>): (r: map<nat, V>)
    requires |batch| == |vectors|
    decreases |batch|
  {
    if batch == [] then map[]
    else Zip(batch[..|batch| - 1], vectors[..|batch| - 1])[batch[|batch| - 1].id := vectors[|batch| - 1]]
  }

  function FirstBatch(messages: seq<Message>): seq<Message> {
    if |messages| <= BATCH then messages else messages[..BATCH]
  }

  /** The vectors of the whole list, batch by batch, added to those already there. */
  function EmbedFrom<V>(embed: Embedder<V>, done: map<nat, V>, messages: seq<Message>): Embedded<V>
    decreases |messages|
  {
    if messages == [] then Vectors(done)
    else
      var batch := FirstBatch(messages);
      match embed(Map(EmbeddedText, batch))
      case None => Unreachable
      case Some(vectors) =>
        if |vectors| != |batch| then Mismatch
        else EmbedFrom(embed, done + Zip(batch, vectors), messages[|batch|..])
  }

  function ToEpisode<V>(byId: map<nat, V>): Message -> Episode<V> {
    (m: Message) => Episode(m.conversation, m.seqNo, m.user, m.content, if m.id in byId then Some(byId[m.id]) else None)
  }

  function IndexUser<V>(embed: Embedder<V>, messages: seq<Message>, episodes: seq<Episode<V>>, user: nat, limit: nat)
    : (seq<Episode<V>>, Outcome)
  {
    var todo := Unindexed(messages, episodes, user, limit);
    if todo == [] then (episodes, Indexed(Counts(0, 0, 0)))
    else
      match EmbedFrom(embed, map[], Filter(Embeddable, todo))
      case Unreachable => (episodes, Indexed(Counts(|todo|, 0, |todo|)))
      case Mismatch => (episodes, Raised)
      case Vectors(byId) =>
        (episodes + Map(ToEpisode(byId), todo),
         Indexed(Counts(|todo|, |byId|, |todo| - |byId|)))
  }

  class EpisodeIndexService<V> {
    var messages: seq<Message>
    var episodes: seq<Episode<V>>

    /** Numbered conversations, and at most one episode per position. */
    ghost predicate Valid()
      reads this
    {
      NumberedFrom1(messages) && DistinctBy(e => EpisodeKey<V>(e), episodes)
    }

    constructor ()
      ensures messages == [] && episodes == [] && Valid()
    {
      messages, episodes := [], [];
    }

    /** Batches of sixteen; the first unreachable batch gives up the whole run. */
    method Embed(embed: Embedder<V>, todo: seq<Message>) returns (vectors: Embedded<V>)
      ensures vectors == EmbedFrom(embed, map[], todo)
    {
      var byId: map<nat, V> := map[];
      var start := 0;
      while start < |todo|
        invariant 0 <= start <= |todo|
        invariant EmbedFrom(embed, byId, todo[start..]) == EmbedFrom(embed, map[], todo)
      {
        var batch := FirstBatch(todo[start..]);
        assert todo[start..][|batch|..] == todo[start + |batch|..];
        match embed(Map(EmbeddedText, batch)) {
          case None =>
            return Unreachable;
          case Some(embedded) =>
            if |embedded| != |batch| {
              return Mismatch;
            }
            byId := byId + Zip(batch, embedded);
        }
        start := start + |batch|;
      }
      vectors := Vectors(byId);
    }

    method IndexUserMessages(embed: Embedder<V>, user: nat, limit: nat) returns (outcome: Outcome)
      modifies this`episodes
      ensures (episodes, outcome) == IndexUser(embed, messages, old(episodes), user, limit)
      ensures old(Valid()) ==> Valid()
    {
      IndexPreserves(embed, messages, episodes, user, limit);
      hide DistinctBy, Unindexed, EmbedFrom, NumberedFrom1, Embeddable;
      var todo := Unindexed(messages, episodes, user, limit);
      if todo == [] {
        return Indexed(Counts(0, 0, 0));
      }
      var embeddable := Filter(Embeddable, todo);
      var vectors := Embed(embed, embeddable);
      match vectors {
        case Unreachable =>
          outcome := Indexed(Counts(|todo|, 0, |todo|));
        case Mismatch =>
          outcome := Raised;
        case Vectors(byId) =>
          ghost var before := episodes;
          for i := 0 to |todo|
            invariant episodes == before + Map(ToEpisode(byId), todo[..i])
          {
            MapPrefix(ToEpisode(byId), todo, i);
            episodes := episodes + [ToEpisode(byId)(todo[i])];
          }
          assert todo[..|todo|] == todo;
          outcome := Indexed(Counts(|todo|, |byId|, |todo| - |byId|));
      }
    }
  }

  lemma MapPrefix<A, B>(f: A -> B, s: seq<A>, i: nat)
    requires i < |s|
    ensures Map(f, s[..i + 1]) == Map(f, s[..i]) + [f(s[i])]
  {
  }

  // ---------- batching ----------

  function IdOf(m: Message): nat {
    m.id
  }

  function Ids(messages: seq<Message>): set<nat> {
    set m | m in messages :: m.id
  }

  lemma IdsSplit(messages: seq<Message>, n: nat)
    requires n <= |messages| && DistinctBy(IdOf, messages)
    ensures Ids(messages) == Ids(messages[..n]) + Ids(messages[n..])
    ensures Ids(messages[..n]) !! Ids(messages[n..])
    ensures DistinctBy(IdOf, messages[..n]) && DistinctBy(IdOf, messages[n..])
  {
  }

  lemma IdOfElement(messages: seq<Message>, i: nat)
    requires i < |messages|
    ensures messages[i].id in Ids(messages)
  {
  }

  lemma IdOfOne(m: Message)
    ensures Ids([m]) == {m.id}
  {
  }

  lemma {:induction false} ZipKeys<V>(batch: seq<Message>, vectors: seq<V>)
    requires |batch| == |vectors| && DistinctBy(IdOf, batch)
    ensures var r := Zip(batch, vectors);
            && r.Keys == Ids(batch) && |r| == |batch|
            && forall i | 0 <= i < |batch| :: r[batch[i].id] == vectors[i]
  {
    if batch == [] {
      NoIds();
    } else {
      hide Ids, DistinctBy;
      var n := |batch| - 1;
      var front, last := batch[..n], batch[n];
      assert batch[n..] == [last];
      IdsSplit(batch, n);
      IdOfOne(last);
      ZipKeys(front, vectors[..n]);
      var r := Zip(front, vectors[..n]);
      assert last.id !in r;
      forall i | 0 <= i < n
        ensures batch[i].id in r && r[batch[i].id] == vectors[i]
      {
        IdOfElement(front, i);
        assert front[i] == batch[i] && vectors[..n][i] == vectors[i];
      }
    }
  }

  lemma DisjointUnionSize<K, V>(a: map<K, V>, b: map<K, V>)
    requires a.Keys !! b.Keys
    ensures |a + b| == |a| + |b| && (a + b).Keys == a.Keys + b.Keys
    ensures forall k | k in a :: (a + b)[k] == a[k]
    ensures forall k | k in b :: (a + b)[k] == b[k]
  {
  }

  /** After one batch the loop stands as before it, with the batch's vectors added. */
  lemma NextBatch<V>(embed: Embedder<V>, done: map<nat, V>, messages: seq<Message>)
    returns (next: map<nat, V>, rest: seq<Message>)
    requires messages != [] && DistinctBy(IdOf, messages) && EmbedFrom(embed, done, messages).Vectors?
    requires done.Keys !! Ids(messages)
    ensures |rest| < |messages| && DistinctBy(IdOf, rest) && next.Keys !! Ids(rest)
    ensures next.Keys + Ids(rest) == done.Keys + Ids(messages) && |next| + |rest| == |done| + |messages|
    ensures EmbedFrom(embed, done, messages) == EmbedFrom(embed, next, rest)
  {
    hide Ids, DistinctBy, Zip, EmbeddedText, EmbedFrom, FirstBatch;
    EmbedUnfold(embed, done, messages);
    var batch := FirstBatch(messages);
    var vectors := embed(Map(EmbeddedText, batch)).value;
    rest := messages[|batch|..];
    IdsSplit(messages, |batch|);
    ZipKeys(batch, vectors);
    DisjointUnionSize(done, Zip(batch, vectors));
    next := done + Zip(batch, vectors);
  }

  /** Whatever the batches, a run that succeeds has exactly one vector for each message, and none else. */
  lemma {:induction false} EmbedCoversAll<V>(embed: Embedder<V>, done: map<nat, V>, messages: seq<Message>)
    requires DistinctBy(IdOf, messages) && EmbedFrom(embed, done, messages).Vectors?
    requires done.Keys !! Ids(messages)
    ensures var byId := EmbedFrom(embed, done, messages).byId;
            byId.Keys == done.Keys + Ids(messages) && |byId| == |done| + |messages|
    decreases |messages|
  {
    hide Ids, DistinctBy;
    if messages == [] {
      NoIds();
    } else {
      hide EmbedFrom;
      var next, rest := NextBatch(embed, done, messages);
      EmbedCoversAll(embed, next, rest);
    }
  }

  /** One batch of the loop. */
  lemma EmbedUnfold<V>(embed: Embedder<V>, done: map<nat, V>, messages: seq<Message>)
    requires messages != []
    ensures var batch := FirstBatch(messages);
            var answer := embed(Map(EmbeddedText, batch));
            && 0 < |batch| <= |messages| && batch == messages[..|batch|]
            && EmbedFrom(embed, done, messages) ==
                 if answer == None then Unreachable
                 else if |answer.value| != |batch| then Mismatch
                 else EmbedFrom(embed, done + Zip(batch, answer.value), messages[|batch|..])
  {
  }

  lemma NoIds()
    ensures Ids([]) == {}
  {
  }

  /** The model embeds each text on its own. */
  ghost predicate Pointwise<V>(embed: Embedder<V>, f: string -> V) {
    forall texts :: embed(texts) == Some(Map(f, texts))
  }

  ghost predicate OwnVectors<V>(byId: map<nat, V>, f: string -> V, messages: seq<Message>) {
    forall i | 0 <= i < |messages| :: messages[i].id in byId && byId[messages[i].id] == f(EmbeddedText(messages[i]))
  }

  /** With such a model batching is invisible: the run succeeds and every message gets the vector of its
      own text. */
  lemma {:induction false} BatchingIsPointwise<V>(embed: Embedder<V>, f: string -> V, done: map<nat, V>,
                                                  messages: seq<Message>)
    requires Pointwise(embed, f) && DistinctBy(IdOf, messages) && done.Keys !! Ids(messages)
    ensures EmbedFrom(embed, done, messages).Vectors?
    ensures var byId := EmbedFrom(embed, done, messages).byId;
            && OwnVectors(byId, f, messages)
            && forall id | id in done :: id in byId && byId[id] == done[id]
    decreases |messages|
  {
    hide Ids, DistinctBy, Zip, EmbeddedText, OwnVectors;
    if messages == [] {
      NoOwnVectors(done, f);
    } else {
      hide EmbedFrom, FirstBatch;
      EmbedUnfold(embed, done, messages);
      var batch := FirstBatch(messages);
      var rest := messages[|batch|..];
      var vectors := Map(f, Map(EmbeddedText, batch));
      var zipped := Zip(batch, vectors);
      assert embed(Map(EmbeddedText, batch)) == Some(vectors);
      IdsSplit(messages, |batch|);
      ZipKeys(batch, vectors);
      DisjointUnionSize(done, zipped);
      BatchingIsPointwise(embed, f, done + zipped, rest);
      var byId := EmbedFrom(embed, done + zipped, rest).byId;
      BatchVectors(byId, f, batch, zipped);
      assert messages == batch + rest;
      OwnVectorsAppend(byId, f, batch, rest);
    }
  }

  lemma NoOwnVectors<V>(byId: map<nat, V>, f: string -> V)
    ensures OwnVectors(byId, f, [])
  {
  }

  lemma BatchVectors<V>(byId: map<nat, V>, f: string -> V, batch: seq<Message>, zipped: map<nat, V>)
    requires zipped.Keys == Ids(batch)
    requires forall i | 0 <= i < |batch| :: zipped[batch[i].id] == Map(f, Map(EmbeddedText, batch))[i]
    requires forall id | id in zipped :: id in byId && byId[id] == zipped[id]
    ensures OwnVectors(byId, f, batch)
  {
  }

  lemma OwnVectorsAppend<V>(byId: map<nat, V>, f: string -> V, a: seq<Message>, b: seq<Message>)
    requires OwnVectors(byId, f, a) && OwnVectors(byId, f, b)
    ensures OwnVectors(byId, f, a + b)
  {
  }

  // ---------- the messages of one run ----------

  lemma UnindexedIsPrefix<V>(messages: seq<Message>, episodes: seq<Episode<V>>, user: nat, limit: nat)
    ensures var todo := Unindexed(messages, episodes, user, limit);
            var sorted := Sort(Earlier, Backlog(messages, episodes, user));
            && multiset(sorted) == multiset(Backlog(messages, episodes, user))
            && |sorted| == |Backlog(messages, episodes, user)|
            && |todo| == (if |sorted| <= limit then |sorted| else limit)
            && todo == sorted[..|todo|]
  {
    hide Sort, Backlog;
    var backlog := Backlog(messages, episodes, user);
    SortPermutes(Earlier, backlog);
    assert |multiset(Sort(Earlier, backlog))| == |multiset(backlog)|;
  }

  /** Numbering gives every message a key of its own. */
  lemma NumberingSeparates(messages: seq<Message>)
    requires NumberedFrom1(messages)
    ensures DistinctBy(KeyOf, messages) && DistinctBy(IdOf, messages)
  {
    forall i, j | 0 <= i < j < |messages|
      ensures KeyOf(messages[i]) != KeyOf(messages[j])
    {
      if messages[i].conversation == messages[j].conversation {
        var p := OfConversation(messages[i].conversation);
        var rows := Filter(p, messages);
        assert Consecutive(rows);
        var a, b := FilterPositions(p, messages, i, j);
        assert rows[a].seqNo == a + 1 && rows[b].seqNo == b + 1;
      }
    }
  }

  lemma TodoIsDistinct<V>(messages: seq<Message>, episodes: seq<Episode<V>>, user: nat, limit: nat)
    requires NumberedFrom1(messages)
    ensures var todo := Unindexed(messages, episodes, user, limit);
            && DistinctBy(KeyOf, Sort(Earlier, Backlog(messages, episodes, user)))
            && DistinctBy(KeyOf, todo) && DistinctBy(IdOf, todo)
            && forall m | m in todo :: m in messages && m.user == user && !HasEpisode(episodes, m)
  {
    hide NumberedFrom1, HasEpisode, Sort, DistinctBy;
    var backlog := Backlog(messages, episodes, user);
    var todo, sorted := Unindexed(messages, episodes, user, limit), Sort(Earlier, backlog);
    NumberingSeparates(messages);
    DistinctByFilter(KeyOf, NeedsEpisode(episodes, user), messages);
    DistinctByFilter(IdOf, NeedsEpisode(episodes, user), messages);
    UnindexedIsPrefix(messages, episodes, user, limit);
    DistinctByPermutation(KeyOf, backlog, sorted);
    DistinctByPermutation(IdOf, backlog, sorted);
    DistinctBySplit(KeyOf, sorted, |todo|);
    DistinctBySplit(IdOf, sorted, |todo|);
    forall m | m in todo
      ensures m in messages && m.user == user && !HasEpisode(episodes, m)
    {
      SortMember(Earlier, backlog, m);
      FilterMember(NeedsEpisode(episodes, user), messages, m);
    }
  }

  // ---------- one run ----------

  /** A run changes nothing exactly when it has nothing to do or its embedding fails: the model is unreachable, which is
      reported as skipping everything, or answers with the wrong number of vectors, which raises. After a failure the
      next run takes the same messages again. */
  lemma FailureChangesNothing<V>(embed: Embedder<V>, messages: seq<Message>, episodes: seq<Episode<V>>, user: nat,
                                 limit: nat)
    ensures
      var todo := Unindexed(messages, episodes, user, limit);
      var vectors := EmbedFrom(embed, map[], Filter(Embeddable, todo));
      var (after, outcome) := IndexUser(embed, messages, episodes, user, limit);
      && (after == episodes <==> todo == [] || !vectors.Vectors?)
      && (todo != [] && vectors.Unreachable? ==> outcome == Indexed(Counts(|todo|, 0, |todo|)))
      && (todo != [] && vectors.Mismatch? ==> outcome == Raised)
      && (!vectors.Vectors? ==> Unindexed(messages, after, user, limit) == todo)
  {
    hide EmbedFrom, Unindexed;
    var todo := Unindexed(messages, episodes, user, limit);
    var after := IndexUser(embed, messages, episodes, user, limit).0;
    if todo != [] && EmbedFrom(embed, map[], Filter(Embeddable, todo)).Vectors? {
      assert |after| == |episodes| + |todo|;
    }
  }

  /** The counts of a run that does not raise: embedded and skipped make up the messages taken, and a run that
      stores anything has embedded exactly the messages long enough to embed. */
  lemma CountsAddUp<V>(embed: Embedder<V>, messages: seq<Message>, episodes: seq<Episode<V>>, user: nat, limit: nat)
    requires NumberedFrom1(messages)
    ensures
      var todo := Unindexed(messages, episodes, user, limit);
      var (after, outcome) := IndexUser(embed, messages, episodes, user, limit);
      outcome.Indexed? ==>
        && outcome.counts.messages == |todo| == outcome.counts.embedded + outcome.counts.skipped
        && outcome.counts.skipped >= 0
        && (after != episodes ==> outcome.counts.embedded == Count(Embeddable, todo))
  {
    hide NumberedFrom1, Unindexed, Embeddable, EmbedFrom, DistinctBy;
    var todo := Unindexed(messages, episodes, user, limit);
    TodoIsDistinct(messages, episodes, user, limit);
    DistinctByFilter(IdOf, Embeddable, todo);
    if EmbedFrom(embed, map[], Filter(Embeddable, todo)).Vectors? {
      EmbedCoversAll(embed, map[], Filter(Embeddable, todo));
    }
  }

  /** With a model that embeds each text on its own, a run stores one episode for each message taken, carrying the
      vector of that message's own text, or none when the message is too short to embed. */
  lemma EpisodesGetOwnVectors<V>(embed: Embedder<V>, f: string -> V, messages: seq<Message>, episodes: seq<Episode<V>>,
                                 user: nat, limit: nat)
    requires NumberedFrom1(messages) && Pointwise(embed, f)
    ensures
      var todo := Unindexed(messages, episodes, user, limit);
      var after := IndexUser(embed, messages, episodes, user, limit).0;
      && episodes <= after && |after| == |episodes| + |todo|
      && forall i | 0 <= i < |todo| ::
           after[|episodes| + i] == Episode(todo[i].conversation, todo[i].seqNo, todo[i].user, todo[i].content,
                                            if Embeddable(todo[i]) then Some(f(EmbeddedText(todo[i]))) else None)
  {
    hide NumberedFrom1, Unindexed, Embeddable, EmbeddedText, EmbedFrom, DistinctBy, Ids, Pointwise;
    var todo := Unindexed(messages, episodes, user, limit);
    var embeddable := Filter(Embeddable, todo);
    TodoIsDistinct(messages, episodes, user, limit);
    DistinctByFilter(IdOf, Embeddable, todo);
    var none: map<nat, V> := map[];
    BatchingIsPointwise(embed, f, none, embeddable);
    EmbedCoversAll(embed, none, embeddable);
    var byId := EmbedFrom(embed, map[], embeddable).byId;
    forall i | 0 <= i < |todo|
      ensures ToEpisode(byId)(todo[i]).embedding == if Embeddable(todo[i]) then Some(f(EmbeddedText(todo[i]))) else None
    {
      VectorOf(byId, f, todo, i);
    }
  }

  lemma VectorOf<V>(byId: map<nat, V>, f: string -> V, todo: seq<Message>, i: nat)
    requires i < |todo| && DistinctBy(IdOf, todo)
    requires byId.Keys == Ids(Filter(Embeddable, todo)) && OwnVectors(byId, f, Filter(Embeddable, todo))
    ensures todo[i].id in byId <==> Embeddable(todo[i])
    ensures Embeddable(todo[i]) ==> byId[todo[i].id] == f(EmbeddedText(todo[i]))
  {
    hide Embeddable, EmbeddedText;
    var embeddable := Filter(Embeddable, todo);
    FilterMember(Embeddable, todo, todo[i]);
    if todo[i].id in byId {
      var m :| m in embeddable && m.id == todo[i].id;
      FilterMember(Embeddable, todo, m);
      var j :| 0 <= j < |todo| && todo[j] == m;
      DistinctSameIndex(IdOf, todo, i, j);
    }
    if Embeddable(todo[i]) {
      var k :| 0 <= k < |embeddable| && embeddable[k] == todo[i];
      assert byId[embeddable[k].id] == f(EmbeddedText(embeddable[k]));
    }
  }

  // ---------- every run ----------

  function KeySet(messages: seq<Message>): set<(nat, int)> {
    set m | m in messages :: KeyOf(m)
  }

  lemma KeysAfter<V>(episodes: seq<Episode<V>>, todo: seq<Message>, byId: map<nat, V>)
    ensures EpisodeKeys(episodes + Map(ToEpisode(byId), todo)) == EpisodeKeys(episodes) + KeySet(todo)
  {
    var added := Map(ToEpisode(byId), todo);
    var all := episodes + added;
    forall k | k in EpisodeKeys(episodes) + KeySet(todo)
      ensures k in EpisodeKeys(all)
    {
      if k in KeySet(todo) {
        var m :| m in todo && KeyOf(m) == k;
        var i :| 0 <= i < |todo| && todo[i] == m;
        assert EpisodeKey(all[|episodes| + i]) == k;
      } else {
        var i :| 0 <= i < |episodes| && EpisodeKey(episodes[i]) == k;
        assert EpisodeKey(all[i]) == k;
      }
    }
    forall k | k in EpisodeKeys(all)
      ensures k in EpisodeKeys(episodes) + KeySet(todo)
    {
      var i :| 0 <= i < |all| && EpisodeKey(all[i]) == k;
      if i >= |episodes| {
        assert todo[i - |episodes|] in todo && KeyOf(todo[i - |episodes|]) == k;
      } else {
        assert EpisodeKey(episodes[i]) == k;
      }
    }
  }

  lemma IndexKeepsOneEach<V>(embed: Embedder<V>, messages: seq<Message>, episodes: seq<Episode<V>>, user: nat,
                             limit: nat)
    requires NumberedFrom1(messages) && DistinctBy(e => EpisodeKey<V>(e), episodes)
    ensures DistinctBy(e => EpisodeKey<V>(e), IndexUser(embed, messages, episodes, user, limit).0)
  {
    hide NumberedFrom1, Unindexed, EmbedFrom;
    TodoIsDistinct(messages, episodes, user, limit);
    var todo := Unindexed(messages, episodes, user, limit);
    if EmbedFrom(embed, map[], Filter(Embeddable, todo)).Vectors? {
      NewEpisodesAreNew(episodes, todo, EmbedFrom(embed, map[], Filter(Embeddable, todo)).byId);
      assert episodes + [] == episodes;
    }
  }

  lemma IndexPreserves<V>(embed: Embedder<V>, messages: seq<Message>, episodes: seq<Episode<V>>, user: nat, limit: nat)
    ensures NumberedFrom1(messages) && DistinctBy(e => EpisodeKey<V>(e), episodes) ==>
              DistinctBy(e => EpisodeKey<V>(e), IndexUser(embed, messages, episodes, user, limit).0)
  {
    hide NumberedFrom1, DistinctBy, IndexUser;
    if NumberedFrom1(messages) && DistinctBy(e => EpisodeKey<V>(e), episodes) {
      IndexKeepsOneEach(embed, messages, episodes, user, limit);
    }
  }

  lemma NewEpisodesAreNew<V>(episodes: seq<Episode<V>>, todo: seq<Message>, byId: map<nat, V>)
    requires DistinctBy(e => EpisodeKey<V>(e), episodes) && DistinctBy(KeyOf, todo)
    requires forall m | m in todo :: !HasEpisode(episodes, m)
    ensures DistinctBy(e => EpisodeKey<V>(e), episodes + Map(ToEpisode(byId), todo))
  {
    var key := (e: Episode<V>) => EpisodeKey(e);
    var added := Map(ToEpisode(byId), todo);
    assert forall i | 0 <= i < |todo| :: key(added[i]) == KeyOf(todo[i]);
    forall i, j | 0 <= i < |episodes| && 0 <= j < |added|
      ensures key(episodes[i]) != key(added[j])
    {
      assert todo[j] in todo;
      assert EpisodeKey(episodes[i]) in EpisodeKeys(episodes);
    }
    DistinctByAppend(key, episodes, added);
  }

  datatype Step<!V> =
    | Append(append: Conversation.Append)
    | Index(embed: Embedder<V>, user: nat, limit: nat)

  datatype State<V> = State(messages: seq<Message>, episodes: seq<Episode<V>>)

  function Apply<V>(s: State<V>, step: Step<V>): State<V> {
    match step
    case Append(a) => s.(messages := AppendAll(s.messages, [a]))
    case Index(embed, user, limit) => s.(episodes := IndexUser(embed, s.messages, s.episodes, user, limit).0)
  }

  function Run<V>(s: State<V>, steps: seq<Step<V>>): State<V>
    decreases |steps|
  {
    if steps == [] then s else Run(Apply(s, steps[0]), steps[1..])
  }

  /** Over every interleaving of appended messages and indexing runs, failed or not, each conversation
      position gets at most one episode. */
  lemma {:induction false} AtMostOneEpisode<V>(s: State<V>, steps: seq<Step<V>>)
    requires NumberedFrom1(s.messages) && DistinctBy(e => EpisodeKey<V>(e), s.episodes)
    ensures NumberedFrom1(Run(s, steps).messages) && DistinctBy(e => EpisodeKey<V>(e), Run(s, steps).episodes)
    decreases |steps|
  {
    hide NumberedFrom1, DistinctBy, IndexUser, AppendAll;
    if steps == [] {
    } else {
      match steps[0] {
        case Append(a) => AppendsAreNumbered(s.messages, [a]);
        case Index(embed, user, limit) => IndexKeepsOneEach(embed, s.messages, s.episodes, user, limit);
      }
      AtMostOneEpisode(Apply(s, steps[0]), steps[1..]);
    }
  }

  // ---------- progress ----------

  function KeyNotIn(done: seq<Message>): Message -> bool {
    var keys := KeySet(done);
    (m: Message) => KeyOf(m) !in keys
  }

  /** Dropping the first `k` of a list of messages with keys of their own, by key. */
  lemma DropByKey(sorted: seq<Message>, k: nat)
    requires k <= |sorted| && DistinctBy(KeyOf, sorted)
    ensures Filter(KeyNotIn(sorted[..k]), sorted) == sorted[k..]
  {
    var front, back := sorted[..k], sorted[k..];
    hide Filter;
    assert sorted == front + back;
    DistinctBySplit(KeyOf, sorted, k);
    FilterAppend(KeyNotIn(front), front, back);
    FilterNone(KeyNotIn(front), front);
    FilterAll(KeyNotIn(front), back);
    assert [] + back == back;
  }

  lemma BacklogAfter<V>(messages: seq<Message>, episodes: seq<Episode<V>>, user: nat, todo: seq<Message>,
                        byId: map<nat, V>)
    ensures Backlog(messages, episodes + Map(ToEpisode(byId), todo), user)
        == Filter(KeyNotIn(todo), Backlog(messages, episodes, user))
  {
    hide EpisodeKeys, KeySet, Filter;
    KeysAfter(episodes, todo, byId);
    FilterTwice(KeyNotIn(todo), NeedsEpisode(episodes, user),
                NeedsEpisode(episodes + Map(ToEpisode(byId), todo), user), messages);
  }

  /** A successful run shrinks the backlog by the number of messages it took: min(limit, backlog). */
  lemma SuccessShrinksBacklog<V>(embed: Embedder<V>, messages: seq<Message>, episodes: seq<Episode<V>>, user: nat,
                                 limit: nat)
    requires NumberedFrom1(messages)
    requires EmbedFrom(embed, map[], Filter(Embeddable, Unindexed(messages, episodes, user, limit))).Vectors?
    ensures
      var before := |Backlog(messages, episodes, user)|;
      var after := |Backlog(messages, IndexUser(embed, messages, episodes, user, limit).0, user)|;
      after == before - if before <= limit then before else limit
  {
    hide NumberedFrom1, EmbedFrom, Sort, Embeddable, Backlog, Unindexed, KeyNotIn, Filter;
    var todo := Unindexed(messages, episodes, user, limit);
    var byId := EmbedFrom(embed, map[], Filter(Embeddable, todo)).byId;
    var backlog := Backlog(messages, episodes, user);
    var sorted := Sort(Earlier, backlog);
    UnindexedIsPrefix(messages, episodes, user, limit);
    TodoIsDistinct(messages, episodes, user, limit);
    assert IndexUser(embed, messages, episodes, user, limit).0 == episodes + Map(ToEpisode(byId), todo) by {
      assert episodes + [] == episodes;
    }
    BacklogAfter(messages, episodes, user, todo, byId);
    FilterSameElements(KeyNotIn(todo), sorted, backlog);
    assert |multiset(Filter(KeyNotIn(todo), sorted))| == |multiset(Filter(KeyNotIn(todo), backlog))|;
    DropByKey(sorted, |todo|);
  }
}
