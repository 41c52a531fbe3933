/** Which messages are stored and which of them a provider gets to see, message by message. */
module HistoryWindow {
  import opened Prelude
  import opened Claims
  import opened Conversation

  /** What may be sent: anything to a local provider, otherwise only what is S0, S1 or S2. */
  predicate Sendable(providerIsLocal: bool, m: Message) {
    providerIsLocal || m.sensitivity == S0 || m.sensitivity == S1 || m.sensitivity == S2
  }

  function SentFrom(conversation: nat, providerIsLocal: bool): Message -> bool {
    (m: Message) => m.conversation == conversation && Sendable(providerIsLocal, m)
  }

  function IsIn(conversation: nat): Message -> bool {
    (m: Message) => m.conversation == conversation
  }

  // ---------- appending ----------

  /** After any appends each message is stored as given, with its conversation, user, role, content, sensitivity and
      instant, in the order of the appends; its number is one more than the messages its conversation had before it. */
  lemma {:induction false} AppendsStoreAsGiven(messages: seq<Message>, appends: seq<Append>, k: nat)
    requires NumberedFrom1(messages) && k < |appends|
    ensures
      var after, n, a := AppendAll(messages, appends), |messages| + k, appends[k];
      && |after| == |messages| + |appends| && messages <= after
      && after[n] == Message(n, a.conversation, a.user, Count(IsIn(a.conversation), after[..n]) + 1, a.role, a.content,
                             a.sensitivity, a.now)
    decreases |appends|
  {
    hide NumberedFrom1, Count;
    var a := appends[0];
    var m := FirstAppend(messages, a);
    var after := AppendAll(messages, appends);
    assert after == AppendAll(messages + [m], appends[1..]);
    hide AppendAll;
    AppendsAreNumbered(messages + [m], appends[1..]);
    CountAfter(messages + [m], appends[1..]);
    assert messages <= messages + [m] <= after;
    if k > 0 {
      AppendsStoreAsGiven(messages + [m], appends[1..], k - 1);
    } else {
      assert after[..|messages|] == messages && after[|messages|] == (messages + [m])[|messages|];
    }
  }

  lemma FirstAppend(messages: seq<Message>, a: Append) returns (m: Message)
    requires NumberedFrom1(messages)
    ensures m == Appended(messages, a.conversation, a.user, a.role, a.content, a.sensitivity, a.now)
    ensures m == Message(|messages|, a.conversation, a.user, Count(IsIn(a.conversation), messages) + 1, a.role,
                         a.content, a.sensitivity, a.now)
    ensures NumberedFrom1(messages + [m])
  {
    hide NumberedFrom1, Count;
    m := Appended(messages, a.conversation, a.user, a.role, a.content, a.sensitivity, a.now);
    NextNumber(messages, a.conversation);
    AppendKeepsNumbering(messages, m);
  }

  lemma {:induction false} CountAfter(messages: seq<Message>, appends: seq<Append>)
    ensures |AppendAll(messages, appends)| == |messages| + |appends|
    decreases |appends|
  {
    hide Appended;
    if appends == [] {
    } else {
      var a := appends[0];
      CountAfter(messages + [Appended(messages, a.conversation, a.user, a.role, a.content, a.sensitivity, a.now)],
                 appends[1..]);
    }
  }

  lemma NextNumber(messages: seq<Message>, conversation: nat)
    requires NumberedFrom1(messages)
    ensures MaxSeq(Filter(OfConversation(conversation), messages)) == Count(IsIn(conversation), messages)
  {
    FilterCongruent(OfConversation(conversation), IsIn(conversation), messages);
    assert Consecutive(Filter(OfConversation(conversation), messages));
    MaxIsCount(Filter(OfConversation(conversation), messages));
  }

  // ---------- the history ----------

  ghost predicate Ascending(messages: seq<Message>) {
    forall i, j | 0 <= i < j < |messages| :: messages[i].id < messages[j].id
  }

  lemma FilterAscending(p: Message -> bool, s: seq<Message>)
    requires Ascending(s)
    ensures Ascending(Filter(p, s))
  {
    var picks := FilterSelects(p, s);
  }

  lemma FilterFrom(p: Message -> bool, s: seq<Message>, i: nat) returns (k: nat)
    requires i <= |s|
    ensures k == Count(p, s[..i]) && k <= |Filter(p, s)| && Filter(p, s)[k..] == Filter(p, s[i..])
  {
    assert s == s[..i] + s[i..];
    FilterAppend(p, s[..i], s[i..]);
    k := Count(p, s[..i]);
  }

  /** The messages that may be sent at or after position `i`, as they stand in the window. */
  lemma AllowedFrom(messages: seq<Message>, conversation: nat, limit: nat, providerIsLocal: bool, i: nat)
    returns (j: nat)
    requires i <= |messages| && Count(IsIn(conversation), messages[i..]) <= limit
    ensures var allowed := Filter(MayLeave(providerIsLocal), Window(messages, conversation, limit));
            j <= |allowed| && allowed[j..] == Filter(SentFrom(conversation, providerIsLocal), messages[i..])
  {
    hide Filter;
    var rows, window := Filter(OfConversation(conversation), messages), Window(messages, conversation, limit);
    var k := FilterFrom(OfConversation(conversation), messages, i);
    FilterCongruent(OfConversation(conversation), IsIn(conversation), messages[i..]);
    var w := |rows| - |window|;
    assert window == rows[w..] && w <= k && window[k - w..] == rows[k..];
    j := FilterFrom(MayLeave(providerIsLocal), window, k - w);
    FilterTwice(MayLeave(providerIsLocal), OfConversation(conversation), SentFrom(conversation, providerIsLocal),
                messages[i..]);
  }

  lemma WindowAscends(messages: seq<Message>, conversation: nat, limit: nat, providerIsLocal: bool)
    requires NumberedFrom1(messages)
    ensures Ascending(Filter(MayLeave(providerIsLocal), Window(messages, conversation, limit)))
    ensures forall m | m in Filter(MayLeave(providerIsLocal), Window(messages, conversation, limit)) ::
              m in messages && m.conversation == conversation && Sendable(providerIsLocal, m)
  {
    hide Filter, MaxSeq;
    var rows, window := Filter(OfConversation(conversation), messages), Window(messages, conversation, limit);
    assert Ascending(messages);
    FilterAscending(OfConversation(conversation), messages);
    FilterAscending(MayLeave(providerIsLocal), window);
    forall m | m in Filter(MayLeave(providerIsLocal), window)
      ensures m in messages && m.conversation == conversation && Sendable(providerIsLocal, m)
    {
      FilterMember(MayLeave(providerIsLocal), window, m);
      FilterMember(OfConversation(conversation), messages, m);
    }
  }

  /** Exactly the messages of the conversation that may be sent, are among its last `limit`, and whose contents together
      with those of all later ones that may be sent stay within the limit on characters, in the order they were
      written. */
  lemma HistoryHolds(messages: seq<Message>, conversation: nat, limit: nat, maxChars: int, providerIsLocal: bool,
                     i: nat)
    requires NumberedFrom1(messages) && i < |messages|
    ensures
      var history := History(messages, conversation, limit, maxChars, providerIsLocal);
      && Ascending(history) && (forall m | m in history :: m in messages)
      && (messages[i] in history <==>
            && messages[i].conversation == conversation && Sendable(providerIsLocal, messages[i])
            && Count(IsIn(conversation), messages[i..]) <= limit
            && Chars(Filter(SentFrom(conversation, providerIsLocal), messages[i..])) <= maxChars)
  {
    hide Filter, Window, Chars, Reverse, Recent, NewestFirst, History;
    var allowed := Filter(MayLeave(providerIsLocal), Window(messages, conversation, limit));
    var history := History(messages, conversation, limit, maxChars, providerIsLocal);
    HistoryIsLongestSuffix(messages, conversation, limit, maxChars, providerIsLocal);
    WindowAscends(messages, conversation, limit, providerIsLocal);
    assert forall m | m in history :: m in allowed;
    if messages[i] in allowed {
      InWindow(messages, conversation, limit, providerIsLocal, i);
    }
    if messages[i].conversation == conversation && Sendable(providerIsLocal, messages[i])
       && Count(IsIn(conversation), messages[i..]) <= limit {
      var j := AllowedFrom(messages, conversation, limit, providerIsLocal, i);
      FirstSent(conversation, providerIsLocal, messages, i);
      assert allowed[j..][0] == messages[i] && allowed[j] == messages[i];
      HeldIff(allowed, history, maxChars, j);
    }
  }

  lemma FirstSent(conversation: nat, providerIsLocal: bool, messages: seq<Message>, i: nat)
    requires i < |messages| && SentFrom(conversation, providerIsLocal)(messages[i])
    ensures var sent := Filter(SentFrom(conversation, providerIsLocal), messages[i..]);
            sent != [] && sent[0] == messages[i]
  {
  }

  /** An element of the list is in the longest fitting suffix exactly when it fits with all that follow. */
  lemma HeldIff(allowed: seq<Message>, history: seq<Message>, maxChars: int, j: nat)
    requires Ascending(allowed) && j < |allowed|
    requires |history| <= |allowed| && history == allowed[|allowed| - |history|..]
    requires history == [] || Chars(history) <= maxChars
    requires forall k | 0 <= k < |allowed| - |history| :: Chars(allowed[k..]) > maxChars
    ensures allowed[j] in history <==> Chars(allowed[j..]) <= maxChars
  {
    hide Chars;
    var d := |allowed| - |history|;
    if j >= d {
      assert history[j - d] == allowed[j];
      assert history == allowed[d..j] + allowed[j..];
      CharsAppend(allowed[d..j], allowed[j..]);
    } else {
      assert forall x | 0 <= x < |history| :: history[x] == allowed[d + x];
    }
  }

  lemma InWindow(messages: seq<Message>, conversation: nat, limit: nat, providerIsLocal: bool, i: nat)
    requires NumberedFrom1(messages) && i < |messages|
    requires messages[i] in Filter(MayLeave(providerIsLocal), Window(messages, conversation, limit))
    ensures Count(IsIn(conversation), messages[i..]) <= limit
  {
    hide Filter, MaxSeq, Consecutive;
    var rows, window := Filter(OfConversation(conversation), messages), Window(messages, conversation, limit);
    FilterMember(MayLeave(providerIsLocal), window, messages[i]);
    var x :| 0 <= x < |window| && window[x] == messages[i];
    var w := |rows| - |window|;
    assert Ascending(messages);
    FilterAscending(OfConversation(conversation), messages);
    FilterMember(OfConversation(conversation), messages, messages[i]);
    var k := FilterFrom(OfConversation(conversation), messages, i);
    FirstOfConversation(conversation, messages, i);
    assert rows[k..][0] == messages[i] && rows[k] == rows[w + x];
    FilterCongruent(OfConversation(conversation), IsIn(conversation), messages[i..]);
  }

  lemma FirstOfConversation(conversation: nat, messages: seq<Message>, i: nat)
    requires i < |messages| && messages[i].conversation == conversation
    ensures var own := Filter(OfConversation(conversation), messages[i..]);
            own != [] && own[0] == messages[i]
  {
  }
}
