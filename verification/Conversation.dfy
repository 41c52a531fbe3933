/** Conversation messages: numbering on append, and the history window handed to a provider. */
module Conversation {
  import opened Prelude
  import opened Claims
  import opened Sorting

  datatype Message = Message(
    id: nat, conversation: nat, user: nat, seqNo: int, role: string, content: string, sensitivity: Sensitivity,
        createdAt: int)

  function OfConversation(conversation: nat): Message -> bool {
    (m: Message) => m.conversation == conversation
  }

  /** `coalesce(max(seq), 0)` */
  function MaxSeq(messages: seq<Message>): (n: int)
    ensures forall m | m in messages :: m.seqNo <= n
    ensures n == 0 || exists m :: m in messages && m.seqNo == n
    ensures n >= 0
  {
    if messages == [] then 0
    else
      var rest := MaxSeq(messages[1..]);
      if messages[0].seqNo > rest then messages[0].seqNo else rest
  }

  function Appended(messages: seq<Message>, conversation: nat, user: nat, role: string, content: string,
                    sensitivity: Sensitivity, now: int): Message
  {
    var next := MaxSeq(Filter(OfConversation(conversation), messages)) + 1;
    Message(|messages|, conversation, user, next, role, content, sensitivity, now)
  }

  predicate NewerFirst(a: Message, b: Message) {
    a.seqNo >= b.seqNo
  }

  /** `ORDER BY seq DESC LIMIT limit` */
  function NewestFirst(messages: seq<Message>, conversation: nat, limit: nat): seq<Message> {
    var rows := Sort(NewerFirst, Filter(OfConversation(conversation), messages));
    if |rows| <= limit then rows else rows[..limit]
  }

  function Reverse<T>(s: seq<T>): (r: seq<T>)
    ensures |r| == |s| && forall i | 0 <= i < |s| :: r[i] == s[|s| - 1 - i]
  {
    if s == [] then [] else Reverse(s[1..]) + [s[0]]
  }

  function MayLeave(providerIsLocal: bool): Message -> bool {
    (m: Message) => providerIsLocal || CloudSafe(m.sensitivity)
  }

  function Chars(messages: seq<Message>): nat {
    if messages == [] then 0 else |messages[0].content| + Chars(messages[1..])
  }

  /** Newest first, as far as the running total allows. */
  function Recent(newestFirst: seq<Message>, total: int, maxChars: int): seq<Message>
    decreases |newestFirst|
  {
    if newestFirst == [] || total + |newestFirst[0].content| > maxChars then []
    else [newestFirst[0]] + Recent(newestFirst[1..], total + |newestFirst[0].content|, maxChars)
  }

  function History(messages: seq<Message>, conversation: nat, limit: nat, maxChars: int, providerIsLocal: bool)
    : seq<Message>
  {
    Reverse(Recent(Filter(MayLeave(providerIsLocal), NewestFirst(messages, conversation, limit)), 0, maxChars))
  }

  class ConversationService {
    var messages: seq<Message>

    /** Every conversation is numbered 1, 2, 3, ... */
    ghost predicate Valid()
      reads this
    {
      NumberedFrom1(messages)
    }

    constructor ()
      ensures messages == [] && Valid()
    {
      messages := [];
    }

    method AppendMessage(conversation: nat, user: nat, role: string, content: string, sensitivity: Sensitivity,
                         now: int)
      returns (m: Message)
      modifies this
      ensures m == Appended(old(messages), conversation, user, role, content, sensitivity, now)
      ensures messages == old(messages) + [m]
      ensures old(Valid()) ==> Valid()
    {
      hide NumberedFrom1;
      if NumberedFrom1(messages) {
        AppendKeepsNumbering(messages, Appended(messages, conversation, user, role, content, sensitivity, now));
      }
      var nextSeq := MaxSeq(Filter(OfConversation(conversation), messages)) + 1;
      m := Message(|messages|, conversation, user, nextSeq, role, content, sensitivity, now);
      messages := messages + [m];
    }

    method RecentHistory(conversation: nat, limit: nat, maxChars: int, providerIsLocal: bool)
      returns (selected: seq<Message>)
      ensures selected == History(messages, conversation, limit, maxChars, providerIsLocal)
    {
      hide NewestFirst, CloudSafe, Reverse, Filter, Recent;
      var newestFirst := NewestFirst(messages, conversation, limit);
      ghost var p := MayLeave(providerIsLocal);
      selected := [];
      var totalChars := 0;
      var i := 0;
      NothingLeft(p, newestFirst);
      while i < |newestFirst|
        invariant 0 <= i <= |newestFirst|
        invariant Recent(Filter(p, newestFirst), 0, maxChars) == selected
            + Recent(Filter(p, newestFirst[i..]), totalChars, maxChars)
      {
        var message := newestFirst[i];
        RecentStep(p, selected, newestFirst, i, totalChars, maxChars);
        i := i + 1;
        if !providerIsLocal && !CloudSafe(message.sensitivity) {
          continue;
        }
        totalChars := totalChars + |message.content|;
        if totalChars > maxChars {
          selected := Reverse(selected);
          return;
        }
        selected := selected + [message];
      }
      RecentEnd(p, selected, newestFirst, totalChars, maxChars);
      selected := Reverse(selected);
    }
  }

  lemma NothingLeft(p: Message -> bool, s: seq<Message>)
    ensures s[0..] == s && forall r: seq<Message> :: [] + r == r
  {
  }

  lemma RecentEnd(p: Message -> bool, selected: seq<Message>, s: seq<Message>, total: int, maxChars: int)
    ensures selected + Recent(Filter(p, s[|s|..]), total, maxChars) == selected
  {
  }

  /** One turn of the history loop. */
  lemma RecentStep(p: Message -> bool, selected: seq<Message>, s: seq<Message>, i: nat, total: int, maxChars: int)
    requires i < |s|
    ensures selected + Recent(Filter(p, s[i..]), total, maxChars)
         == if !p(s[i]) then selected + Recent(Filter(p, s[i + 1..]), total, maxChars)
            else if total + |s[i].content| > maxChars then selected
            else selected + [s[i]] + Recent(Filter(p, s[i + 1..]), total + |s[i].content|, maxChars)
  {
    var rest := Filter(p, s[i + 1..]);
    assert s[i..][1..] == s[i + 1..];
    assert ([s[i]] + rest)[1..] == rest;
  }

  // ---------- numbering ----------

  datatype Append = Append(conversation: nat, user: nat, role: string, content: string, sensitivity: Sensitivity,
                           now: int)

  function AppendAll(messages: seq<Message>, appends: seq<Append>): seq<Message>
    decreases |appends|
  {
    if appends == [] then messages
    else
      var a := appends[0];
      AppendAll(messages + [Appended(messages, a.conversation, a.user, a.role, a.content, a.sensitivity, a.now)],
                appends[1..])
  }

  /** In each conversation the messages, in the order they were written, are numbered 1, 2, 3, ... */
  ghost predicate NumberedFrom1(messages: seq<Message>) {
    && (forall conversation: nat :: Consecutive(Filter(OfConversation(conversation), messages)))
    && (forall i | 0 <= i < |messages| :: messages[i].id == i)
  }

  ghost predicate Consecutive(rows: seq<Message>) {
    forall k | 0 <= k < |rows| :: rows[k].seqNo == k + 1
  }

  lemma AppendKeepsNumbering(messages: seq<Message>, m: Message)
    requires NumberedFrom1(messages) && m.id == |messages|
    requires m.seqNo == MaxSeq(Filter(OfConversation(m.conversation), messages)) + 1
    ensures NumberedFrom1(messages + [m])
  {
    hide Filter, OfConversation, MaxSeq, Consecutive;
    forall conversation: nat
      ensures Consecutive(Filter(OfConversation(conversation), messages + [m]))
    {
      var rows := Filter(OfConversation(conversation), messages);
      FilterSnoc(conversation, messages, m);
      assert rows + [] == rows;
      NextIsConsecutive(rows, m);
    }
  }

  lemma NextIsConsecutive(rows: seq<Message>, m: Message)
    requires Consecutive(rows)
    ensures m.seqNo == MaxSeq(rows) + 1 ==> Consecutive(rows + [m])
  {
    MaxIsCount(rows);
  }

  lemma MaxIsCount(rows: seq<Message>)
    requires Consecutive(rows)
    ensures MaxSeq(rows) == |rows|
  {
    if rows != [] {
      assert rows[|rows| - 1] in rows;
    }
  }

  lemma FilterSnoc(conversation: nat, messages: seq<Message>, m: Message)
    ensures Filter(OfConversation(conversation), messages + [m])
         == Filter(OfConversation(conversation), messages) + if m.conversation == conversation then [m] else []
  {
    FilterAppend(OfConversation(conversation), messages, [m]);
    assert [m][1..] == [];
  }

  lemma {:induction false} AppendsAreNumbered(messages: seq<Message>, appends: seq<Append>)
    requires NumberedFrom1(messages)
    ensures NumberedFrom1(AppendAll(messages, appends)) && messages <= AppendAll(messages, appends)
    decreases |appends|
  {
    hide NumberedFrom1;
    if appends == [] {
    } else {
      var a := appends[0];
      var m := Appended(messages, a.conversation, a.user, a.role, a.content, a.sensitivity, a.now);
      AppendKeepsNumbering(messages, m);
      AppendsAreNumbered(messages + [m], appends[1..]);
    }
  }

  // ---------- the history is the longest suffix that fits ----------

  function Window(messages: seq<Message>, conversation: nat, limit: nat): seq<Message> {
    var rows := Filter(OfConversation(conversation), messages);
    if |rows| <= limit then rows else rows[|rows| - limit..]
  }

  lemma {:induction false} ReverseMultiset<T>(s: seq<T>)
    ensures multiset(Reverse(s)) == multiset(s)
  {
    if s == [] {
    } else {
      ReverseMultiset(s[1..]);
      assert s == [s[0]] + s[1..];
    }
  }

  lemma NumberedSorts(rows: seq<Message>)
    requires Consecutive(rows)
    ensures Sorted(NewerFirst, Reverse(rows))
    ensures forall x, y | x in rows && y in rows && NewerFirst(x, y) && NewerFirst(y, x) :: x == y
  {
  }

  lemma SortIsReverse(rows: seq<Message>)
    requires Consecutive(rows)
    ensures Sort(NewerFirst, rows) == Reverse(rows)
  {
    hide Reverse, Sort, Sorted;
    NumberedSorts(rows);
    SortPermutes(NewerFirst, rows);
    SortSorted(NewerFirst, rows);
    ReverseMultiset(rows);
    forall x | x in Sort(NewerFirst, rows)
      ensures x in rows
    {
      SortMember(NewerFirst, rows, x);
    }
    SortedUnique(NewerFirst, Sort(NewerFirst, rows), Reverse(rows));
  }

  /** The newest rows, newest first, are the last rows of the conversation reversed. */
  lemma NewestFirstIsReversedWindow(messages: seq<Message>, conversation: nat, limit: nat)
    requires NumberedFrom1(messages)
    ensures NewestFirst(messages, conversation, limit) == Reverse(Window(messages, conversation, limit))
  {
    hide Reverse, Sort;
    var rows := Filter(OfConversation(conversation), messages);
    SortIsReverse(rows);
    if |rows| > limit {
      assert Reverse(rows)[..limit] == Reverse(rows[|rows| - limit..]);
    }
  }

  lemma {:induction false} FilterReverse<T>(p: T -> bool, s: seq<T>)
    ensures Filter(p, Reverse(s)) == Reverse(Filter(p, s))
  {
    if s == [] {
    } else {
      FilterReverse(p, s[1..]);
      FilterAppend(p, Reverse(s[1..]), [s[0]]);
      assert [s[0]][1..] == [];
      assert ([s[0]] + Filter(p, s[1..]))[1..] == Filter(p, s[1..]);
    }
  }

  lemma {:induction false} CharsAppend(a: seq<Message>, b: seq<Message>)
    ensures Chars(a + b) == Chars(a) + Chars(b)
  {
    if a == [] {
      assert a + b == b;
    } else {
      assert (a + b)[0] == a[0] && (a + b)[1..] == a[1..] + b;
      CharsAppend(a[1..], b);
    }
  }

  lemma {:induction false} CharsReverse(s: seq<Message>)
    ensures Chars(Reverse(s)) == Chars(s)
  {
    if s == [] {
    } else {
      CharsReverse(s[1..]);
      CharsAppend(Reverse(s[1..]), [s[0]]);
      assert [s[0]][1..] == [];
    }
  }

  /** What the loop takes is a prefix of what it is given; it fits, and one message more would not. */
  lemma {:induction false} RecentIsPrefix(s: seq<Message>, total: int, maxChars: int)
    ensures var r := Recent(s, total, maxChars);
            && |r| <= |s| && r == s[..|r|]
            && (r == [] || total + Chars(r) <= maxChars)
            && (|r| < |s| ==> total + Chars(s[..|r| + 1]) > maxChars)
    decreases |s|
  {
    if s != [] && total + |s[0].content| <= maxChars {
      var r := Recent(s[1..], total + |s[0].content|, maxChars);
      RecentIsPrefix(s[1..], total + |s[0].content|, maxChars);
      assert Recent(s, total, maxChars)[1..] == r;
      if |r| + 1 < |s| {
        assert s[..|r| + 2][1..] == s[1..][..|r| + 1];
      }
    } else if s != [] {
      assert s[..1][1..] == [];
    }
  }

  /** A prefix of the reversed list is a suffix of the list, reversed. */
  lemma PrefixOfReverse<T>(s: seq<T>, k: nat)
    requires k <= |s|
    ensures Reverse(s)[..k] == Reverse(s[|s| - k..]) && Reverse(Reverse(s)[..k]) == s[|s| - k..]
  {
    hide Reverse;
    var suffix := s[|s| - k..];
    assert forall i | 0 <= i < k :: suffix[i] == s[|s| - k + i];
  }

  lemma PrefixCharsMonotone(s: seq<Message>, i: nat, j: nat)
    requires i <= j <= |s|
    ensures Chars(s[..i]) <= Chars(s[..j])
  {
    assert s[..j] == s[..i] + s[i..j];
    CharsAppend(s[..i], s[i..j]);
  }

  lemma SuffixChars(s: seq<Message>, k: nat)
    requires k <= |s|
    ensures Chars(s[|s| - k..]) == Chars(Reverse(s)[..k])
  {
    hide Reverse, Chars;
    PrefixOfReverse(s, k);
    CharsReverse(s[|s| - k..]);
  }

  /** The history is, oldest first, the longest suffix of what may leave of the last `limit` messages whose
      total length fits; a provider that is not local gets no S3 or S4 message. */
  lemma HistoryIsLongestSuffix(messages: seq<Message>, conversation: nat, limit: nat, maxChars: int,
                               providerIsLocal: bool)
    requires NumberedFrom1(messages)
    ensures
      var allowed := Filter(MayLeave(providerIsLocal), Window(messages, conversation, limit));
      var history := History(messages, conversation, limit, maxChars, providerIsLocal);
      && |history| <= |allowed| && history == allowed[|allowed| - |history|..]
      && (history == [] || Chars(history) <= maxChars)
      && (forall k | 0 <= k < |allowed| - |history| :: Chars(allowed[k..]) > maxChars)
      && (forall m | m in history :: m.conversation == conversation
                                     && (providerIsLocal || !(m.sensitivity.S3? || m.sensitivity.S4?)))
  {
    hide NumberedFrom1, NewestFirst, Recent, Chars, Reverse, Window, Filter;
    var window := Window(messages, conversation, limit);
    var allowed := Filter(MayLeave(providerIsLocal), window);
    var history := History(messages, conversation, limit, maxChars, providerIsLocal);
    NewestFirstIsReversedWindow(messages, conversation, limit);
    FilterReverse(MayLeave(providerIsLocal), window);
    SuffixThatFits(allowed, maxChars);
    forall m | m in history
      ensures m.conversation == conversation && (providerIsLocal || !(m.sensitivity.S3? || m.sensitivity.S4?))
    {
      assert m in allowed;
      FilterMember(MayLeave(providerIsLocal), window, m);
      WindowMember(messages, conversation, limit, m);
    }
  }

  lemma SuffixThatFits(allowed: seq<Message>, maxChars: int)
    ensures
      var history := Reverse(Recent(Reverse(allowed), 0, maxChars));
      && |history| <= |allowed| && history == allowed[|allowed| - |history|..]
      && (history == [] || Chars(history) <= maxChars)
      && (forall k | 0 <= k < |allowed| - |history| :: Chars(allowed[k..]) > maxChars)
  {
    hide Recent, Chars, Reverse;
    var newest := Reverse(allowed);
    var taken := Recent(newest, 0, maxChars);
    RecentIsPrefix(newest, 0, maxChars);
    PrefixOfReverse(allowed, |taken|);
    CharsReverse(taken);
    forall k | 0 <= k < |allowed| - |taken|
      ensures Chars(allowed[k..]) > maxChars
    {
      SuffixChars(allowed, |allowed| - k);
      PrefixCharsMonotone(newest, |taken| + 1, |allowed| - k);
    }
  }

  lemma WindowMember(messages: seq<Message>, conversation: nat, limit: nat, m: Message)
    requires m in Window(messages, conversation, limit)
    ensures m.conversation == conversation
  {
    FilterMember(OfConversation(conversation), messages, m);
  }
}
