/** The conversation list of ChatPage.jsx (lines 40-71) and the guard in
    front of sending (lines 78-86), built on the message queries as the page
    means them: the messages involving one user, and the messages between
    two users, oldest first. */
module Chat {
  import opened Wrappers
  import opened Entities
  import opened Ranking
  import Seqs
  import Text
  import Queries
  import Database

  /** The other end of a message, seen from `me`. */
  function Counterpart(m: Message, me: string): string {
    if m.fromId == me then m.toId else m.fromId
  }

  function InvolvingFilter(me: string): Queries.MessageFilter {
    Queries.MessageFilter(me, "")
  }

  /** `getMessages({ userId: me })`. */
  function Involving(ms: seq<Message>, me: string): seq<Message> {
    Queries.QueryMessages(ms, InvolvingFilter(me))
  }

  /** `getMessages({ userId: me, otherUserId: other })`. */
  function Between(ms: seq<Message>, me: string, other: string): seq<Message> {
    Queries.QueryMessages(ms, Queries.MessageFilter(me, other))
  }

  /** Some message the involving query selects has `other` at its other end. */
  predicate TalksWith(ms: seq<Message>, me: string, other: string) {
    exists k :: 0 <= k < |ms| && Queries.MessageMatches(ms[k], InvolvingFilter(me)) && Counterpart(ms[k], me) == other
  }

  /** Everyone `me` has exchanged a message with. */
  ghost function Partners(ms: seq<Message>, me: string): set<string> {
    set k | 0 <= k < |ms| && Queries.MessageMatches(ms[k], InvolvingFilter(me)) :: Counterpart(ms[k], me)
  }

  /** `cs` lists the other end of each message the involving query returns. */
  predicate CounterpartsOf(ms: seq<Message>, me: string, cs: seq<string>) {
    var inv := Involving(ms, me);
    |cs| == |inv| && forall i :: 0 <= i < |inv| ==> cs[i] == Counterpart(inv[i], me)
  }

  lemma {:induction false} CounterpartsOfInvolving(ms: seq<Message>, me: string, cs: seq<string>)
    requires CounterpartsOf(ms, me, cs)
    ensures forall id :: id in cs <==> TalksWith(ms, me, id)
  {
    forall id
      ensures id in cs <==> TalksWith(ms, me, id)
    {
      if id in cs {
        var i :| 0 <= i < |cs| && cs[i] == id;
        CounterpartTalks(ms, me, cs, i);
      }
      if TalksWith(ms, me, id) {
        var k :| 0 <= k < |ms| && Queries.MessageMatches(ms[k], InvolvingFilter(me)) && Counterpart(ms[k], me) == id;
        TalkerIsListed(ms, me, cs, k);
      }
    }
  }

  lemma {:induction false} CounterpartTalks(ms: seq<Message>, me: string, cs: seq<string>, i: int)
    requires CounterpartsOf(ms, me, cs) && 0 <= i < |cs|
    ensures TalksWith(ms, me, cs[i])
  {
    var inv := Involving(ms, me);
    var m := inv[i];
    assert multiset(inv)[m] > 0;
    assert m in ms;
    var k :| 0 <= k < |ms| && ms[k] == m;
  }

  lemma {:induction false} TalkerIsListed(ms: seq<Message>, me: string, cs: seq<string>, k: int)
    requires CounterpartsOf(ms, me, cs) && 0 <= k < |ms|
    requires Queries.MessageMatches(ms[k], InvolvingFilter(me))
    ensures Counterpart(ms[k], me) in cs
  {
    var inv := Involving(ms, me);
    assert multiset(ms)[ms[k]] > 0;
    assert ms[k] in inv;
    var i :| 0 <= i < |inv| && inv[i] == ms[k];
    assert cs[i] == Counterpart(ms[k], me);
  }

  /** `Array.from(userIds)`: each partner once, in order of first appearance. */
  function PartnerIds(ms: seq<Message>, me: string): (r: seq<string>)
    ensures Seqs.Distinct(r)
    ensures forall id :: id in r <==> TalksWith(ms, me, id)
  {
    var inv := Involving(ms, me);
    var cs := seq(|inv|, i requires 0 <= i < |inv| => Counterpart(inv[i], me));
    CounterpartsOfInvolving(ms, me, cs);
    Seqs.Dedup(cs)
  }

  /** There are as many partner ids as partners. */
  lemma {:induction false} PartnerIdsCount(ms: seq<Message>, me: string)
    ensures |PartnerIds(ms, me)| == |Partners(ms, me)|
  {
    var r := PartnerIds(ms, me);
    Seqs.DistinctSize(r);
    forall id ensures id in Partners(ms, me) <==> id in r {
      if id in Partners(ms, me) {
        var k :| 0 <= k < |ms| && Queries.MessageMatches(ms[k], InvolvingFilter(me)) && Counterpart(ms[k], me) == id;
        assert TalksWith(ms, me, id);
      }
    }
    assert (set id | id in r) == Partners(ms, me);
  }

  datatype Conversation = Conversation(userId: string, user: Option<User>, lastMessage: Option<Message>, unreadCount: nat)

  predicate UnreadFor(m: Message, me: string) {
    m.toId == me && !m.read
  }

  /** `m => m.toId === me && !m.read`, the filter the unread count uses. */
  function UnreadBy(me: string): Message -> bool {
    (m: Message) => UnreadFor(m, me)
  }

  /** The number of messages in `ms` that are unread messages to `me`,
      counted one by one. */
  function CountUnread(ms: seq<Message>, me: string): (n: nat)
    ensures n <= |ms|
    ensures n == 0 <==> forall i :: 0 <= i < |ms| ==> !UnreadFor(ms[i], me)
    ensures n == |ms| <==> forall i :: 0 <= i < |ms| ==> UnreadFor(ms[i], me)
    decreases |ms|
  {
    if |ms| == 0 then 0
    else
      var rest := CountUnread(ms[1..], me);
      assert forall i :: 1 <= i < |ms| ==> ms[i] == ms[1..][i - 1];
      (if UnreadFor(ms[0], me) then 1 else 0) + rest
  }

  /** Filtering for unread messages keeps exactly as many as `CountUnread`
      counts. */
  lemma {:induction false} FilterCountsUnread(ms: seq<Message>, me: string)
    ensures |Seqs.Filter(ms, UnreadBy(me))| == CountUnread(ms, me)
    ensures CountUnread(ms, me) == 0 <==> forall m :: m in ms ==> !UnreadFor(m, me)
    decreases |ms|
  {
    if |ms| > 0 {
      FilterCountsUnread(ms[1..], me);
    }
  }

  /** In an oldest-first list the last message is a latest one. */
  lemma {:induction false} LastIsLatest(pair: seq<Message>)
    requires |pair| > 0
    requires forall i, k :: 0 <= i < k < |pair| ==> pair[i].createdAt <= pair[k].createdAt
    ensures forall m :: m in pair ==> m.createdAt <= pair[|pair| - 1].createdAt
  {
    forall m | m in pair ensures m.createdAt <= pair[|pair| - 1].createdAt {
      var i :| 0 <= i < |pair| && pair[i] == m;
      if i < |pair| - 1 {
        assert pair[i].createdAt <= pair[|pair| - 1].createdAt;
      }
    }
  }

  /** One entry of the list: the partner's record, the last message between
      the two and how many of those are unread messages to `me`. */
  function Summarize(st: Database.Store, me: string, id: string): (c: Conversation)
    ensures c.userId == id
    ensures c.user == Database.GetUser(st, id)
    ensures c.unreadCount <= |Between(st.messages, me, id)|
    ensures c.unreadCount == CountUnread(Between(st.messages, me, id), me)
    ensures c.unreadCount == 0 <==> forall m :: m in Between(st.messages, me, id) ==> !UnreadFor(m, me)
    ensures c.lastMessage.None? <==> |Between(st.messages, me, id)| == 0
    ensures c.lastMessage.Some? ==>
      && c.lastMessage.value in Between(st.messages, me, id)
      && forall m :: m in Between(st.messages, me, id) ==> m.createdAt <= c.lastMessage.value.createdAt
  {
    var pair := Between(st.messages, me, id);
    var unread := Seqs.Filter(pair, UnreadBy(me));
    FilterCountsUnread(pair, me);
    var last := if |pair| == 0 then None else (LastIsLatest(pair); Some(pair[|pair| - 1]));
    Conversation(id, Database.GetUser(st, id), last, |unread|)
  }

  /** Entries with a last message first, latest first; entries without one last. */
  function ConversationRank(c: Conversation): Rank {
    match c.lastMessage
    case None => Rank(0, 0)
    case Some(m) => Rank(1, m.createdAt)
  }

  lemma {:induction false} SortedKeepsIdsDistinct(st: Database.Store, me: string, u: seq<Conversation>, r: seq<Conversation>)
    requires multiset(r) == multiset(u)
    requires forall i :: 0 <= i < |u| ==> u[i] == Summarize(st, me, u[i].userId)
    requires forall i, k :: 0 <= i < k < |u| ==> u[i].userId != u[k].userId
    ensures forall i :: 0 <= i < |r| ==> r[i] == Summarize(st, me, r[i].userId)
    ensures forall i, k :: 0 <= i < k < |r| ==> r[i].userId != r[k].userId
  {
    forall i | 0 <= i < |r| ensures r[i] == Summarize(st, me, r[i].userId) {
      assert r[i] in multiset(u);
    }
    assert Seqs.Distinct(u);
    forall i, k | 0 <= i < k < |r| ensures r[i].userId != r[k].userId {
      if r[i].userId == r[k].userId {
        assert r[i] == r[k];
        Seqs.TwiceCountsTwice(r, i, k);
        Seqs.DistinctCountsOnce(u, r[i]);
      }
    }
  }

  /** `loadConversations`: one entry per partner, ordered by the time of the
      last message, latest first. */
  function Conversations(st: Database.Store, me: string): (r: seq<Conversation>)
    ensures forall i :: 0 <= i < |r| ==> r[i] == Summarize(st, me, r[i].userId)
    ensures forall i, k :: 0 <= i < k < |r| ==> r[i].userId != r[k].userId
    ensures forall id :: (exists i :: 0 <= i < |r| && r[i].userId == id) <==> TalksWith(st.messages, me, id)
    ensures |r| == |PartnerIds(st.messages, me)|
    ensures SortedBy(r, ConversationRank)
  {
    var ids := PartnerIds(st.messages, me);
    var u := seq(|ids|, i requires 0 <= i < |ids| => Summarize(st, me, ids[i]));
    var r := Sort(u, ConversationRank);
    ConversationsFacts(st, me, ids, u, r);
    r
  }

  lemma {:induction false} ConversationsFacts(st: Database.Store, me: string, ids: seq<string>, u: seq<Conversation>, r: seq<Conversation>)
    requires ids == PartnerIds(st.messages, me)
    requires |u| == |ids| && forall i :: 0 <= i < |u| ==> u[i] == Summarize(st, me, ids[i])
    requires multiset(r) == multiset(u)
    ensures forall i :: 0 <= i < |r| ==> r[i] == Summarize(st, me, r[i].userId)
    ensures forall i, k :: 0 <= i < k < |r| ==> r[i].userId != r[k].userId
    ensures forall id :: (exists i :: 0 <= i < |r| && r[i].userId == id) <==> TalksWith(st.messages, me, id)
  {
    assert forall i :: 0 <= i < |u| ==> u[i].userId == ids[i];
    forall i, k | 0 <= i < k < |u| ensures u[i].userId != u[k].userId {
      assert ids[i] != ids[k];
    }
    SortedKeepsIdsDistinct(st, me, u, r);
    ConversationIdsArePartners(ids, u, r);
  }

  lemma {:induction false} ConversationIdsArePartners(ids: seq<string>, u: seq<Conversation>, r: seq<Conversation>)
    requires |u| == |ids| && forall i :: 0 <= i < |u| ==> u[i].userId == ids[i]
    requires multiset(r) == multiset(u)
    ensures forall id :: (exists i :: 0 <= i < |r| && r[i].userId == id) <==> id in ids
  {
    forall id ensures (exists i :: 0 <= i < |r| && r[i].userId == id) <==> id in ids {
      if exists i :: 0 <= i < |r| && r[i].userId == id {
        var i :| 0 <= i < |r| && r[i].userId == id;
        assert r[i] in multiset(u);
        var k :| 0 <= k < |u| && u[k] == r[i];
        assert ids[k] == id;
      }
      if id in ids {
        var k :| 0 <= k < |ids| && ids[k] == id;
        assert u[k] in multiset(r);
        var i :| 0 <= i < |r| && r[i] == u[k];
        assert r[i].userId == id;
      }
    }
  }

  /** The list has one entry per partner. */
  lemma {:induction false} ConversationCount(st: Database.Store, me: string)
    ensures |Conversations(st, me)| == |Partners(st.messages, me)|
  {
    PartnerIdsCount(st.messages, me);
  }

  /** Entries with a last message come first, the latest first. */
  lemma {:induction false} ConversationOrder(st: Database.Store, me: string)
    ensures var r := Conversations(st, me);
      forall i, k :: 0 <= i < k < |r| && r[k].lastMessage.Some? ==>
        r[i].lastMessage.Some? && r[i].lastMessage.value.createdAt >= r[k].lastMessage.value.createdAt
  {
    var r := Conversations(st, me);
    forall i, k | 0 <= i < k < |r| && r[k].lastMessage.Some?
      ensures r[i].lastMessage.Some? && r[i].lastMessage.value.createdAt >= r[k].lastMessage.value.createdAt
    {
      assert AtLeast(ConversationRank(r[i]), ConversationRank(r[k]));
    }
  }

  /** A partner always has a message in the pair query, so every entry has
      a last message. */
  lemma {:induction false} PartnerHasLastMessage(st: Database.Store, me: string, id: string)
    requires TalksWith(st.messages, me, id)
    ensures Summarize(st, me, id).lastMessage.Some?
  {
    var ms := st.messages;
    var k :| 0 <= k < |ms| && Queries.MessageMatches(ms[k], InvolvingFilter(me)) && Counterpart(ms[k], me) == id;
    assert Queries.MessageMatches(ms[k], Queries.MessageFilter(me, id));
    assert multiset(ms)[ms[k]] > 0;
    assert multiset(Between(ms, me, id))[ms[k]] > 0;
  }

  lemma {:induction false} EveryEntryHasLastMessage(st: Database.Store, me: string)
    ensures var r := Conversations(st, me);
      forall i :: 0 <= i < |r| ==> r[i].lastMessage.Some?
  {
    var r := Conversations(st, me);
    forall i | 0 <= i < |r| ensures r[i].lastMessage.Some? {
      assert TalksWith(st.messages, me, r[i].userId);
      PartnerHasLastMessage(st, me, r[i].userId);
    }
  }

  /** Once the messages to `me` are all read, no entry counts any unread. */
  lemma {:induction false} AllReadMeansNoUnread(st: Database.Store, me: string, id: string)
    requires forall k :: 0 <= k < |st.messages| && st.messages[k].toId == me ==> st.messages[k].read
    ensures Summarize(st, me, id).unreadCount == 0
  {
    var pair := Between(st.messages, me, id);
    var unread := Seqs.Filter(pair, UnreadBy(me));
    forall m ensures multiset(unread)[m] == 0 {
      if UnreadFor(m, me) {
        assert m !in st.messages;
      }
    }
    Seqs.NothingCounted(unread);
  }

  /** Selecting a conversation marks the messages read. The list on screen
      keeps its old counts (the selection does not reload it); the next time
      the list is loaded, every entry shows 0 unread. */
  lemma {:induction false} SelectingClearsUnread(st: Database.Store, me: string, other: string)
    requires Database.MessageIdsUnique(st.messages)
    ensures var r := Conversations(Database.MarkMessagesAsRead(st, me, other), me);
      forall i :: 0 <= i < |r| ==> r[i].unreadCount == 0
  {
    var st1 := Database.MarkMessagesAsRead(st, me, other);
    Database.MarkMessagesAsReadMonotone(st, me, other);
    var r := Conversations(st1, me);
    forall i | 0 <= i < |r| ensures r[i].unreadCount == 0 {
      AllReadMeansNoUnread(st1, me, r[i].userId);
    }
  }

  /** `handleSendMessage`: nothing is sent when the text is blank or no
      partner is selected; otherwise one message with the trimmed text. */
  function SendMessage(st: Database.Store, id: string, now: int, me: string, selected: string, text: string): (r: Database.Store)
    ensures Text.AllSpace(text) || selected == "" ==> r == st
    ensures !Text.AllSpace(text) && selected != "" ==>
      && r == st.(messages := r.messages)
      && |r.messages| == |st.messages| + 1
      && r.messages[..|st.messages|] == st.messages
      && var m := r.messages[|st.messages|];
         && m.fromId == me && m.toId == selected && m.jobId.None? && !m.read
         && m.text == Text.Trim(text) && m.text != "" && Text.Trimmed(m.text)
  {
    var body := Text.Trim(text);
    if body == "" || selected == "" then st
    else Database.CreateMessage(st, id, now, me, selected, body, None).store
  }
}
