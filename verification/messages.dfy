/** User-to-user messaging: the inbox that groups a user's messages into
    one thread per correspondent, the conversation page that sends a reply
    and marks the conversation read, the quick-send endpoint, and message
    reports.

    The messages table is a sequence in insertion order; a user is looked up
    with `FindUser`.
 */
module Messages {
  import opened Base
  import opened PyText
  import opened Models
  import opened Sorting

  datatype Message = Message(
    id: int,
    threadId: Option<int>,
    senderId: int,
    receiverId: int,
    content: string,
    isRead: bool,
    timestamp: int)

  /** The correspondent of `me` in a message: the receiver of what `me` sent,
      the sender of anything else. */
  function Other(m: Message, me: int): int
  {
    if m.senderId == me then m.receiverId else m.senderId
  }

  /** The test "this message belongs to the thread with `uid`". */
  function With(me: int, uid: int): Message -> bool
  {
    (m: Message) => Other(m, me) == uid
  }

  /** A message `me` received and has not read. */
  predicate Unread(m: Message, me: int)
  {
    m.receiverId == me && !m.isRead
  }

  /** How many of the messages `me` has received and not read. */
  function UnreadCount(ms: seq<Message>, me: int): (n: nat)
    ensures n <= |ms|
    ensures n == 0 <==> forall i :: 0 <= i < |ms| ==> !Unread(ms[i], me)
  {
    if |ms| == 0 then 0
    else UnreadCount(ms[..|ms| - 1], me) + (if Unread(ms[|ms| - 1], me) then 1 else 0)
  }

  lemma UnreadCountSnoc(ms: seq<Message>, m: Message, me: int)
    ensures UnreadCount(ms + [m], me) == UnreadCount(ms, me) + (if Unread(m, me) then 1 else 0)
  {
    assert (ms + [m])[..|ms|] == ms;
  }

  // ---- the inbox ----

  /** One inbox entry: the correspondent, the messages exchanged, and how
      many of them are unread. */
  datatype Thread = Thread(user: User, messages: seq<Message>, unread: nat)

  /** The position of the thread with `uid`, if there is one. */
  function FindThread(ts: seq<Thread>, uid: int): (r: Option<nat>)
    ensures r.Some? ==> r.value < |ts| && ts[r.value].user.id == uid
    ensures r.None? ==> forall i :: 0 <= i < |ts| ==> ts[i].user.id != uid
  {
    if |ts| == 0 then None
    else if ts[|ts| - 1].user.id == uid then Some(|ts| - 1)
    else FindThread(ts[..|ts| - 1], uid)
  }

  function Flag(b: bool): nat
  {
    if b then 1 else 0
  }

  /** One turn of the grouping loop: the message joins its correspondent's
      thread, opens a new thread when the correspondent is a user, or is
      dropped. */
  function Step(ts: seq<Thread>, m: Message, me: int, users: seq<User>): seq<Thread>
  {
    var uid := Other(m, me);
    match FindThread(ts, uid)
    case Some(k) => ts[k := Joined(ts[k], m, me)]
    case None =>
      match FindUser(users, uid)
      case None => ts
      case Some(u) => ts + [Thread(u, [m], Flag(Unread(m, me)))]
  }

  /** The threads in the order their first message appears. */
  function Group(all: seq<Message>, me: int, users: seq<User>): (ts: seq<Thread>)
    ensures Grouped(ts, all, me, users)
  {
    if |all| == 0 then []
    else
      GroupStep(Group(all[..|all| - 1], me, users), all, me, users);
      Step(Group(all[..|all| - 1], me, users), all[|all| - 1], me, users)
  }

  /** The total of the threads' unread counts. */
  function SumUnread(ts: seq<Thread>): nat
  {
    if |ts| == 0 then 0 else ts[0].unread + SumUnread(ts[1..])
  }

  /** The unread messages whose correspondent is a user: those the inbox counts. */
  function KeptUnread(all: seq<Message>, me: int, users: seq<User>): nat
  {
    if |all| == 0 then 0
    else
      var m := all[|all| - 1];
      KeptUnread(all[..|all| - 1], me, users) + Flag(Unread(m, me) && FindUser(users, Other(m, me)).Some?)
  }

  /** Threads belong to distinct users, each of them found by its key. */
  predicate Keyed(ts: seq<Thread>, users: seq<User>)
  {
    && (forall i, j :: 0 <= i < j < |ts| ==> ts[i].user.id != ts[j].user.id)
    && (forall i :: 0 <= i < |ts| ==> FindUser(users, ts[i].user.id) == Some(ts[i].user))
  }

  /** Each thread holds exactly the messages `seen` exchanged with its user,
      in order, at least one, and counts the unread ones. */
  predicate Holding(ts: seq<Thread>, seen: seq<Message>, me: int)
  {
    && (forall i :: 0 <= i < |ts| ==> ts[i].messages == Filter(seen, With(me, ts[i].user.id)))
    && (forall i :: 0 <= i < |ts| ==> |ts[i].messages| > 0)
    && (forall i :: 0 <= i < |ts| ==> ts[i].unread == UnreadCount(ts[i].messages, me))
  }

  /** Every message whose correspondent is a user has its thread. */
  predicate Covering(ts: seq<Thread>, seen: seq<Message>, me: int, users: seq<User>)
  {
    forall j :: 0 <= j < |seen| && FindUser(users, Other(seen[j], me)).Some? ==>
      FindThread(ts, Other(seen[j], me)).Some?
  }

  /** What the grouping loop keeps true of the threads built from the
      messages `seen` so far. */
  predicate Grouped(ts: seq<Thread>, seen: seq<Message>, me: int, users: seq<User>)
  {
    && Keyed(ts, users)
    && Holding(ts, seen, me)
    && Covering(ts, seen, me, users)
    && SumUnread(ts) == KeptUnread(seen, me, users)
  }

  lemma {:induction false} SumUnreadAppend(ts: seq<Thread>, t: Thread)
    ensures SumUnread(ts + [t]) == SumUnread(ts) + t.unread
    decreases |ts|
  {
    if |ts| == 0 {
      assert [t][1..] == [];
    } else {
      assert (ts + [t])[1..] == ts[1..] + [t];
      SumUnreadAppend(ts[1..], t);
    }
  }

  lemma {:induction false} SumUnreadUpdate(ts: seq<Thread>, k: nat, t: Thread)
    requires k < |ts|
    ensures SumUnread(ts[k := t]) + ts[k].unread == SumUnread(ts) + t.unread
    decreases |ts|
  {
    if k > 0 {
      assert ts[k := t][1..] == ts[1..][k - 1 := t];
      SumUnreadUpdate(ts[1..], k - 1, t);
    } else {
      assert ts[k := t][1..] == ts[1..];
    }
  }

  lemma KeptUnreadSnoc(seen: seq<Message>, m: Message, me: int, users: seq<User>)
    ensures KeptUnread(seen + [m], me, users)
      == KeptUnread(seen, me, users) + Flag(Unread(m, me) && FindUser(users, Other(m, me)).Some?)
  {
    assert (seen + [m])[..|seen|] == seen;
  }

  /** A message whose correspondent has a thread joins that thread. */
  lemma StepJoins(ts: seq<Thread>, m: Message, me: int, users: seq<User>, k: nat)
    requires FindThread(ts, Other(m, me)) == Some(k)
    ensures Step(ts, m, me, users) == ts[k := Joined(ts[k], m, me)]
  {
  }

  lemma StepOpens(ts: seq<Thread>, m: Message, me: int, users: seq<User>, u: User)
    requires FindThread(ts, Other(m, me)).None? && FindUser(users, Other(m, me)) == Some(u)
    ensures Step(ts, m, me, users) == ts + [Thread(u, [m], Flag(Unread(m, me)))]
  {
  }

  /** The thread with the same user after one more message. */
  function Joined(t: Thread, m: Message, me: int): Thread
  {
    Thread(t.user, t.messages + [m], t.unread + Flag(Unread(m, me)))
  }

  lemma JoinHolding(ts: seq<Thread>, seen: seq<Message>, m: Message, me: int, users: seq<User>, k: nat)
    requires Keyed(ts, users) && Holding(ts, seen, me)
    requires k < |ts| && ts[k].user.id == Other(m, me)
    ensures Holding(ts[k := Joined(ts[k], m, me)], seen + [m], me)
  {
    var ts' := ts[k := Joined(ts[k], m, me)];
    forall i | 0 <= i < |ts'|
      ensures ts'[i].messages == Filter(seen + [m], With(me, ts'[i].user.id))
      ensures |ts'[i].messages| > 0 && ts'[i].unread == UnreadCount(ts'[i].messages, me)
    {
      var t := ts[i];
      assert i != k ==> t.user.id != ts[k].user.id;
      JoinThread(t, seen, m, me, i == k);
      assert ts'[i] == if i == k then Joined(t, m, me) else t;
    }
  }

  /** One thread after the loop's turn, whether or not the message joins it:
      it still holds exactly its correspondent's messages and counts the unread ones. */
  lemma JoinThread(t: Thread, seen: seq<Message>, m: Message, me: int, joins: bool)
    requires t.messages == Filter(seen, With(me, t.user.id))
    requires |t.messages| > 0 && t.unread == UnreadCount(t.messages, me)
    requires joins <==> Other(m, me) == t.user.id
    ensures (if joins then Joined(t, m, me) else t).messages == Filter(seen + [m], With(me, t.user.id))
    ensures |(if joins then Joined(t, m, me) else t).messages| > 0
    ensures (if joins then Joined(t, m, me) else t).unread
      == UnreadCount((if joins then Joined(t, m, me) else t).messages, me)
  {
    FilterSnoc(seen, m, With(me, t.user.id));
    UnreadCountSnoc(t.messages, m, me);
  }

  lemma JoinCovering(ts: seq<Thread>, seen: seq<Message>, m: Message, me: int, users: seq<User>, k: nat)
    requires Covering(ts, seen, me, users)
    requires k < |ts| && ts[k].user.id == Other(m, me)
    ensures Covering(ts[k := Joined(ts[k], m, me)], seen + [m], me, users)
  {
    var ts' := ts[k := Joined(ts[k], m, me)];
    forall j | 0 <= j < |seen + [m]| && FindUser(users, Other((seen + [m])[j], me)).Some?
      ensures FindThread(ts', Other((seen + [m])[j], me)).Some?
    {
      var x := Other((seen + [m])[j], me);
      if j < |seen| {
        assert (seen + [m])[j] == seen[j];
        var i := FindThread(ts, x).value;
        assert ts'[i].user.id == x;
      } else {
        assert ts'[k].user.id == x;
      }
    }
  }

  /** The message joins the existing thread at `k`. */
  lemma JoinKeepsGrouped(ts: seq<Thread>, seen: seq<Message>, m: Message, me: int, users: seq<User>, k: nat)
    requires Grouped(ts, seen, me, users)
    requires k < |ts| && ts[k].user.id == Other(m, me)
    ensures Grouped(ts[k := Joined(ts[k], m, me)], seen + [m], me, users)
  {
    JoinHolding(ts, seen, m, me, users, k);
    JoinCovering(ts, seen, m, me, users, k);
    JoinKeyed(ts, seen, m, me, users, k);
  }

  lemma JoinKeyed(ts: seq<Thread>, seen: seq<Message>, m: Message, me: int, users: seq<User>, k: nat)
    requires Keyed(ts, users) && SumUnread(ts) == KeptUnread(seen, me, users)
    requires k < |ts| && ts[k].user.id == Other(m, me)
    ensures Keyed(ts[k := Joined(ts[k], m, me)], users)
    ensures SumUnread(ts[k := Joined(ts[k], m, me)]) == KeptUnread(seen + [m], me, users)
  {
    var ts' := ts[k := Joined(ts[k], m, me)];
    assert forall i :: 0 <= i < |ts| ==> ts'[i].user == ts[i].user;
    SumUnreadUpdate(ts, k, Joined(ts[k], m, me));
    KeptUnreadSnoc(seen, m, me, users);
  }

  /** No message seen so far is exchanged with a user who has no thread. */
  lemma NoEarlierMessages(ts: seq<Thread>, seen: seq<Message>, me: int, users: seq<User>, uid: int)
    requires Covering(ts, seen, me, users)
    requires FindThread(ts, uid).None? && FindUser(users, uid).Some?
    ensures Filter(seen, With(me, uid)) == []
  {
    forall j | 0 <= j < |seen|
      ensures !With(me, uid)(seen[j])
    {
      assert FindUser(users, Other(seen[j], me)).Some? ==> FindThread(ts, Other(seen[j], me)).Some?;
    }
    FilterNone(seen, With(me, uid));
  }

  lemma OpenHolding(ts: seq<Thread>, seen: seq<Message>, m: Message, me: int, u: User)
    requires Holding(ts, seen, me)
    requires forall i :: 0 <= i < |ts| ==> ts[i].user.id != u.id
    requires u.id == Other(m, me) && Filter(seen, With(me, u.id)) == []
    ensures Holding(ts + [Thread(u, [m], Flag(Unread(m, me)))], seen + [m], me)
  {
    var started := Thread(u, [m], Flag(Unread(m, me)));
    var ts' := ts + [started];
    forall i | 0 <= i < |ts'|
      ensures ts'[i].messages == Filter(seen + [m], With(me, ts'[i].user.id))
      ensures |ts'[i].messages| > 0 && ts'[i].unread == UnreadCount(ts'[i].messages, me)
    {
      if i < |ts| {
        assert ts'[i] == ts[i];
        JoinThread(ts[i], seen, m, me, false);
      } else {
        assert ts'[i] == started;
        OpenThread(seen, m, me, u);
      }
    }
  }

  /** The thread a message opens holds just that message and counts it if unread. */
  lemma OpenThread(seen: seq<Message>, m: Message, me: int, u: User)
    requires u.id == Other(m, me) && Filter(seen, With(me, u.id)) == []
    ensures [m] == Filter(seen + [m], With(me, u.id))
    ensures Flag(Unread(m, me)) == UnreadCount([m], me)
  {
    FilterSnoc(seen, m, With(me, u.id));
    UnreadCountSnoc([], m, me);
    assert [] + [m] == [m];
  }

  lemma OpenCovering(ts: seq<Thread>, seen: seq<Message>, m: Message, me: int, users: seq<User>, u: User)
    requires Covering(ts, seen, me, users) && u.id == Other(m, me)
    ensures Covering(ts + [Thread(u, [m], Flag(Unread(m, me)))], seen + [m], me, users)
  {
    var ts' := ts + [Thread(u, [m], Flag(Unread(m, me)))];
    forall j | 0 <= j < |seen + [m]| && FindUser(users, Other((seen + [m])[j], me)).Some?
      ensures FindThread(ts', Other((seen + [m])[j], me)).Some?
    {
      var x := Other((seen + [m])[j], me);
      if j < |seen| {
        assert (seen + [m])[j] == seen[j];
        var i := FindThread(ts, x).value;
        assert ts'[i].user.id == x;
      } else {
        assert ts'[|ts|].user.id == x;
      }
    }
  }

  /** The message opens a thread with user `u`. */
  lemma OpenKeepsGrouped(ts: seq<Thread>, seen: seq<Message>, m: Message, me: int, users: seq<User>, u: User)
    requires Grouped(ts, seen, me, users)
    requires FindThread(ts, Other(m, me)).None? && FindUser(users, Other(m, me)) == Some(u)
    ensures Grouped(ts + [Thread(u, [m], Flag(Unread(m, me)))], seen + [m], me, users)
  {
    NoEarlierMessages(ts, seen, me, users, u.id);
    OpenHolding(ts, seen, m, me, u);
    OpenCovering(ts, seen, m, me, users, u);
    OpenKeyed(ts, seen, m, me, users, u);
  }

  lemma OpenKeyed(ts: seq<Thread>, seen: seq<Message>, m: Message, me: int, users: seq<User>, u: User)
    requires Keyed(ts, users) && SumUnread(ts) == KeptUnread(seen, me, users)
    requires FindThread(ts, Other(m, me)).None? && FindUser(users, Other(m, me)) == Some(u)
    ensures Keyed(ts + [Thread(u, [m], Flag(Unread(m, me)))], users)
    ensures SumUnread(ts + [Thread(u, [m], Flag(Unread(m, me)))]) == KeptUnread(seen + [m], me, users)
  {
    SumUnreadAppend(ts, Thread(u, [m], Flag(Unread(m, me))));
    KeptUnreadSnoc(seen, m, me, users);
  }

  /** The message's correspondent is not a user: it is dropped. */
  lemma DropKeepsGrouped(ts: seq<Thread>, seen: seq<Message>, m: Message, me: int, users: seq<User>)
    requires Grouped(ts, seen, me, users)
    requires FindThread(ts, Other(m, me)).None? && FindUser(users, Other(m, me)).None?
    ensures Grouped(Step(ts, m, me, users), seen + [m], me, users)
  {
    assert Step(ts, m, me, users) == ts;
    forall i | 0 <= i < |ts|
      ensures ts[i].messages == Filter(seen + [m], With(me, ts[i].user.id))
    {
      FilterSnoc(seen, m, With(me, ts[i].user.id));
    }
    forall j | 0 <= j < |seen + [m]| && FindUser(users, Other((seen + [m])[j], me)).Some?
      ensures FindThread(ts, Other((seen + [m])[j], me)).Some?
    {
      assert j < |seen| && (seen + [m])[j] == seen[j];
    }
    KeptUnreadSnoc(seen, m, me, users);
  }

  lemma StepKeepsGrouped(ts: seq<Thread>, seen: seq<Message>, m: Message, me: int, users: seq<User>)
    requires Grouped(ts, seen, me, users)
    ensures Grouped(Step(ts, m, me, users), seen + [m], me, users)
  {
    var uid := Other(m, me);
    match FindThread(ts, uid)
    case Some(k) =>
      StepJoins(ts, m, me, users, k);
      JoinKeepsGrouped(ts, seen, m, me, users, k);
    case None =>
      match FindUser(users, uid)
      case None => DropKeepsGrouped(ts, seen, m, me, users);
      case Some(u) =>
        StepOpens(ts, m, me, users, u);
        OpenKeepsGrouped(ts, seen, m, me, users, u);
  }

  /** One more turn of the loop over a non-empty message list. */
  lemma {:induction false} GroupStep(ts: seq<Thread>, all: seq<Message>, me: int, users: seq<User>)
    requires |all| > 0 && Grouped(ts, all[..|all| - 1], me, users)
    ensures Grouped(Step(ts, all[|all| - 1], me, users), all, me, users)
  {
    SplitLast(all);
    StepKeepsGrouped(ts, all[..|all| - 1], all[|all| - 1], me, users);
  }

  /** `SUM(unread)` does not depend on the order of the threads. */
  lemma {:induction false} SumUnreadInsert(x: Thread, s: seq<Thread>, key: Thread -> int)
    requires SortedBy(s, key)
    ensures SumUnread(Insert(x, s, key)) == x.unread + SumUnread(s)
    decreases |s|
  {
    if |s| == 0 || key(x) <= key(s[0]) {
      assert Insert(x, s, key)[1..] == s;
    } else {
      assert SortedBy(s[1..], key);
      SumUnreadInsert(x, s[1..], key);
      assert Insert(x, s, key)[1..] == Insert(x, s[1..], key);
    }
  }

  lemma {:induction false} SumUnreadSort(s: seq<Thread>, key: Thread -> int)
    ensures SumUnread(SortBy(s, key)) == SumUnread(s)
    decreases |s|
  {
    if |s| > 0 {
      SumUnreadSort(s[1..], key);
      SumUnreadInsert(s[0], SortBy(s[1..], key), key);
    }
  }

  lemma {:induction false} SumUnreadSameCounts(a: seq<Thread>, b: seq<Thread>)
    requires |a| == |b| && forall i :: 0 <= i < |a| ==> a[i].unread == b[i].unread
    ensures SumUnread(a) == SumUnread(b)
    decreases |a|
  {
    if |a| > 0 {
      SumUnreadSameCounts(a[1..], b[1..]);
    }
  }

  /** Sort key for newest first. */
  function NewestKey(m: Message): int
  {
    -m.timestamp
  }

  /** Stands in for `datetime.min`, the key of a thread without messages. */
  const DateMin: int := -1_000_000_000

  /** The timestamp a thread is ordered by: that of its first message. */
  function Latest(t: Thread): int
  {
    if |t.messages| > 0 then t.messages[0].timestamp else DateMin
  }

  function LatestKey(t: Thread): int
  {
    -Latest(t)
  }

  /** The thread with its messages newest first. */
  function Ordered(t: Thread): (r: Thread)
    ensures r.user == t.user && r.unread == t.unread
    ensures |r.messages| == |t.messages| && multiset(r.messages) == multiset(t.messages)
    ensures SortedBy(r.messages, NewestKey)
  {
    Thread(t.user, SortBy(t.messages, NewestKey), t.unread)
  }

  function OrderEach(ts: seq<Thread>): (r: seq<Thread>)
    ensures |r| == |ts| && forall i :: 0 <= i < |ts| ==> r[i] == Ordered(ts[i])
  {
    seq(|ts|, i requires 0 <= i < |ts| => Ordered(ts[i]))
  }

  /** `get_user_messages(me, sent)`: the messages `me` sent (or received), newest first. */
  function SentBy(table: seq<Message>, me: int): seq<Message>
  {
    SortBy(Filter(table, (m: Message) => m.senderId == me), NewestKey)
  }

  function ReceivedBy(table: seq<Message>, me: int): seq<Message>
  {
    SortBy(Filter(table, (m: Message) => m.receiverId == me), NewestKey)
  }

  /** What the inbox loops over: the sent messages, then the received ones.
      A message `me` sent to `me` is in both. */
  function InboxMessages(table: seq<Message>, me: int): seq<Message>
  {
    SentBy(table, me) + ReceivedBy(table, me)
  }

  datatype Inbox = Inbox(threads: seq<Thread>, totalUnread: nat)

  /** The grouped threads with their messages newest first, most recent thread first. */
  function Arrange(grouped: seq<Thread>): seq<Thread>
  {
    SortBy(OrderEach(grouped), LatestKey)
  }

  /** An inbox entry for the messages `all`: its user exists, it holds
      exactly the messages exchanged with that user, newest first, and counts
      the unread ones among them. */
  predicate Lists(t: Thread, all: seq<Message>, me: int, users: seq<User>)
  {
    && FindUser(users, t.user.id) == Some(t.user)
    && multiset(t.messages) == multiset(Filter(all, With(me, t.user.id)))
    && t.unread == UnreadCount(Filter(all, With(me, t.user.id)), me)
    && |t.messages| > 0 && SortedBy(t.messages, NewestKey)
  }

  /** Every message whose correspondent is a user has an entry for that user. */
  predicate Covers(threads: seq<Thread>, all: seq<Message>, me: int, users: seq<User>)
  {
    forall j :: 0 <= j < |all| && FindUser(users, Other(all[j], me)).Some? ==>
      exists i :: 0 <= i < |threads| && threads[i].user.id == Other(all[j], me)
  }

  /** Each arranged thread is a grouped thread with its messages reordered. */
  lemma ArrangedThreads(grouped: seq<Thread>, all: seq<Message>, me: int, users: seq<User>)
    requires Grouped(grouped, all, me, users)
    ensures forall i :: 0 <= i < |Arrange(grouped)| ==> Lists(Arrange(grouped)[i], all, me, users)
  {
    var each := OrderEach(grouped);
    forall i | 0 <= i < |Arrange(grouped)|
      ensures Lists(Arrange(grouped)[i], all, me, users)
    {
      assert Arrange(grouped)[i] in multiset(each);
      var k :| 0 <= k < |each| && each[k] == Arrange(grouped)[i];
    }
  }

  /** Every message with a user for a correspondent is listed under that user. */
  lemma ArrangedCovers(grouped: seq<Thread>, all: seq<Message>, me: int, users: seq<User>)
    requires Grouped(grouped, all, me, users)
    ensures Covers(Arrange(grouped), all, me, users)
  {
    var each := OrderEach(grouped);
    forall j | 0 <= j < |all| && FindUser(users, Other(all[j], me)).Some?
      ensures exists i :: 0 <= i < |Arrange(grouped)| && Arrange(grouped)[i].user.id == Other(all[j], me)
    {
      var k := FindThread(grouped, Other(all[j], me)).value;
      assert each[k] in multiset(Arrange(grouped));
      var i :| 0 <= i < |Arrange(grouped)| && Arrange(grouped)[i] == each[k];
    }
  }

  /** The arranged threads still belong to distinct users. */
  lemma ArrangedDistinct(grouped: seq<Thread>, users: seq<User>)
    requires Keyed(grouped, users)
    ensures forall i, j :: 0 <= i < j < |Arrange(grouped)| ==> Arrange(grouped)[i].user.id != Arrange(grouped)[j].user.id
  {
    var each := OrderEach(grouped);
    forall i, j | 0 <= i < j < |each|
      ensures UserKey(each[i]) != UserKey(each[j])
    {
      assert each[i].user == grouped[i].user && each[j].user == grouped[j].user;
    }
    DistinctKeysPermute(each, Arrange(grouped), UserKey);
  }

  /** A thread's key: its correspondent's id. */
  function UserKey(t: Thread): int
  {
    t.user.id
  }

  lemma ArrangedSum(grouped: seq<Thread>)
    ensures SumUnread(Arrange(grouped)) == SumUnread(grouped)
  {
    SumUnreadSort(OrderEach(grouped), LatestKey);
    SumUnreadSameCounts(OrderEach(grouped), grouped);
  }

  /** The messages page: the threads, most recent first, each with its
      messages newest first, and the total of their unread counts. */
  function InboxOf(table: seq<Message>, me: int, users: seq<User>): (r: Inbox)
    ensures r.totalUnread == KeptUnread(InboxMessages(table, me), me, users)
    ensures SortedBy(r.threads, LatestKey)
    ensures forall i :: 0 <= i < |r.threads| ==> Lists(r.threads[i], InboxMessages(table, me), me, users)
    ensures Covers(r.threads, InboxMessages(table, me), me, users)
    ensures forall i, j :: 0 <= i < j < |r.threads| ==> r.threads[i].user.id != r.threads[j].user.id
    ensures r.totalUnread == SumUnread(r.threads)
  {
    var all := InboxMessages(table, me);
    var grouped := Group(all, me, users);
    ArrangedSum(grouped);
    ArrangedThreads(grouped, all, me, users);
    ArrangedCovers(grouped, all, me, users);
    ArrangedDistinct(grouped, users);
    Inbox(Arrange(grouped), SumUnread(Arrange(grouped)))
  }

  /** A message's timestamp is never later than its thread's. */
  lemma LatestIsNewest(t: Thread, j: nat)
    requires SortedBy(t.messages, NewestKey) && j < |t.messages|
    ensures t.messages[j].timestamp <= Latest(t)
  {
    assert NewestKey(t.messages[0]) <= NewestKey(t.messages[j]);
  }

  lemma FilterSingleton<T>(x: T, p: T -> bool)
    requires p(x)
    ensures Filter([x], p) == [x]
  {
    assert [x][1..] == [];
  }

  lemma SortSingleton<T>(x: T, key: T -> int)
    ensures SortBy([x], key) == [x]
  {
    assert [x][1..] == [];
  }

  /** A message from `me` to `me` is both sent and received. */
  lemma SelfMessageListedTwice(m: Message, me: int)
    requires m.senderId == me && m.receiverId == me
    ensures InboxMessages([m], me) == [m, m]
  {
    FilterSingleton(m, (x: Message) => x.senderId == me);
    FilterSingleton(m, (x: Message) => x.receiverId == me);
    SortSingleton(m, NewestKey);
  }

  /** An unread message a user sent to themselves is counted twice. */
  lemma SelfMessageCountedTwice(m: Message, me: int, users: seq<User>)
    requires m.senderId == me && m.receiverId == me && !m.isRead && FindUser(users, me).Some?
    ensures InboxOf([m], me, users).totalUnread == 2
  {
    SelfMessageListedTwice(m, me);
    KeptTwice(m, me, users);
    InboxTotal([m], me, users, [m, m], 2);
  }

  lemma KeptTwice(m: Message, me: int, users: seq<User>)
    requires Unread(m, me) && FindUser(users, Other(m, me)).Some?
    ensures KeptUnread([m, m], me, users) == 2
  {
    KeptUnreadSnoc([m], m, me, users);
    KeptUnreadSnoc([], m, me, users);
    assert [] + [m] == [m] && [m] + [m] == [m, m];
  }

  lemma InboxTotal(table: seq<Message>, me: int, users: seq<User>, all: seq<Message>, n: nat)
    requires InboxMessages(table, me) == all && KeptUnread(all, me, users) == n
    ensures InboxOf(table, me, users).totalUnread == n
  {
  }

  // ---- the conversation page ----

  /** The test "exchanged between `a` and `b`", either way round. */
  function Between(a: int, b: int): Message -> bool
  {
    (m: Message) => (m.senderId == a && m.receiverId == b) || (m.senderId == b && m.receiverId == a)
  }

  function TimeKey(m: Message): int
  {
    m.timestamp
  }

  /** `get_conversation(a, b)`: the messages between the two, oldest first. */
  function Conversation(table: seq<Message>, a: int, b: int): (r: seq<Message>)
    ensures multiset(r) == multiset(Filter(table, Between(a, b)))
    ensures SortedBy(r, TimeKey)
  {
    SortBy(Filter(table, Between(a, b)), TimeKey)
  }

  /** A key one above every message key in use. */
  function FreshMessageId(table: seq<Message>): (id: int)
    ensures forall i :: 0 <= i < |table| ==> table[i].id < id
  {
    if |table| == 0 then 1
    else
      var rest := FreshMessageId(table[..|table| - 1]);
      if table[|table| - 1].id < rest then rest else table[|table| - 1].id + 1
  }

  /** Python's truth value of a thread id: `None` and `0` are false. */
  predicate Truthy(thread: Option<int>)
  {
    thread.Some? && thread.value != 0
  }

  /** The thread a reply joins: that of the conversation's oldest message,
      if it has one. */
  function ExistingThread(table: seq<Message>, me: int, uid: int): Option<int>
  {
    var existing := Conversation(table, me, uid);
    if |existing| > 0 then existing[0].threadId else None
  }

  /** A reply from the conversation page. The correspondent must exist and
      the stripped content be non-empty; the new unread message joins the
      existing thread, or, when there is none, becomes a thread of its own
      keyed by its own id. */
  function Reply(table: seq<Message>, users: seq<User>, me: int, uid: int, text: string, now: int)
    : (r: Verdict<(seq<Message>, Message)>)
    ensures FindUser(users, uid).None? <==> r == Refused(NotFound)
    ensures FindUser(users, uid).Some? && |Strip(text)| == 0 <==> r == Refused(MissingField)
    ensures r.Done? <==> FindUser(users, uid).Some? && |Strip(text)| > 0
    ensures r.Done? ==> r.value.0 == table + [r.value.1]
    ensures r.Done? ==> var m := r.value.1;
      && m.senderId == me && m.receiverId == uid && m.content == Strip(text) && |m.content| > 0
      && !m.isRead && m.timestamp == now
      && (forall i :: 0 <= i < |table| ==> table[i].id != m.id)
      && m.threadId == (if Truthy(ExistingThread(table, me, uid)) then ExistingThread(table, me, uid) else Some(m.id))
  {
    if FindUser(users, uid).None? then Refused(NotFound)
    else
      var content := Strip(text);
      if |content| == 0 then Refused(MissingField)
      else
        var id := FreshMessageId(table);
        var thread := ExistingThread(table, me, uid);
        var m := Message(id, if Truthy(thread) then thread else Some(id), me, uid, content, false, now);
        Done((table + [m], m))
  }

  /** The first message of a conversation starts a thread keyed by its own id. */
  lemma FirstReplyStartsThread(table: seq<Message>, users: seq<User>, me: int, uid: int, text: string, now: int)
    requires forall i :: 0 <= i < |table| ==> !Between(me, uid)(table[i])
    requires Reply(table, users, me, uid, text, now).Done?
    ensures Reply(table, users, me, uid, text, now).value.1.threadId
      == Some(Reply(table, users, me, uid, text, now).value.1.id)
  {
    FilterNone(table, Between(me, uid));
  }

  /** A reply joins the conversation it answers. */
  lemma {:induction false} ReplyExtendsConversation(table: seq<Message>, users: seq<User>, me: int, uid: int,
                                                    text: string, now: int)
    requires Reply(table, users, me, uid, text, now).Done?
    ensures var (table', m) := Reply(table, users, me, uid, text, now).value;
      && m in Conversation(table', me, uid)
      && multiset(Conversation(table', me, uid)) == multiset(Conversation(table, me, uid)) + multiset{m}
  {
    var (table', m) := Reply(table, users, me, uid, text, now).value;
    FilterSnoc(table, m, Between(me, uid));
    assert m in multiset(Conversation(table', me, uid));
  }

  /** A non-empty conversation's oldest message comes from the table. */
  lemma OldestInConversation(table: seq<Message>, me: int, uid: int, k: nat)
    requires k < |table| && Between(me, uid)(table[k])
    ensures var existing := Conversation(table, me, uid);
      |existing| > 0 && existing[0] in table && Between(me, uid)(existing[0])
  {
    var existing := Conversation(table, me, uid);
    assert table[k] in multiset(existing);
    assert existing[0] in multiset(Filter(table, Between(me, uid)));
  }

  /** When every message of a non-empty conversation carries the same
      (truthy) thread id, so does every message after a reply. */
  lemma ReplyKeepsSharedThread(table: seq<Message>, users: seq<User>, me: int, uid: int,
                               text: string, now: int, thread: int, k: nat)
    requires thread != 0 && k < |table| && Between(me, uid)(table[k])
    requires forall i :: 0 <= i < |table| && Between(me, uid)(table[i]) ==> table[i].threadId == Some(thread)
    requires Reply(table, users, me, uid, text, now).Done?
    ensures var (table', m) := Reply(table, users, me, uid, text, now).value;
      forall i :: 0 <= i < |table'| && Between(me, uid)(table'[i]) ==> table'[i].threadId == Some(thread)
  {
    OldestInConversation(table, me, uid, k);
    var (table', m) := Reply(table, users, me, uid, text, now).value;
    assert m.threadId == Some(thread);
    assert forall i :: 0 <= i < |table| ==> table'[i] == table[i];
  }

  /** Whether `mark_conversation_as_read` marks the message: it is between
      the two users, the reader received it, and it is unread. */
  predicate Marks(m: Message, a: int, b: int, reader: int)
  {
    Between(a, b)(m) && Unread(m, reader)
  }

  /** A message as `mark_conversation_as_read(a, b, reader)` leaves it. */
  function MarkOne(m: Message, a: int, b: int, reader: int): Message
  {
    if Marks(m, a, b, reader) then m.(isRead := true) else m
  }

  lemma MarkCountSnoc(init: seq<Message>, m: Message, a: int, b: int, reader: int)
    ensures UnreadCount(Filter(init + [m], Between(a, b)), reader)
      == UnreadCount(Filter(init, Between(a, b)), reader) + (if Marks(m, a, b, reader) then 1 else 0)
  {
    var p := Between(a, b);
    var f := Filter(init, p);
    FilterSnoc(init, m, p);
    if p(m) {
      assert Filter(init + [m], p) == f + [m];
      UnreadCountSnoc(f, m, reader);
    } else {
      assert Filter(init + [m], p) == f + [];
      assert f + [] == f;
      assert !Marks(m, a, b, reader);
    }
  }

  lemma MarkOneSnoc(rest: seq<Message>, init: seq<Message>, m: Message, a: int, b: int, reader: int)
    requires |rest| == |init|
    requires forall i :: 0 <= i < |init| ==> rest[i] == MarkOne(init[i], a, b, reader)
    ensures forall i :: 0 <= i < |init| + 1 ==>
      (rest + [MarkOne(m, a, b, reader)])[i] == MarkOne((init + [m])[i], a, b, reader)
  {
  }

  /** `mark_conversation_as_read(a, b, reader)`: the new table and how many
      messages were marked. */
  function MarkRead(table: seq<Message>, a: int, b: int, reader: int): (r: (seq<Message>, nat))
    ensures |r.0| == |table|
    ensures forall i :: 0 <= i < |table| ==> r.0[i] == MarkOne(table[i], a, b, reader)
    ensures r.1 == UnreadCount(Filter(table, Between(a, b)), reader)
  {
    if |table| == 0 then ([], 0)
    else
      var init := table[..|table| - 1];
      var m := table[|table| - 1];
      assert init + [m] == table;
      var (rest, n) := MarkRead(init, a, b, reader);
      MarkCountSnoc(init, m, a, b, reader);
      MarkOneSnoc(rest, init, m, a, b, reader);
      (rest + [MarkOne(m, a, b, reader)], n + (if Marks(m, a, b, reader) then 1 else 0))
  }

  lemma FilterClearCount(s: seq<Message>, p: Message -> bool, reader: int)
    requires forall i :: 0 <= i < |s| && p(s[i]) ==> !Unread(s[i], reader)
    ensures UnreadCount(Filter(s, p), reader) == 0
  {
    var kept := Filter(s, p);
    forall i | 0 <= i < |kept|
      ensures !Unread(kept[i], reader)
    {
      assert kept[i] in s;
    }
  }

  lemma MarkOneClears(table: seq<Message>, marked: seq<Message>, a: int, b: int, reader: int)
    requires |marked| == |table|
    requires forall i :: 0 <= i < |table| ==> marked[i] == MarkOne(table[i], a, b, reader)
    ensures forall i :: 0 <= i < |marked| && Between(a, b)(marked[i]) ==> !Unread(marked[i], reader)
  {
  }

  /** After marking, nothing in the conversation is unread by the reader. */
  lemma MarkReadClears(table: seq<Message>, a: int, b: int, reader: int)
    ensures UnreadCount(Filter(MarkRead(table, a, b, reader).0, Between(a, b)), reader) == 0
  {
    var marked := MarkRead(table, a, b, reader).0;
    MarkOneClears(table, marked, a, b, reader);
    FilterClearCount(marked, Between(a, b), reader);
  }

  lemma MarkOneTwice(table: seq<Message>, marked: seq<Message>, again: seq<Message>, a: int, b: int, reader: int)
    requires |marked| == |table| == |again|
    requires forall i :: 0 <= i < |table| ==> marked[i] == MarkOne(table[i], a, b, reader)
    requires forall i :: 0 <= i < |marked| ==> again[i] == MarkOne(marked[i], a, b, reader)
    ensures again == marked
  {
  }

  /** Marking a conversation a second time changes nothing and marks nothing. */
  lemma MarkReadIdempotent(table: seq<Message>, a: int, b: int, reader: int)
    ensures MarkRead(MarkRead(table, a, b, reader).0, a, b, reader) == (MarkRead(table, a, b, reader).0, 0)
  {
    var marked := MarkRead(table, a, b, reader).0;
    var twice := MarkRead(marked, a, b, reader);
    MarkReadClears(table, a, b, reader);
    assert twice.1 == 0;
    MarkOneTwice(table, marked, twice.0, a, b, reader);
  }

  /** Messages outside the conversation are left alone. */
  lemma MarkReadLocal(table: seq<Message>, a: int, b: int, reader: int, i: nat)
    requires i < |table| && !Between(a, b)(table[i])
    ensures MarkRead(table, a, b, reader).0[i] == table[i]
  {
  }

  /** Opening a conversation: the correspondent must exist; the messages the
      reader received in it are marked read, and the conversation is shown
      oldest first. */
  function OpenConversation(table: seq<Message>, users: seq<User>, me: int, uid: int)
    : (r: Verdict<(seq<Message>, seq<Message>)>)
    ensures FindUser(users, uid).None? <==> r.Refused?
    ensures r.Refused? ==> r.reason == NotFound
    ensures r.Done? ==> r.value.0 == MarkRead(table, me, uid, me).0
    ensures r.Done? ==> (SortedBy(r.value.1, TimeKey)
      && multiset(r.value.1) == multiset(Filter(r.value.0, Between(me, uid))))
  {
    if FindUser(users, uid).None? then Refused(NotFound)
    else
      var marked := MarkRead(table, me, uid, me).0;
      Done((marked, Conversation(marked, me, uid)))
  }

  /** A POST to the conversation page. A sent reply redirects at once. A
      refused empty one is only flashed: the handler falls through to the
      view, which marks the conversation read. The second component is the
      table afterwards. */
  function PostConversation(table: seq<Message>, users: seq<User>, me: int, uid: int, text: string, now: int)
    : (r: (Verdict<(seq<Message>, Message)>, seq<Message>))
    ensures r.0 == Reply(table, users, me, uid, text, now)
    ensures r.0.Done? ==> r.1 == r.0.value.0
    ensures r.0 == Refused(NotFound) ==> r.1 == table
    ensures r.0 == Refused(MissingField) ==>
      && r.1 == MarkRead(table, me, uid, me).0
      && UnreadCount(Filter(r.1, Between(me, uid)), me) == 0
  {
    var reply := Reply(table, users, me, uid, text, now);
    match reply
    case Done(v) => (reply, v.0)
    case Refused(_) =>
      match OpenConversation(table, users, me, uid)
      case Refused(_) => (reply, table)
      case Done(v) =>
        MarkReadClears(table, me, uid, me);
        (reply, v.0)
  }

  // ---- the quick-send endpoint ----

  /** The quick-send endpoint: only the stripped content is checked; the
      receiver is not looked up and no thread id is set. */
  function Send(table: seq<Message>, me: int, uid: int, text: string, now: int)
    : (r: Verdict<(seq<Message>, Message)>)
    ensures r.Refused? <==> |Strip(text)| == 0
    ensures r.Refused? ==> r.reason == MissingField
    ensures r.Done? ==> r.value.0 == table + [r.value.1]
    ensures r.Done? ==> var m := r.value.1;
      && m.senderId == me && m.receiverId == uid && m.content == Strip(text)
      && !m.isRead && m.timestamp == now && m.threadId.None?
      && (forall i :: 0 <= i < |table| ==> table[i].id != m.id)
  {
    var content := Strip(text);
    if |content| == 0 then Refused(MissingField)
    else
      var m := Message(FreshMessageId(table), None, me, uid, content, false, now);
      Done((table + [m], m))
  }

  /** A conversation opened with the quick-send endpoint has no thread id, so
      the first reply from the conversation page starts a second thread id. */
  lemma SendThenReplySplitsThread(table: seq<Message>, users: seq<User>, me: int, uid: int,
                                  first: string, second: string, t1: int, t2: int)
    requires forall i :: 0 <= i < |table| ==> !Between(me, uid)(table[i])
    requires Send(table, me, uid, first, t1).Done?
    requires Reply(Send(table, me, uid, first, t1).value.0, users, me, uid, second, t2).Done?
    ensures var (table', m1) := Send(table, me, uid, first, t1).value;
      var m2 := Reply(table', users, me, uid, second, t2).value.1;
      m1.threadId == None && m2.threadId == Some(m2.id) && m1.threadId != m2.threadId
  {
    var (table', m1) := Send(table, me, uid, first, t1).value;
    assert Filter(table', Between(me, uid)) == [m1] by {
      FilterNone(table, Between(me, uid));
      FilterSnoc(table, m1, Between(me, uid));
    }
    SortSingleton(m1, TimeKey);
    assert ExistingThread(table', me, uid) == None;
  }

  // ---- reports ----

  /** A user's report of a message, with an optional reason. */
  datatype Report = Report(messageId: int, userId: int, reason: Option<string>)

  /** `MessageDAL.get_by_id`. */
  function FindMessage(table: seq<Message>, id: int): (r: Option<Message>)
    ensures r.Some? ==> r.value in table && r.value.id == id
    ensures r.None? ==> forall i :: 0 <= i < |table| ==> table[i].id != id
  {
    if |table| == 0 then None
    else if table[0].id == id then Some(table[0])
    else FindMessage(table[1..], id)
  }

  predicate Reported(reports: seq<Report>, messageId: int, userId: int)
  {
    exists i :: 0 <= i < |reports| && reports[i].messageId == messageId && reports[i].userId == userId
  }

  /** No user reports the same message twice. */
  predicate OneReportEach(reports: seq<Report>)
  {
    forall i, j :: 0 <= i < j < |reports| ==>
      !(reports[i].messageId == reports[j].messageId && reports[i].userId == reports[j].userId)
  }

  /** Reporting a message: it must exist, the reporter must have sent or
      received it, and a second report by the same user is refused. */
  function ReportMessage(table: seq<Message>, reports: seq<Report>, me: int, messageId: int, reasonText: string)
    : (r: Verdict<seq<Report>>)
    ensures FindMessage(table, messageId).None? <==> r == Refused(NotFound)
    ensures r.Done? ==> var m := FindMessage(table, messageId).value;
      && (m.senderId == me || m.receiverId == me)
      && !Reported(reports, messageId, me)
      && r.value == reports + [Report(messageId, me, if |Strip(reasonText)| == 0 then None else Some(Strip(reasonText)))]
    ensures FindMessage(table, messageId).Some? ==> var m := FindMessage(table, messageId).value;
      && (m.senderId != me && m.receiverId != me <==> r == Refused(Forbidden))
      && ((m.senderId == me || m.receiverId == me) && Reported(reports, messageId, me) <==> r == Refused(Duplicate))
    ensures r.Done? <==> (FindMessage(table, messageId).Some?
      && (FindMessage(table, messageId).value.senderId == me || FindMessage(table, messageId).value.receiverId == me)
      && !Reported(reports, messageId, me))
  {
    match FindMessage(table, messageId)
    case None => Refused(NotFound)
    case Some(m) =>
      if m.senderId != me && m.receiverId != me then Refused(Forbidden)
      else if Reported(reports, messageId, me) then Refused(Duplicate)
      else
        var reason := if |Strip(reasonText)| == 0 then None else Some(Strip(reasonText));
        Done(reports + [Report(messageId, me, reason)])
  }

  /** Reporting keeps at most one report per user and message. */
  lemma ReportKeepsOneEach(table: seq<Message>, reports: seq<Report>, me: int, messageId: int, reasonText: string)
    requires OneReportEach(reports)
    requires ReportMessage(table, reports, me, messageId, reasonText).Done?
    ensures OneReportEach(ReportMessage(table, reports, me, messageId, reasonText).value)
  {
    var r := ReportMessage(table, reports, me, messageId, reasonText).value;
    forall i, j | 0 <= i < j < |r|
      ensures !(r[i].messageId == r[j].messageId && r[i].userId == r[j].userId)
    {
    }
  }

  /** A second report of the same message by the same user is refused. */
  lemma ReportTwiceRefused(table: seq<Message>, reports: seq<Report>, me: int, messageId: int, first: string,
                           second: string)
    requires ReportMessage(table, reports, me, messageId, first).Done?
    ensures ReportMessage(table, ReportMessage(table, reports, me, messageId, first).value, me, messageId, second)
      == Refused(Duplicate)
  {
    var r := ReportMessage(table, reports, me, messageId, first).value;
    assert r[|reports|].messageId == messageId && r[|reports|].userId == me;
  }
}
