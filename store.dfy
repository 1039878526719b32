/**
 * The store (tgarchive/db.py): four tables held as maps, the insert-or-replace upserts
 * the sync engine calls, and the `PAGE()` function registered with the query engine.
 * `chats`, `users` and `media` are keyed by `id`; `messages` by `(id, chat_id)`.
 */
module Store {
  import opened Wrappers
  import opened Records

  /** `_page(n, multiple)`: math.ceil(n / multiple); a zero page size raises in the source. */
  function Page(n: int, m: int): int
    requires m != 0
  {
    if m > 0 then -((-n) / m) else n / m
  }

  /**
   * Page rounds the quotient up: for a positive page size it is the page whose range
   * holds `n`; a negative size (Python's true division and ceiling) is stated alike.
   */
  lemma PageBounds(n: int, m: int)
    requires m != 0
    ensures m > 0 ==> (Page(n, m) - 1) * m < n <= Page(n, m) * m
    ensures m < 0 ==> Page(n, m) * m <= n < (Page(n, m) - 1) * m
  {
  }

  /** Equal ranks fall on equal pages. */
  lemma PageOfEqual(a: int, b: int, m: int)
    requires m != 0 && a == b
    ensures Page(a, m) == Page(b, m)
  {
  }

  /** The bounds of Page determine it: no other integer satisfies them. */
  lemma PageUnique(n: int, m: int, p: int)
    requires m > 0 && (p - 1) * m < n <= p * m
    ensures p == Page(n, m)
  {
    var q := Page(n, m);
    PageBounds(n, m);
    MulCancel(p - 1, q, m);
    MulCancel(q - 1, p, m);
  }

  /** A positive factor can be cancelled from a strict inequality. */
  lemma MulCancel(a: int, b: int, m: int)
    requires m > 0 && a * m < b * m
    ensures a < b
  {
  }

  /** A 1-based rank lands on a page numbered from 1, and rank m * k + 1 starts page k + 1. */
  lemma PageOfRank(rank: int, m: int)
    requires rank >= 1 && m > 0
    ensures Page(rank, m) >= 1
    ensures (rank - 1) % m == 0 ==> Page(rank, m) == (rank - 1) / m + 1
  {
    PageBounds(rank, m);
    if (rank - 1) % m == 0 {
      var k := (rank - 1) / m;
      assert rank == k * m + 1;
      PageUnique(rank, m, k + 1);
    }
  }

  /** `" ".join(tags)`: the form in which the `users.tags` column holds a user's tags. */
  function JoinTags(tags: seq<string>): string {
    if tags == [] then ""
    else if |tags| == 1 then tags[0]
    else tags[0] + " " + JoinTags(tags[1..])
  }

  /** Splits a `tags` column back into its labels; the partner of JoinTags. */
  function SplitTags(s: string): seq<string>
    decreases |s|
  {
    if s == "" then []
    else if ' ' !in s then [s]
    else
      var i := FirstSpace(s);
      [s[..i]] + SplitTags(s[i + 1..])
  }

  function FirstSpace(s: string): (i: nat)
    requires ' ' in s
    ensures i < |s| && s[i] == ' ' && ' ' !in s[..i]
  {
    if s[0] == ' ' then 0 else 1 + FirstSpace(s[1..])
  }

  predicate IsTag(tag: string) {
    tag != "" && ' ' !in tag
  }

  /** Tags without spaces survive the trip through the `tags` column. */
  lemma {:induction false} SplitJoinTags(tags: seq<string>)
    requires forall i :: 0 <= i < |tags| ==> IsTag(tags[i])
    ensures SplitTags(JoinTags(tags)) == tags
  {
    if |tags| > 1 {
      var rest := JoinTags(tags[1..]);
      var s := tags[0] + " " + rest;
      assert s[|tags[0]|] == ' ';
      assert s[..|tags[0]|] == tags[0];
      assert FirstSpace(s) == |tags[0]|;
      assert s[|tags[0]| + 1..] == rest;
      SplitJoinTags(tags[1..]);
      JoinTagsNonEmpty(tags[1..]);
    }
  }

  lemma {:induction false} JoinTagsNonEmpty(tags: seq<string>)
    requires |tags| >= 1 && forall i :: 0 <= i < |tags| ==> IsTag(tags[i])
    ensures JoinTags(tags) != ""
  {
    if |tags| > 1 {
      assert |JoinTags(tags)| >= |tags[0]|;
    }
  }

  /** A `users` row: every column of `u` but `id`, which is the key. */
  datatype UserRow = UserRow(
    username: string,
    firstName: Option<string>,
    lastName: Option<string>,
    tags: string,
    avatar: Option<string>,
    full: string)

  /** A `messages` row: the embedded user and media are stored as weak references by id. */
  datatype MessageRow = MessageRow(
    kind: MessageType,
    date: DateTime,
    editDate: Option<DateTime>,
    content: string,
    replyTo: Option<int>,
    userId: Option<int>,
    mediaId: Option<int>,
    full: string,
    fromChatId: Option<int>)

  /** The primary key of `messages`: ids are unique only within a chat. */
  datatype MsgKey = MsgKey(id: int, chatId: int)

  datatype Tables = Tables(
    users: map<int, UserRow>,
    media: map<int, Media>,
    chats: map<int, Chat>,
    messages: map<MsgKey, MessageRow>)

  const EmptyTables := Tables(map[], map[], map[], map[])

  /** Rows of `media` and `chats` carry their own key. */
  predicate WellKeyed(t: Tables) {
    && (forall id :: id in t.media ==> t.media[id].id == id)
    && (forall id :: id in t.chats ==> t.chats[id].id == id)
  }

  function UserRowOf(u: User): (row: UserRow)
    ensures row.username == u.username && row.firstName == u.firstName && row.lastName == u.lastName
    ensures row.avatar == u.avatar && row.full == u.full
    ensures row.tags == JoinTags(u.tags)
  {
    UserRow(u.username, u.firstName, u.lastName, JoinTags(u.tags), u.avatar, u.full)
  }

  function MessageRowOf(m: Message): (row: MessageRow)
    ensures row.userId.Some? <==> m.user.Some?
    ensures m.user.Some? ==> row.userId == Some(m.user.value.id)
    ensures row.mediaId.Some? <==> m.media.Some?
    ensures m.media.Some? ==> row.mediaId == Some(m.media.value.id)
    ensures row.kind == m.kind && row.date == m.date && row.editDate == m.editDate
    ensures row.content == m.content && row.replyTo == m.replyTo && row.full == m.full
    ensures row.fromChatId == m.fromChatId
  {
    MessageRow(
      m.kind, m.date, m.editDate, m.content, m.replyTo,
      if m.user.Some? then Some(m.user.value.id) else None,
      if m.media.Some? then Some(m.media.value.id) else None,
      m.full, m.fromChatId)
  }

  function KeyOf(m: Message): MsgKey {
    MsgKey(m.id, m.chatId)
  }

  /** `insert_user`: INSERT ... ON CONFLICT (id) DO UPDATE of every column. */
  function UpsertUser(t: Tables, u: User): (r: Tables)
    ensures u.id in r.users && r.users[u.id] == UserRowOf(u)
    ensures r.users.Keys == t.users.Keys + {u.id}
    ensures forall id :: id in t.users && id != u.id ==> r.users[id] == t.users[id]
    ensures r.media == t.media && r.chats == t.chats && r.messages == t.messages
  {
    t.(users := t.users[u.id := UserRowOf(u)])
  }

  /** `insert_media`: INSERT OR REPLACE keyed by `id`. */
  function UpsertMedia(t: Tables, m: Media): (r: Tables)
    ensures m.id in r.media && r.media[m.id] == m
    ensures r.media.Keys == t.media.Keys + {m.id}
    ensures forall id :: id in t.media && id != m.id ==> r.media[id] == t.media[id]
    ensures r.users == t.users && r.chats == t.chats && r.messages == t.messages
    ensures WellKeyed(t) ==> WellKeyed(r)
  {
    t.(media := t.media[m.id := m])
  }

  /** `insert_chat`: INSERT OR REPLACE keyed by `id`. */
  function UpsertChat(t: Tables, c: Chat): (r: Tables)
    ensures c.id in r.chats && r.chats[c.id] == c
    ensures r.chats.Keys == t.chats.Keys + {c.id}
    ensures forall id :: id in t.chats && id != c.id ==> r.chats[id] == t.chats[id]
    ensures r.users == t.users && r.media == t.media && r.messages == t.messages
    ensures WellKeyed(t) ==> WellKeyed(r)
  {
    t.(chats := t.chats[c.id := c])
  }

  /** `insert_message`: INSERT OR REPLACE keyed by `(id, chat_id)`. */
  function UpsertMessage(t: Tables, m: Message): (r: Tables)
    ensures KeyOf(m) in r.messages && r.messages[KeyOf(m)] == MessageRowOf(m)
    ensures r.messages.Keys == t.messages.Keys + {KeyOf(m)}
    ensures forall k :: k in t.messages && k != KeyOf(m) ==> r.messages[k] == t.messages[k]
    ensures r.users == t.users && r.media == t.media && r.chats == t.chats
  {
    t.(messages := t.messages[KeyOf(m) := MessageRowOf(m)])
  }

  /** Upserting the same user twice leaves the table as upserting it once. */
  lemma UpsertUserIdempotent(t: Tables, u: User)
    ensures UpsertUser(UpsertUser(t, u), u) == UpsertUser(t, u)
  {
  }

  /** Of two writes to the same user id, the later one wins. */
  lemma UpsertUserLastWriteWins(t: Tables, u: User, v: User)
    requires u.id == v.id
    ensures UpsertUser(UpsertUser(t, u), v) == UpsertUser(t, v)
  {
  }

  lemma UpsertMediaIdempotent(t: Tables, m: Media)
    ensures UpsertMedia(UpsertMedia(t, m), m) == UpsertMedia(t, m)
  {
  }

  lemma UpsertChatIdempotent(t: Tables, c: Chat)
    ensures UpsertChat(UpsertChat(t, c), c) == UpsertChat(t, c)
  {
  }

  /** The same id in two chats gives two rows; neither upsert disturbs the other's row. */
  lemma UpsertMessageKeepsOtherChats(t: Tables, m: Message, n: Message)
    requires m.id == n.id && m.chatId != n.chatId
    ensures var r := UpsertMessage(UpsertMessage(t, m), n);
      && r.messages[KeyOf(m)] == MessageRowOf(m)
      && r.messages[KeyOf(n)] == MessageRowOf(n)
  {
  }

  lemma UpsertMessageIdempotent(t: Tables, m: Message)
    ensures UpsertMessage(UpsertMessage(t, m), m) == UpsertMessage(t, m)
  {
  }

  /**
   * The open database. The four maps are its tables as the connection sees them;
   * `committed` is what the last commit made durable, all that survives a crash.
   */
  class DB {
    var users: map<int, UserRow>
    var media: map<int, Media>
    var chats: map<int, Chat>
    var messages: map<MsgKey, MessageRow>
    var committed: Tables

    function Snapshot(): Tables
      reads this
    {
      Tables(users, media, chats, messages)
    }

    /** Opening a database file: a new file starts with the four empty tables. */
    constructor (onDisk: Option<Tables>)
      ensures onDisk.None? ==> Snapshot() == EmptyTables
      ensures onDisk.Some? ==> Snapshot() == onDisk.value
      ensures committed == Snapshot()
    {
      var t := if onDisk.Some? then onDisk.value else EmptyTables;
      users, media, chats, messages := t.users, t.media, t.chats, t.messages;
      committed := t;
    }

    method InsertUser(u: User)
      modifies this
      ensures Snapshot() == UpsertUser(old(Snapshot()), u)
      ensures committed == old(committed)
    {
      users := users[u.id := UserRowOf(u)];
    }

    method InsertMedia(m: Media)
      modifies this
      ensures Snapshot() == UpsertMedia(old(Snapshot()), m)
      ensures committed == old(committed)
    {
      media := media[m.id := m];
    }

    method InsertChat(c: Chat)
      modifies this
      ensures Snapshot() == UpsertChat(old(Snapshot()), c)
      ensures committed == old(committed)
    {
      chats := chats[c.id := c];
    }

    method InsertMessage(m: Message)
      modifies this
      ensures Snapshot() == UpsertMessage(old(Snapshot()), m)
      ensures committed == old(committed)
    {
      messages := messages[KeyOf(m) := MessageRowOf(m)];
    }

    method Commit()
      modifies this
      ensures Snapshot() == old(Snapshot())
      ensures committed == Snapshot()
    {
      committed := Snapshot();
    }
  }
}
