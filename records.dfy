/**
 * The entities of the archive (tgarchive/db.py:67-113): the records that the sync engine
 * produces and the store persists. Opaque JSON snapshots (`full`, `full_dialog`,
 * `full_entity`) are kept as uninterpreted strings.
 */
module Records {
  import opened Wrappers

  /** A UTC timestamp at the one-second precision the store keeps ("%Y-%m-%d %H:%M:%S"). */
  datatype DateTime = DateTime(year: int, month: int, day: int, hour: int, minute: int, second: int)

  /** The `YYYY-MM` bucket of a timestamp. */
  datatype MonthKey = MonthKey(year: int, month: int)

  function MonthOf(d: DateTime): MonthKey {
    MonthKey(d.year, d.month)
  }

  /** Truncation to midnight, as `strftime('%Y-%m-%d 00:00:00', date)` does. */
  function StartOfDay(d: DateTime): (r: DateTime)
    ensures r.year == d.year && r.month == d.month && r.day == d.day
    ensures r.hour == 0 && r.minute == 0 && r.second == 0
  {
    DateTime(d.year, d.month, d.day, 0, 0, 0)
  }

  /** Chronological order of month buckets. */
  predicate MonthBefore(a: MonthKey, b: MonthKey) {
    a.year < b.year || (a.year == b.year && a.month < b.month)
  }

  /** A user as `_get_user` builds it; `tags` is the ordered list of derived labels. */
  datatype User = User(
    id: int,
    username: string,
    firstName: Option<string>,
    lastName: Option<string>,
    tags: seq<string>,
    avatar: Option<string>,
    full: string)

  datatype MediaType = Photo | WebPage | Poll

  /** One entry of a poll's option list; `percent` is only set for answers that have a result. */
  datatype PollOption = PollOption(answer: string, count: int, correct: bool, percent: Option<real>)

  /**
   * The `description` column: free text for web pages, the option list of a poll
   * (stored JSON-encoded by the source; the encoding is not modelled), or nothing.
   */
  datatype Description = NoDescription | Text(text: string) | PollOptions(options: seq<PollOption>)

  datatype Media = Media(
    id: int,
    kind: MediaType,
    url: Option<string>,
    title: Option<string>,
    description: Description,
    thumb: Option<string>,
    full: string)

  /** The `type` column of a message: "message", "user_joined" or "user_left". */
  datatype MessageType = Plain | UserJoined | UserLeft

  /** A message as the sync engine yields it, with its user and media embedded. */
  datatype Message = Message(
    id: int,
    kind: MessageType,
    date: DateTime,
    editDate: Option<DateTime>,
    content: string,
    replyTo: Option<int>,
    user: Option<User>,
    media: Option<Media>,
    full: string,
    chatId: int,
    fromChatId: Option<int>)

  /** A dialog; `date` is None where the source yields an empty date string (get_groups). */
  datatype Chat = Chat(
    id: int,
    date: Option<DateTime>,
    archived: bool,
    isChannel: bool,
    isGroup: bool,
    isUser: bool,
    name: Option<string>,
    title: Option<string>,
    pinned: bool,
    fullDialog: string,
    fullEntity: string,
    username: Option<string>)

  /** A row of the timeline: one month bucket and its message count. */
  datatype Month = Month(year: int, month: int, count: nat)

  /** A row of the dayline: one day of a month, its count and the page its first message is on. */
  datatype Day = Day(year: int, month: int, day: int, count: nat, page: int)
}
