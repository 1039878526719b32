# tg-archive: the sync engine and the message store

tg-archive copies the messages of a Telegram group into a local SQLite archive. A static
site is then published from that archive. This project is a Dafny model of the two files
at its core:

- `tgarchive/sync.py`: the incremental sync loop, and how the client session is acquired
  in takeout (bulk export) mode. It also covers turning one fetched message into an
  archive record (sender, stickers, polls, web pages, media files, forward origin) and
  the file paths the engine derives for media and avatars.
- `tgarchive/db.py`: the four tables and their insert-or-replace upserts, the
  intermediate commits, and the read queries the site generator uses: last id, monthly
  timeline, daily index with page numbers, cursor-paged messages, message count, and
  groups.

The modules:

| file | module | what it holds |
|---|---|---|
| wrappers.dfy | Wrappers | Option and Result |
| records.dfy | Records | User, Media, Message, Chat, Month, Day, timestamps |
| text.dfy | Text | `str()` of an integer, `os.path.join`, the text after the last separator |
| listing.dfy | Listing | sorting a finite set, counting occurrences |
| store.dfy | Store | the tables as maps, the upserts, `PAGE()`, the `DB` class |
| queries.dfy | Queries | the read queries as functions of the tables |
| paths.dfy | Paths | the media and avatar paths, the placeholder letter, the extension helper |
| classifier.dfy | Classifier | raw Telegram messages and one item of `_get_messages` |
| takeout.dfy | Takeout | the three-attempt takeout acquisition |
| sync_engine.dfy | SyncEngine | the fetch loop: a specification `Run` and the method `Sync` |

Inputs the program gets from the outside are parameters of the model:

- the answers of the Telegram client (a sequence of fetch results);
- what each download did;
- whether an avatar file already exists;
- what each takeout attempt answered.

The store is a `DB` object. Its maps are the tables as the connection sees them, and
`committed` is what the last commit made durable. `Sync` is proved to end in exactly
the state the specification function `SyncSpec` gives. The properties of a run are
lemmas about that function:

- durability every hundred messages;
- where the resume cursor starts;
- offset chaining from batch to batch;
- the stop rules.

Where the code and its documentation disagree, the model follows the code:

- A rate limit (`FloodWaitError`) is not paced and retried. `_fetch_messages` only logs
  it and returns None, and iterating None raises, so the run aborts with `TypeError`
  (`SyncEngine.Run`).
- An invalidated takeout session (`TakeoutInvalidError`) does not stop the retry loop.
  It is logged and the next of the three attempts is made (`Takeout.AcquireFrom`).
- An exception while classifying one item ends the whole run:
  - a poll with more results than answers (`IndexError`);
  - a poll with results but no voter total (`TypeError`);
  - as written, a forward from a user (`AttributeError`, see Findings).

  The takeout session is then not finalized, and the messages stored since the last
  commit are not committed. The loop commits after every hundredth message and after
  every batch (tgarchive/sync.py:82, 93).
  The loop is modelled with either reading of the forward origin (`Classifier.Edition`).
  As written, a user forward aborts the run (`SyncEngine.SyncForwardFromUser`). As
  intended, the message is stored without an origin.
- With explicit ids, only the first message is stored. The stop rule fires after it.
- `get_last_message_id` takes the largest id over all chats, not over one chat.
- `get_messages` orders by message id only. Rows of different chats with the same id
  are ordered here by chat id.

## Model

| member | source | states |
|---|---|---|
| Store.PageBounds | tgarchive/db.py:116-117 | the page p is the ceiling of n / multiple: (p-1)·m < n ≤ p·m for m > 0, and the mirrored bounds for m < 0; a zero multiple is excluded, as it raises |
| Store.PageUnique | tgarchive/db.py:116-117 | for a positive multiple, the page is the only p with (p-1)·m < n ≤ p·m |
| Store.PageOfRank | tgarchive/db.py:116-117 | a 1-based rank lands on a page ≥ 1, and rank m·k + 1 starts page k + 1 |
| Store.SplitJoinTags | tgarchive/db.py:290 | space-free tags survive the `" ".join` into the `tags` column: splitting the column gives the list back |
| Store.UpsertUser | tgarchive/db.py:276-294 | after insert_user the row under the user's id holds every column of the user, tags space-joined; no other row of any table changes |
| Store.UpsertMedia | tgarchive/db.py:296-303 | insert_media replaces the row under the media id and changes nothing else; rows keep carrying their own key |
| Store.UpsertChat | tgarchive/db.py:305-325 | insert_chat replaces the row under the chat id and changes nothing else; rows keep carrying their own key |
| Store.UpsertMessage | tgarchive/db.py:327-346 | insert_message replaces the row under (id, chat_id), with user and media held as ids only; no other row changes |
| Store.UpsertUserIdempotent | tgarchive/db.py:281-283 | upserting the same user twice equals upserting once |
| Store.UpsertUserLastWriteWins | tgarchive/db.py:281-283 | of two upserts of the same user id, the later one decides the row |
| Store.UpsertMediaIdempotent | tgarchive/db.py:299 | INSERT OR REPLACE of the same media twice equals once |
| Store.UpsertChatIdempotent | tgarchive/db.py:308 | INSERT OR REPLACE of the same chat twice equals once |
| Store.UpsertMessageIdempotent | tgarchive/db.py:330 | INSERT OR REPLACE of the same message twice equals once |
| Store.UpsertMessageKeepsOtherChats | tgarchive/db.py:40 | the key is (id, chat_id): the same id in two chats keeps two rows, neither overwriting the other |
| Store.DB.constructor | tgarchive/db.py:124-157 | a new database file starts with four empty tables, an existing one with its contents, all of it committed |
| Store.DB.InsertUser | tgarchive/db.py:276-294 | the tables become UpsertUser of the old tables; nothing is committed |
| Store.DB.InsertMedia | tgarchive/db.py:296-303 | the tables become UpsertMedia of the old tables; nothing is committed |
| Store.DB.InsertChat | tgarchive/db.py:305-325 | the tables become UpsertChat of the old tables; nothing is committed |
| Store.DB.InsertMessage | tgarchive/db.py:327-346 | the tables become UpsertMessage of the old tables; nothing is committed |
| Store.DB.Commit | tgarchive/db.py:348-350 | the committed state becomes the current tables, which are unchanged |
| Queries.MonthListing | tgarchive/db.py:253-254 | a month's messages in strictly ascending id order, each exactly once, as many as get_message_count reports |
| Queries.LastMessageId | tgarchive/db.py:162-177 | (0, None) on an empty table; otherwise the greatest stored id, with the day (midnight) of a message having it |
| Queries.TimelineSpec | tgarchive/db.py:179-203 | the timeline lists exactly the months that have messages, in chronological order, each once with its message count |
| Queries.TimelineTotal | tgarchive/db.py:186-190 | the timeline's counts add up to the number of stored messages |
| Queries.DaylineCounts | tgarchive/db.py:205-235 | the dayline lists exactly the days of the month that have messages, ascending, each once with its message count |
| Queries.DaylinePageAt | tgarchive/db.py:213-221 | each day's page is PAGE(j + 1, limit), where j is the position of the day's first message in the month's id-ordered listing |
| Queries.DaylinePagesFromCounts | tgarchive/db.py:206-210 | when the month's days do not decrease in id order, the page of day k is PAGE(c1 + … + c(k-1) + 1, limit): the page of the rank where that day begins |
| Queries.MonthDaysAscend | tgarchive/db.py:253-254 | when a later id never has an earlier day, the month's days read in id order do not decrease |
| Queries.DaylineTotal | tgarchive/db.py:262-274 | the dayline's counts add up to get_message_count for that month |
| Queries.MarkedChannelIdText | tgarchive/db.py:252 | the marked id of a channel prints as "-100" followed by the channel id, the text `printf('-100%d', …)` builds |
| Queries.NullOriginChatText | tgarchive/db.py:252 | with no origin, the marked form is that of 0: the chat id -1000, whose text is "-100" followed by "0" |
| Queries.FromChat | tgarchive/db.py:252 | an origin stored under its raw id joins that chat's entity (absent if empty); else one stored under its marked id joins that one; else none; with no origin, only a chat stored under -1000 joins |
| Queries.JoinedUser | tgarchive/db.py:250 | the LEFT JOIN on users: the row's columns when the user exists, nulls (with the id) when it does not |
| Queries.JoinedMedia | tgarchive/db.py:381-395 | media is rebuilt exactly when a media row exists under a non-zero id, and is that row |
| Queries.MakeMessage | tgarchive/db.py:352-425 | _make_message keeps the key, type, dates, content, reply and origin id of the stored row, decodes its JSON, and carries the joined user, media and origin chat |
| Queries.WeakUserReference | tgarchive/db.py:250 | a message stored before its user shows the user's columns once the user row is inserted |
| Queries.AfterListing | tgarchive/db.py:253-254 | the month's messages with id above the cursor, strictly ascending, each once |
| Queries.PageKeys | tgarchive/db.py:253-254 | every key a page returns is a stored message |
| Queries.GetMessages | tgarchive/db.py:237-260 | one view per key of the page, in order: the _make_message view of that key |
| Queries.GetMessagesSpec | tgarchive/db.py:237-260 | a page holds only messages of the month after the cursor, ascending, at most limit; any left out come after all returned, and only when the page is full |
| Queries.CursorPagingCoversMonth | tgarchive/db.py:254 | with ids unique in the month, a page followed by everything after its last id is everything after the first cursor |
| Queries.ChatIds | tgarchive/db.py:434 | the stored chat ids among those asked for, strictly ascending |
| Queries.GetGroups | tgarchive/db.py:427-443 | one chat per stored requested id |
| Queries.GetGroupsSpec | tgarchive/db.py:427-443 | each stored requested chat exactly once, in ascending id order, as stored but with a blank date |
| Text.IntToString | tgarchive/sync.py:384-385 | `str()` of an integer: non-empty, a leading minus exactly for negatives, digits otherwise, never a slash |
| Text.IntToStringInjective | tgarchive/sync.py:384-385 | different ids print differently |
| Text.Join | tgarchive/sync.py:381-386 | os.path.join: an absolute second part replaces the first; otherwise exactly one slash separates them |
| Text.AfterLast | tgarchive/sync.py:396 | the longest separator-free suffix, preceded by the separator when shorter than the whole (`split(sep)[-1]`, basename) |
| Text.JoinInjective | tgarchive/sync.py:408-411 | joining a slash-free name onto a directory can be undone: both parts are determined |
| Paths.ChatsRoot | tgarchive/sync.py:381-383 | the media root `<media_dir>/chats` is never empty and ends in the final "s" of "chats", never a slash |
| Paths.MediaDirShape | tgarchive/sync.py:381-386 | a message's directory is `<media_dir>/chats/<group>` + "/" + `<id>`, never ending in a slash |
| Paths.MediaDirInjective | tgarchive/sync.py:381-386 | two different (group, message) pairs never share a media directory |
| Paths.MovedMediaPathShape | tgarchive/sync.py:388-392 | the moved file lies directly in its message's directory and keeps its base name |
| Paths.MovedMediaPathInjective | tgarchive/sync.py:388-392 | files of different messages never land on the same path, whatever their names |
| Paths.UsernameText | tgarchive/sync.py:410 | the f-string text of a username: itself, or "None" when missing |
| Paths.AvatarPathShape | tgarchive/sync.py:403-411 | an avatar is `<media_dir>/users/<id>/<username>.png` |
| Paths.AvatarPathInjective | tgarchive/sync.py:403-411 | two users never share an avatar file |
| Paths.AvatarDirInjective | tgarchive/sync.py:408-409 | different user ids give different avatar directories |
| Paths.UpperChar | tgarchive/sync.py:491 | ASCII lower-case letters are upper-cased, every other character kept |
| Paths.PlaceholderLetter | tgarchive/sync.py:420 | one letter: the upper-cased first letter of a non-empty first name, else "N" |
| Paths.PlaceholderLetterIgnoresCase | tgarchive/sync.py:491 | first names starting with the same letter up to case get the same placeholder |
| Paths.FileExtSpec | tgarchive/sync.py:394-400 | with a dot and a short last part, the result is that dot-free suffix of fewer than six characters, preceded by the dot; otherwise ".file" |
| Classifier.DisplayName | tgarchive/sync.py:289 | the username if non-empty, else the id in decimal; never empty |
| Classifier.TagsOfSpec | tgarchive/sync.py:254-276 | "bot" exactly for bot user accounts, "scam" and "fake" exactly when flagged, nothing else, in that order; none for a forbidden channel |
| Classifier.UserOfSpec | tgarchive/sync.py:253-295 | a forbidden channel is its title and nothing else; other senders get their tags, a name falling back to the id, names only for user accounts, an avatar only when enabled |
| Classifier.AvatarOfSpec | tgarchive/sync.py:402-424 | a cached file is reused; a downloaded photo is used; no photo gives a placeholder at the avatar path for a user and no avatar for a channel; a failure gives none |
| Classifier.GetUser | tgarchive/sync.py:253-295 | building the tag list by appends yields UserOf; with avatars enabled, the placeholder drawn is exactly `_download_avatar`'s (a user account with no cached file and no photo), lettered from the first name; none otherwise |
| Classifier.Percent | tgarchive/sync.py:310 | percentage · total = voters · 100 for a positive total, 0 otherwise |
| Classifier.DefaultOptions | tgarchive/sync.py:301-304 | one default option per answer |
| Classifier.TalliedOptions | tgarchive/sync.py:307-311 | one option per answer after applying results |
| Classifier.PollOfSpec | tgarchive/sync.py:297-321 | no results give no media, and results give poll media unless they fail; more results than answers, or no voter total, fail; otherwise the media keeps the id, question and JSON, option i is answer i with result i's voters, correctness and percentage, and the rest keep the defaults |
| Classifier.MakePoll | tgarchive/sync.py:297-321 | overwriting option i with result i in a loop gives PollOf, errors included |
| Classifier.MediaOfSpec | tgarchive/sync.py:323-378 | a file attachment is recorded exactly when enabled, allowed by the MIME list and not failed, as a photo-typed record pointing at the moved file; a web page whenever it has fields and did not fail, with its url, title, non-empty description as text and the downloaded thumbnail |
| Classifier.MediaFilesDistinct | tgarchive/sync.py:380-392 | attachments of different messages never share a file |
| Classifier.FirstStickerAlt | tgarchive/sync.py:192-198 | present exactly when some attribute is a sticker, and then the alt text of the first one |
| Classifier.ClassifySpec | tgarchive/sync.py:175-233 | type from the action, sticker alt text as content, reply only to a non-zero id, the sender's user record exactly with a sender, origin exactly for channel forwards, the poll's or the downloaded media; only an unholdable poll fails |
| Classifier.MessageMediaSpec | tgarchive/sync.py:182-202 | only a poll the answers cannot hold fails; a sticker or a message without media gets none; a poll gets _make_poll's result and other media _get_media's; media carries the message id |
| Classifier.ForwardOriginSpec | tgarchive/sync.py:227-231 | an origin is recorded exactly for a channel forward, and it is the channel id |
| Classifier.AssembleSpec | tgarchive/sync.py:204-233 | the record keeps the item's id, dates, chat and JSON; the type follows the action; reply only to a non-zero id; the sender's user record exactly with a sender; sticker alt text as content |
| Classifier.ClassifyAgrees | tgarchive/sync.py:227-231 | as written and as corrected agree on every item not forwarded from a user or basic group |
| Classifier.ForwardFromUserAborts | tgarchive/sync.py:227-231 | a message forwarded from a user fails with AttributeError as written, and records no origin as corrected |
| Classifier.ForwardFromUserExample | tgarchive/sync.py:227-231 | a plain text message forwarded from user 42 raises AttributeError as written |
| Takeout.AcquireGranted | tgarchive/sync.py:145-151 | a takeout session comes from a granted attempt among the first three, after only retried ones, with one prompt per pending approval before it |
| Takeout.AcquireReachesGrant | tgarchive/sync.py:145-151 | conversely, such a granted attempt always yields the takeout session |
| Takeout.AcquireExhausted | tgarchive/sync.py:166-168 | three retried attempts end with "could not initiate takeout.", after one prompt per pending approval |
| Takeout.AcquireError | tgarchive/sync.py:146-162 | any other failure is the error of an attempt that only retried attempts preceded |
| Takeout.NewClient | tgarchive/sync.py:145-170 | the retry loop ends exactly as Acquire: a plain client without takeout, else as above |
| SyncEngine.FirstRequestSpec | tgarchive/sync.py:44-54 | explicit ids are fetched as such; else a non-zero from_id; else the highest stored id, 0 for an empty store |
| SyncEngine.StoreMessage | tgarchive/sync.py:69-75 | persisting a message upserts its user if any, its media if any, then its row, and touches no chat |
| SyncEngine.StoreThenRead | tgarchive/sync.py:69-75 | a stored message reads back with its own fields, the user it carried and its media when the id is non-zero |
| SyncEngine.Commit | tgarchive/sync.py:93 | committing makes the current tables durable and keeps the counters |
| SyncEngine.Persist | tgarchive/sync.py:67-82 | each message is stored and counted, and every hundredth triggers a commit |
| SyncEngine.Walk | tgarchive/sync.py:61-91 | a batch asks for another only when it stored a message (or one was stored before), and then it has a last message |
| SyncEngine.SyncDurable | tgarchive/sync.py:79-106 | at any end the tables are the committed state plus fewer than a hundred messages since; a finished run has committed everything |
| SyncEngine.SyncFirstRequest | tgarchive/sync.py:44-63 | the first request is the resume cursor, and there is at most one request per answer plus one |
| SyncEngine.SyncIds | tgarchive/sync.py:89-91 | with explicit ids, one request is made and at most one message is persisted |
| SyncEngine.SyncLimit | tgarchive/sync.py:89-91 | a positive fetch_limit bounds the messages a run processes |
| SyncEngine.BatchContinues | tgarchive/sync.py:95-96 | a batch that asks for more stored all its items and continues after the last one |
| SyncEngine.SyncChained | tgarchive/sync.py:95-96 | each request after the first continues after the last message of the previous answer, which was stored in full; no chat row changes |
| SyncEngine.StoreOne | tgarchive/sync.py:69-75 | the three inserts leave the tables at StoreMessage, committing nothing |
| SyncEngine.PersistOne | tgarchive/sync.py:68-82 | storing one message leaves tables, committed state and counters at Persist of the old ones |
| SyncEngine.PersistBatch | tgarchive/sync.py:59-91 | the per-batch loop, classifying with the given reading, ends in Walk's state, error or stop flag |
| SyncEngine.SyncLoop | tgarchive/sync.py:58-106 | the fetch loop ends in Run's tables, committed state, count, requests and outcome |
| SyncEngine.Sync | tgarchive/sync.py:38-113 | the run ends in SyncSpec's tables, committed state, count, requests and outcome; takeout is closed exactly when a takeout run finishes |
| SyncEngine.SyncForwardFromUser | tgarchive/sync.py:58-113 | as written, a first batch whose first message is forwarded from a user aborts the run with AttributeError after one request, storing and committing nothing |
| SyncEngine.WalkForwardFromUser | tgarchive/sync.py:59-91 | as intended, the batch persists that message without an origin and goes on after it unless the stop rule fires |

## Left out

- The Telegram client is not modelled. Starting it, `get_messages`, `download_media` and
  `download_profile_photo` become inputs: fetch results, download outcomes and avatar
  outcomes.
- Sleeping, random pacing, logging, the proxy and the client logger patch have no effect
  on the archive, so they are not modelled.
- `_get_group_id`, `init_get_and_save_dialogs`, `finish_takeout` and the database backup
  on open are outside the modelled core. `finish_takeout` is only the flag
  `takeoutClosed`.
- PIL image drawing is not modelled. Only the letter of a placeholder avatar is.
- JSON encoding is not modelled. `full`, `full_entity` and the poll option list are
  opaque strings or values. `json.loads(x) if x else None` is `Queries.Decoded`.
- Time zones and `strftime` are not modelled. Timestamps are UTC at one-second
  precision. Slug and label formatting is not modelled.
- File-system effects are not modelled (makedirs, the move itself, existence checks).
  A move onto an existing file raises in `shutil.move`. That case, and any other
  download error, is the input `DownloadFailed`.
- Classifier.MediaOf: a `MessageMediaDocument` without a document is not modelled.
  Telethon leaves `document` as None then, for example for an expired self-destructing
  document. The source raises AttributeError at tgarchive/sync.py:190 and the run aborts.
- Classifier.SenderId: a sender that is a basic group (`Chat`) is not modelled. Only
  user accounts, channels and forbidden channels are senders here.
- Classifier.ContentOf: a service message whose `raw_text` is None is modelled as empty
  text.
- Classifier.Percent: the percentage is a real number, not a float.
- Paths.UpperChar: only ASCII letters are upper-cased. Python's `str.upper` also maps
  other alphabets.
- Text.AfterLast: a downloaded path ending in a slash is not modelled. The client never
  returns a directory.
- Queries.FromChat: the join is modelled on an origin id or its `-100` marked form,
  raw id first. When both ids are stored, the SQL join yields two rows, and the model
  keeps one.
- Queries.JoinedMedia: the media's `full` column is carried as stored. The source
  decodes it with `json.loads`, and an empty one would be None. The model keeps the
  text. The sync stores the `to_json()` text there, which is never empty.
- Queries.GetGroups: the query has no ORDER BY. The model returns ascending id order.
  The empty-string date is modelled as None.
- Queries.Dayline: the query ranks rows with `ROW_NUMBER() OVER()` without a window
  order and reads the bare `PAGE()` column of a GROUP BY. Both are left to SQLite. The
  model takes the rank as the position in id order, and the page as that of the day's
  first message.
- Queries.DaylineCounts: the outer query groups by day with no ORDER BY. The model
  lists the days ascending, the order SQLite's grouping yields.
- Queries.Dayline: a zero limit is excluded. With it, PAGE divides by zero for a month
  that has messages, and the query errors. For an empty month the source returns no
  days without calling PAGE. The model states neither case.
- SyncEngine.Run: the `last_date` kept for the final log line is not modelled.
- `Sync`: classification happens lazily in the source, while the loop runs, and so it
  does in `PersistBatch`. The specification `Run` walks the answers with every batch
  already classified (`Answers`). The two are the same, because classifying reads
  nothing that the loop changes.

## Findings

| source | as written | input that shows it | evidently intended | confidence | as-written member | corrected member |
|---|---|---|---|---|---|---|
| tgarchive/sync.py:227-231 | the forward origin is read as `m.fwd_from.from_id.channel_id` for every forwarded message | a message forwarded from a user account: `from_id` is a `PeerUser`, which has no `channel_id`, so `AttributeError` escapes `_get_messages` and aborts the sync | record the channel id for channel forwards and no origin for the others | not executed | Classifier.ForwardFromUserExample | Classifier.ClassifySpec |
