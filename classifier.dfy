/**
 * The per-message normaliser of the sync engine (tgarchive/sync.py:175-378): a raw
 * Telegram message, from the closed set of variants the engine distinguishes, becomes
 * a Message with its User and Media. What the client would do when asked to download
 * something is an input (ItemIO), since downloads are network and disk effects.
 * A Failure is an exception that escapes `_get_messages` and aborts the whole run.
 */
module Classifier {
  import opened Wrappers
  import opened Records
  import opened Text
  import Paths

  /** The settings the engine reads (config.yaml). */
  datatype Config = Config(
    downloadMedia: bool,
    downloadAvatars: bool,
    mimeTypes: seq<string>,
    mediaDir: string,
    fetchLimit: int,
    useTakeout: bool)

  // ---- Raw message variants ----

  datatype DocAttribute = StickerAttr(alt: string) | OtherAttr
  datatype Document = Document(mimeType: string, attributes: seq<DocAttribute>)

  /** A linked page; one whose fields were not fetched yet cannot be read. */
  datatype WebPage =
    | WebPageEmpty
    | WebPageWithFields(url: string, title: Option<string>, description: Option<string>)
    | WebPageWithoutFields

  datatype AnswerVoters = AnswerVoters(voters: int, correct: bool)
  datatype PollResults = PollResults(totalVoters: Option<int>, results: Option<seq<AnswerVoters>>)

  datatype RawMedia =
    | MediaPhoto
    | MediaDocument(document: Document)
    | MediaContact
    | MediaWebPage(webpage: WebPage)
    | MediaPoll(question: string, answers: seq<string>, results: Option<PollResults>)
    | MediaOther

  datatype Action = ChatAddUser | ChatDeleteUser | OtherAction

  datatype Peer = PeerUser(userId: int) | PeerChat(chatId: int) | PeerChannel(channelId: int)

  datatype ForwardHeader = ForwardHeader(fromId: Option<Peer>)

  datatype ReplyHeader = ReplyHeader(replyToMsgId: Option<int>)

  datatype Sender =
    | UserSender(id: int, username: Option<string>, firstName: Option<string>, lastName: Option<string>,
                 bot: bool, scam: bool, fake: bool, full: string)
    | ChannelSender(id: int, username: Option<string>, scam: bool, fake: bool, full: string)
    | ForbiddenChannel(id: int, title: string, full: string)

  /**
   * A fetched message. `fileMime` is the MIME type of its attached file, None when
   * there is no file or no type; `mediaFull` and `full` are the opaque JSON dumps.
   */
  datatype RawMessage = RawMessage(
    id: int,
    date: DateTime,
    editDate: Option<DateTime>,
    rawText: string,
    media: Option<RawMedia>,
    mediaFull: string,
    fileMime: Option<string>,
    action: Option<Action>,
    replyTo: Option<ReplyHeader>,
    sender: Option<Sender>,
    fwdFrom: Option<ForwardHeader>,
    full: string)

  // ---- What the client does when asked ----

  datatype DownloadOutcome = Saved(file: string) | NothingSaved | DownloadFailed
  datatype PhotoOutcome = PhotoSaved(path: string) | NoPhoto | PhotoFailed

  /** Whether the avatar file already exists, and what a profile-photo download returns. */
  datatype AvatarIO = AvatarIO(cached: bool, photo: PhotoOutcome)

  datatype ItemIO = ItemIO(mediaDownload: DownloadOutcome, avatar: AvatarIO)

  datatype Item = Item(msg: RawMessage, io: ItemIO)

  // ---- Users ----

  function SenderId(s: Sender): int {
    match s
    case UserSender(id, _, _, _, _, _, _, _) => id
    case ChannelSender(id, _, _, _, _) => id
    case ForbiddenChannel(id, _, _) => id
  }

  /** The avatar path, and the letter of a generated placeholder when one is drawn. */
  datatype AvatarResult = AvatarResult(path: Option<string>, placeholder: Option<string>)

  /**
   * `_download_avatar`: an existing file is reused; otherwise the downloaded photo, or
   * a generated placeholder at the same path. A channel has no first name, so the
   * placeholder cannot be made for it and the attempt fails (avatar None).
   */
  function AvatarOf(cfg: Config, s: Sender, io: AvatarIO): (r: AvatarResult)
    requires !s.ForbiddenChannel?
  {
    var file := Paths.AvatarPath(cfg.mediaDir, SenderId(s), s.username);
    if io.cached then AvatarResult(Some(file), None)
    else match io.photo
      case PhotoSaved(p) => AvatarResult(Some(p), None)
      case PhotoFailed => AvatarResult(None, None)
      case NoPhoto =>
        if s.UserSender? then AvatarResult(Some(file), Some(Paths.PlaceholderLetter(s.firstName)))
        else AvatarResult(None, None)
  }

  /** The labels a sender earns, in the order they are appended. */
  function TagsOf(s: Sender): seq<string> {
    match s
    case ForbiddenChannel(_, _, _) => []
    case UserSender(_, _, _, _, bot, scam, fake, _) =>
      (if bot then ["bot"] else []) + (if scam then ["scam"] else []) + (if fake then ["fake"] else [])
    case ChannelSender(_, _, scam, fake, _) =>
      (if scam then ["scam"] else []) + (if fake then ["fake"] else [])
  }

  /** A non-empty username, else the id in decimal. */
  function DisplayName(id: int, username: Option<string>): (r: string)
    ensures r != []
  {
    if username.Some? && username.value != [] then username.value else IntToString(id)
  }

  /** `_get_user` as a value. */
  function UserOf(cfg: Config, s: Sender, io: AvatarIO): User {
    match s
    case ForbiddenChannel(id, title, full) => User(id, title, None, None, [], None, full)
    case UserSender(id, username, first, last, _, _, _, full) =>
      User(id, DisplayName(id, username), first, last, TagsOf(s),
           if cfg.downloadAvatars then AvatarOf(cfg, s, io).path else None, full)
    case ChannelSender(id, username, _, _, full) =>
      User(id, DisplayName(id, username), None, None, TagsOf(s),
           if cfg.downloadAvatars then AvatarOf(cfg, s, io).path else None, full)
  }

  /** Position of a tag in the fixed order bot, scam, fake. */
  function TagRank(tag: string): int {
    if tag == "bot" then 0 else if tag == "scam" then 1 else 2
  }

  /**
   * A sender carries the tags it earns (bot only for user accounts), in the order
   * bot, scam, fake, each at most once; a forbidden channel carries none.
   */
  lemma TagsOfSpec(s: Sender)
    ensures var tags := TagsOf(s);
      && (s.ForbiddenChannel? ==> tags == [])
      && (!s.ForbiddenChannel? ==>
            && ("bot" in tags <==> s.UserSender? && s.bot)
            && ("scam" in tags <==> s.scam)
            && ("fake" in tags <==> s.fake))
      && (forall t :: t in tags ==> t == "bot" || t == "scam" || t == "fake")
      && (forall i, j :: 0 <= i < j < |tags| ==> TagRank(tags[i]) < TagRank(tags[j]))
  {
    var tags := TagsOf(s);
    if s.UserSender? {
      var b: seq<string> := if s.bot then ["bot"] else [];
      var c: seq<string> := if s.scam then ["scam"] else [];
      var f: seq<string> := if s.fake then ["fake"] else [];
      assert tags == b + c + f;
    } else if s.ChannelSender? {
      var c: seq<string> := if s.scam then ["scam"] else [];
      var f: seq<string> := if s.fake then ["fake"] else [];
      assert tags == c + f;
    }
  }

  /**
   * A forbidden channel is named by its title and has nothing else; any other sender
   * gets its tags, a name that falls back to the id, first and last names only when it
   * is a user account, and an avatar only when avatars are enabled.
   */
  lemma UserOfSpec(cfg: Config, s: Sender, io: AvatarIO)
    ensures var u := UserOf(cfg, s, io);
      && u.id == SenderId(s)
      && (s.ForbiddenChannel? ==>
            u.username == s.title && u.firstName.None? && u.lastName.None? && u.tags == [] && u.avatar.None?)
      && (!s.ForbiddenChannel? ==>
            && u.tags == TagsOf(s)
            && (s.username.Some? && s.username.value != [] ==> u.username == s.username.value)
            && (s.username.None? || s.username.value == [] ==> u.username == IntToString(s.id))
            && (s.UserSender? ==> u.firstName == s.firstName && u.lastName == s.lastName)
            && (s.ChannelSender? ==> u.firstName.None? && u.lastName.None?)
            && (cfg.downloadAvatars ==> u.avatar == AvatarOf(cfg, s, io).path)
            && (!cfg.downloadAvatars ==> u.avatar.None?))
  {
  }

  /**
   * A cached avatar file is reused as is; a missing photo gives a placeholder at the
   * user's avatar path, lettered from the first name, and no avatar for a channel.
   */
  lemma AvatarOfSpec(cfg: Config, s: Sender, io: AvatarIO)
    requires !s.ForbiddenChannel?
    ensures var r := AvatarOf(cfg, s, io);
      var file := Paths.AvatarPath(cfg.mediaDir, SenderId(s), s.username);
      && (io.cached ==> r == AvatarResult(Some(file), None))
      && (!io.cached && io.photo.PhotoSaved? ==> r == AvatarResult(Some(io.photo.path), None))
      && (r.placeholder.Some? <==> !io.cached && io.photo.NoPhoto? && s.UserSender?)
      && (r.placeholder.Some? ==> r.path == Some(file) && r.placeholder == Some(Paths.PlaceholderLetter(s.firstName)))
      && (r.path.None? <==> !io.cached && (io.photo.PhotoFailed? || (io.photo.NoPhoto? && s.ChannelSender?)))
  {
  }

  /**
   * `_get_user` as the engine runs it, building the tag list by appending; it also
   * reports the letter of any placeholder avatar it draws.
   */
  method GetUser(cfg: Config, s: Sender, io: AvatarIO) returns (u: User, placeholder: Option<string>)
    ensures u == UserOf(cfg, s, io)
    ensures placeholder.Some? ==> cfg.downloadAvatars && s.UserSender? && u.avatar.Some?
    ensures placeholder.Some? ==> placeholder.value == Paths.PlaceholderLetter(s.firstName)
    ensures placeholder == if cfg.downloadAvatars && !s.ForbiddenChannel? then AvatarOf(cfg, s, io).placeholder else None
  {
    placeholder := None;
    if s.ForbiddenChannel? {
      return User(s.id, s.title, None, None, [], None, s.full), None;
    }
    var tags: seq<string> := [];
    if s.UserSender? && s.bot {
      tags := tags + ["bot"];
    }
    if s.scam {
      tags := tags + ["scam"];
    }
    if s.fake {
      tags := tags + ["fake"];
    }
    var avatar: Option<string> := None;
    if cfg.downloadAvatars {
      var a := AvatarOf(cfg, s, io);
      avatar := a.path;
      placeholder := a.placeholder;
    }
    var username := if s.username.Some? && s.username.value != [] then s.username.value else IntToString(s.id);
    var first := if s.UserSender? then s.firstName else None;
    var last := if s.UserSender? then s.lastName else None;
    u := User(s.id, username, first, last, tags, avatar, s.full);
  }

  // ---- Polls ----

  /** `voters / total * 100`, guarded against a zero total. */
  function Percent(voters: int, total: int): (r: real)
    ensures total <= 0 ==> r == 0.0
    ensures total > 0 ==> r * (total as real) == (voters as real) * 100.0
  {
    if total > 0 then (voters as real) / (total as real) * 100.0 else 0.0
  }

  /** Option i once result i has been applied. */
  function Tallied(answer: string, r: AnswerVoters, total: int): PollOption {
    PollOption(answer, r.voters, r.correct, Some(Percent(r.voters, total)))
  }

  /** The option list before any result is applied. */
  function DefaultOptions(answers: seq<string>): (r: seq<PollOption>)
    ensures |r| == |answers|
  {
    seq(|answers|, i requires 0 <= i < |answers| => PollOption(answers[i], 0, false, None))
  }

  /** The option list with the first `k` results applied. */
  function TalliedOptions(answers: seq<string>, rs: seq<AnswerVoters>, total: int, k: nat): (r: seq<PollOption>)
    requires k <= |rs| && k <= |answers|
    ensures |r| == |answers|
  {
    seq(|answers|, i requires 0 <= i < |answers| =>
      if i < k then Tallied(answers[i], rs[i], total) else PollOption(answers[i], 0, false, None))
  }

  /**
   * `_make_poll`: no media when there are no results; otherwise one option per answer
   * with the i-th result applied to the i-th answer. More results than answers is an
   * IndexError, a missing voter total a TypeError (the first result is applied first).
   */
  function PollOf(msgId: int, question: string, answers: seq<string>, results: Option<PollResults>, full: string)
    : Result<Option<Media>, string>
  {
    if results.None? || results.value.results.None? || results.value.results.value == [] then Success(None)
    else
      var rs := results.value.results.value;
      if answers == [] then Failure("IndexError")
      else if results.value.totalVoters.None? then Failure("TypeError")
      else if |rs| > |answers| then Failure("IndexError")
      else
        var options := TalliedOptions(answers, rs, results.value.totalVoters.value, |rs|);
        Success(Some(Media(msgId, Poll, None, Some(question), PollOptions(options), None, full)))
  }

  /**
   * A poll without results has no media, and one with results has poll media unless it
   * fails. A tallied poll has exactly one option per answer, labelled by it; answer i
   * takes the voters, correctness and percentage of result i, and answers without a
   * result keep the defaults (no votes, not correct, no percentage); with no voters
   * every percentage is 0. Failure happens exactly when there are results the answers
   * cannot hold.
   */
  lemma PollOfSpec(msgId: int, question: string, answers: seq<string>, results: Option<PollResults>, full: string)
    ensures var r := PollOf(msgId, question, answers, results, full);
      && (results.None? || results.value.results.None? || results.value.results.value == [] ==> r == Success(None))
      && (r.Failure? <==>
            && results.Some? && results.value.results.Some? && results.value.results.value != []
            && (|results.value.results.value| > |answers| || results.value.totalVoters.None?))
      && (results.Some? && results.value.results.Some? && results.value.results.value != [] && r.Success? ==>
            r.value.Some?)
      && (r.Success? && r.value.Some? ==>
            var m := r.value.value;
            var rs := results.value.results.value;
            var total := results.value.totalVoters.value;
            && m.id == msgId && m.kind == Poll && m.title == Some(question) && m.full == full
            && m.url.None? && m.thumb.None?
            && m.description.PollOptions?
            && |m.description.options| == |answers|
            && (forall i :: 0 <= i < |answers| ==> m.description.options[i].answer == answers[i])
            && (forall i :: 0 <= i < |rs| ==>
                  && m.description.options[i].count == rs[i].voters
                  && m.description.options[i].correct == rs[i].correct
                  && m.description.options[i].percent == Some(Percent(rs[i].voters, total)))
            && (forall i :: |rs| <= i < |answers| ==>
                  m.description.options[i] == PollOption(answers[i], 0, false, None))
            && (total <= 0 ==> forall i :: 0 <= i < |rs| ==> m.description.options[i].percent == Some(0.0)))
  {
  }

  /**
   * `_make_poll` as the engine runs it: start from the default options and overwrite
   * option i with result i, one result at a time.
   */
  method MakePoll(msgId: int, question: string, answers: seq<string>, results: Option<PollResults>, full: string)
    returns (r: Result<Option<Media>, string>)
    ensures r == PollOf(msgId, question, answers, results, full)
  {
    if results.None? || results.value.results.None? || results.value.results.value == [] {
      return Success(None);
    }
    var rs := results.value.results.value;
    var total := results.value.totalVoters;
    var options := DefaultOptions(answers);
    var i := 0;
    while i < |rs|
      invariant 0 <= i <= |rs| && i <= |answers|
      invariant total.Some? || i == 0
      invariant total.Some? ==> options == TalliedOptions(answers, rs, total.value, i)
      invariant total.None? ==> options == DefaultOptions(answers)
    {
      if i >= |options| {
        return Failure("IndexError");
      }
      if total.None? {
        return Failure("TypeError");
      }
      options := options[i := Tallied(answers[i], rs[i], total.value)];
      i := i + 1;
    }
    if total.None? {
      return Failure("TypeError");
    }
    return Success(Some(Media(msgId, Poll, None, Some(question), PollOptions(options), None, full)));
  }

  // ---- Other media ----

  /** Where a download put the file: moved into the message's directory, or nothing. */
  function DownloadedPath(cfg: Config, groupId: int, msgId: int, d: DownloadOutcome): Option<string>
    requires !d.DownloadFailed?
  {
    if d.Saved? then Some(Paths.MovedMediaPath(cfg.mediaDir, groupId, msgId, d.file)) else None
  }

  /** Whether the MIME allow-list rejects the file: only a non-empty list and a known type can. */
  predicate MimeRejected(cfg: Config, fileMime: Option<string>) {
    |cfg.mimeTypes| > 0 && fileMime.Some? && fileMime.value != [] && fileMime.value !in cfg.mimeTypes
  }

  /** `_get_media`: web pages are always fetched; photos, documents and contacts only when enabled and allowed. */
  function MediaOf(cfg: Config, groupId: int, m: RawMessage, d: DownloadOutcome): Option<Media>
    requires m.media.Some?
  {
    match m.media.value
    case MediaWebPage(page) =>
      if page.WebPageEmpty? || page.WebPageWithoutFields? || d.DownloadFailed? then None
      else Some(Media(m.id, WebPage, Some(page.url), page.title,
                      if page.description.Some? && page.description.value != [] then Text(page.description.value)
                      else NoDescription,
                      DownloadedPath(cfg, groupId, m.id, d), m.mediaFull))
    case MediaPhoto => FileMedia(cfg, groupId, m, d)
    case MediaDocument(_) => FileMedia(cfg, groupId, m, d)
    case MediaContact => FileMedia(cfg, groupId, m, d)
    case MediaPoll(_, _, _) => None
    case MediaOther => None
  }

  function FileMedia(cfg: Config, groupId: int, m: RawMessage, d: DownloadOutcome): Option<Media> {
    if !cfg.downloadMedia || MimeRejected(cfg, m.fileMime) || d.DownloadFailed? then None
    else
      var path := DownloadedPath(cfg, groupId, m.id, d);
      Some(Media(m.id, Photo, path, path, NoDescription, path, m.mediaFull))
  }

  /**
   * A file attachment is recorded exactly when downloads are enabled, the allow-list
   * admits its type and the download does not fail, and then it points at the moved
   * file; a web page is recorded whenever its fields can be read and its download does
   * not fail, whatever the settings, with its url, title, description and downloaded
   * thumbnail; an empty description counts as none.
   */
  lemma MediaOfSpec(cfg: Config, groupId: int, m: RawMessage, d: DownloadOutcome)
    requires m.media.Some?
    ensures var r := MediaOf(cfg, groupId, m, d);
      && (r.Some? ==> r.value.id == m.id && r.value.full == m.mediaFull)
      && ((m.media.value.MediaPhoto? || m.media.value.MediaDocument? || m.media.value.MediaContact?) ==>
            && (r.Some? <==> cfg.downloadMedia && !MimeRejected(cfg, m.fileMime) && !d.DownloadFailed?)
            && (r.Some? ==> r.value.kind == Photo && r.value.description == NoDescription)
            && (r.Some? && d.Saved? ==>
                  && r.value.url == Some(Paths.MovedMediaPath(cfg.mediaDir, groupId, m.id, d.file))
                  && r.value.url == r.value.title == r.value.thumb)
            && (r.Some? && d.NothingSaved? ==> r.value.url.None? && r.value.thumb.None?))
      && (m.media.value.MediaWebPage? ==>
            && (r.Some? <==> m.media.value.webpage.WebPageWithFields? && !d.DownloadFailed?)
            && (r.Some? ==>
                  && r.value.kind == WebPage
                  && r.value.url == Some(m.media.value.webpage.url)
                  && r.value.title == m.media.value.webpage.title
                  && r.value.thumb == DownloadedPath(cfg, groupId, m.id, d)
                  && (m.media.value.webpage.description.Some? && m.media.value.webpage.description.value != [] ==>
                        r.value.description == Text(m.media.value.webpage.description.value))
                  && (m.media.value.webpage.description.None? || m.media.value.webpage.description.value == [] ==>
                        r.value.description == NoDescription)))
      && (m.media.value.MediaPoll? || m.media.value.MediaOther? ==> r.None?)
  {
  }

  /** Two attachments of different messages never share a file. */
  lemma MediaFilesDistinct(cfg: Config, groupId: int, m1: RawMessage, d1: DownloadOutcome, m2: RawMessage, d2: DownloadOutcome)
    requires m1.media.Some? && m2.media.Some?
    requires MediaOf(cfg, groupId, m1, d1).Some? && MediaOf(cfg, groupId, m2, d2).Some?
    requires MediaOf(cfg, groupId, m1, d1).value.thumb.Some?
    requires MediaOf(cfg, groupId, m1, d1).value.thumb == MediaOf(cfg, groupId, m2, d2).value.thumb
    ensures m1.id == m2.id
  {
    ThumbIsMoved(cfg, groupId, m1, d1);
    ThumbIsMoved(cfg, groupId, m2, d2);
    Paths.MovedMediaPathInjective(cfg.mediaDir, groupId, m1.id, d1.file, groupId, m2.id, d2.file);
  }

  /** A recorded thumbnail is the file the download saved, moved into the message's directory. */
  lemma ThumbIsMoved(cfg: Config, groupId: int, m: RawMessage, d: DownloadOutcome)
    requires m.media.Some? && MediaOf(cfg, groupId, m, d).Some?
    requires MediaOf(cfg, groupId, m, d).value.thumb.Some?
    ensures d.Saved?
    ensures MediaOf(cfg, groupId, m, d).value.thumb == Some(Paths.MovedMediaPath(cfg.mediaDir, groupId, m.id, d.file))
  {
    ThumbIsDownloaded(cfg, groupId, m, d);
  }

  /** The thumbnail of recorded media is the path of its download. */
  lemma ThumbIsDownloaded(cfg: Config, groupId: int, m: RawMessage, d: DownloadOutcome)
    requires m.media.Some? && MediaOf(cfg, groupId, m, d).Some?
    ensures !d.DownloadFailed?
    ensures MediaOf(cfg, groupId, m, d).value.thumb == DownloadedPath(cfg, groupId, m.id, d)
  {
    if !m.media.value.MediaWebPage? {
      assert MediaOf(cfg, groupId, m, d) == FileMedia(cfg, groupId, m, d);
    }
  }

  // ---- Messages ----

  predicate IsSticker(media: RawMedia) {
    media.MediaDocument? && media.document.mimeType == "application/x-tgsticker"
  }

  /** The alt text of the document's first sticker attribute. */
  function FirstStickerAlt(attrs: seq<DocAttribute>): (r: Option<string>)
    ensures r.Some? <==> exists i :: 0 <= i < |attrs| && attrs[i].StickerAttr?
    ensures r.Some? ==> exists i :: 0 <= i < |attrs| && attrs[i] == StickerAttr(r.value)
                                    && forall j :: 0 <= j < i ==> !attrs[j].StickerAttr?
  {
    if attrs == [] then None
    else if attrs[0].StickerAttr? then Some(attrs[0].alt)
    else
      var r := FirstStickerAlt(attrs[1..]);
      assert forall i :: 1 <= i < |attrs| ==> attrs[1..][i - 1] == attrs[i];
      if r.Some? then
        var i :| 0 <= i < |attrs[1..]| && attrs[1..][i] == StickerAttr(r.value)
                  && forall j :: 0 <= j < i ==> !attrs[1..][j].StickerAttr?;
        assert attrs[i + 1] == StickerAttr(r.value);
        r
      else r
  }

  /** A sticker's non-empty alt text replaces the message text. */
  function ContentOf(m: RawMessage): string {
    if m.media.Some? && IsSticker(m.media.value) then
      var alt := FirstStickerAlt(m.media.value.document.attributes);
      if alt.Some? && alt.value != [] then alt.value else m.rawText
    else m.rawText
  }

  function KindOf(action: Option<Action>): MessageType {
    if action == Some(ChatAddUser) then UserJoined
    else if action == Some(ChatDeleteUser) then UserLeft
    else Plain
  }

  /** The replied-to id, when there is a header with a non-zero id. */
  function ReplyOf(h: Option<ReplyHeader>): Option<int> {
    if h.Some? && h.value.replyToMsgId.Some? && h.value.replyToMsgId.value != 0 then h.value.replyToMsgId else None
  }

  /** The channel a message was forwarded from; other origins record none. */
  function ForwardOrigin(f: Option<ForwardHeader>): Option<int> {
    if f.Some? && f.value.fromId.Some? && f.value.fromId.value.PeerChannel? then Some(f.value.fromId.value.channelId)
    else None
  }

  /** The origin as the source reads it: `.channel_id` of any origin, which only a channel has. */
  function ForwardOriginAsWritten(f: Option<ForwardHeader>): Result<Option<int>, string> {
    if f.Some? && f.value.fromId.Some? then
      match f.value.fromId.value
      case PeerChannel(c) => Success(Some(c))
      case PeerUser(_) => Failure("AttributeError")
      case PeerChat(_) => Failure("AttributeError")
    else Success(None)
  }

  /** The media record of a message: none for stickers, the poll, or `_get_media`. */
  function MessageMedia(cfg: Config, groupId: int, item: Item): Result<Option<Media>, string> {
    var m := item.msg;
    if m.media.None? || IsSticker(m.media.value) then Success(None)
    else match m.media.value
      case MediaPoll(question, answers, results) => PollOf(m.id, question, answers, results, m.mediaFull)
      case _ => Success(MediaOf(cfg, groupId, m, item.io.mediaDownload))
  }

  /** The Message built from an item once its media and forward origin are known. */
  function Assemble(cfg: Config, groupId: int, item: Item, media: Option<Media>, origin: Option<int>): Message {
    var m := item.msg;
    Message(m.id, KindOf(m.action), m.date, m.editDate, ContentOf(m), ReplyOf(m.replyTo),
            if m.sender.Some? then Some(UserOf(cfg, m.sender.value, item.io.avatar)) else None,
            media, m.full, groupId, origin)
  }

  /** One item of `_get_messages`, with forward origins read as intended. */
  function Classify(cfg: Config, groupId: int, item: Item): Result<Message, string> {
    match MessageMedia(cfg, groupId, item)
    case Failure(e) => Failure(e)
    case Success(media) => Success(Assemble(cfg, groupId, item, media, ForwardOrigin(item.msg.fwdFrom)))
  }

  /** One item of `_get_messages` exactly as written. */
  function ClassifyAsWritten(cfg: Config, groupId: int, item: Item): Result<Message, string> {
    match MessageMedia(cfg, groupId, item)
    case Failure(e) => Failure(e)
    case Success(media) =>
      match ForwardOriginAsWritten(item.msg.fwdFrom)
      case Failure(e) => Failure(e)
      case Success(origin) => Success(Assemble(cfg, groupId, item, media, origin))
  }

  /** Which reading of the forward origin a run uses: the code as written, or as intended. */
  datatype Edition = AsWritten | Corrected

  function ClassifyIn(ed: Edition, cfg: Config, groupId: int, item: Item): Result<Message, string> {
    match ed
    case AsWritten => ClassifyAsWritten(cfg, groupId, item)
    case Corrected => Classify(cfg, groupId, item)
  }

  /**
   * What a classified message records: its type from the service action, a sticker's
   * alt text as content and no media for it, a reply only to a non-zero id, a user
   * exactly when there is a sender, a forward origin exactly for channel forwards, the
   * item's own id, dates and chat. Only a poll the answers cannot hold aborts.
   */
  lemma ClassifySpec(cfg: Config, groupId: int, item: Item)
    ensures var m := item.msg;
      var r := Classify(cfg, groupId, item);
      && (r.Failure? <==> m.media.Some? && m.media.value.MediaPoll?
                          && PollOf(m.id, m.media.value.question, m.media.value.answers,
                                    m.media.value.results, m.mediaFull).Failure?)
      && (r.Success? ==>
            var msg := r.value;
            && msg.id == m.id && msg.date == m.date && msg.editDate == m.editDate
            && msg.chatId == groupId && msg.full == m.full
            && (msg.kind == UserJoined <==> m.action == Some(ChatAddUser))
            && (msg.kind == UserLeft <==> m.action == Some(ChatDeleteUser))
            && (msg.replyTo.Some? <==>
                  m.replyTo.Some? && m.replyTo.value.replyToMsgId.Some? && m.replyTo.value.replyToMsgId.value != 0)
            && (msg.replyTo.Some? ==> msg.replyTo == m.replyTo.value.replyToMsgId)
            && (msg.user.Some? <==> m.sender.Some?)
            && (msg.user.Some? ==> msg.user.value.id == SenderId(m.sender.value))
            && (forall c :: msg.fromChatId == Some(c) <==>
                  m.fwdFrom.Some? && m.fwdFrom.value.fromId == Some(PeerChannel(c)))
            && (m.media.None? ==> msg.media.None?)
            && (m.media.Some? && IsSticker(m.media.value) ==>
                  && msg.media.None?
                  && var alt := FirstStickerAlt(m.media.value.document.attributes);
                     msg.content == (if alt.Some? && alt.value != [] then alt.value else m.rawText))
            && (m.media.None? || !IsSticker(m.media.value) ==> msg.content == m.rawText)
            && (m.sender.Some? ==> msg.user == Some(UserOf(cfg, m.sender.value, item.io.avatar)))
            && (m.media.Some? && m.media.value.MediaPoll? ==>
                  PollOf(m.id, m.media.value.question, m.media.value.answers,
                         m.media.value.results, m.mediaFull) == Success(msg.media))
            && (m.media.Some? && !IsSticker(m.media.value) && !m.media.value.MediaPoll? ==>
                  msg.media == MediaOf(cfg, groupId, m, item.io.mediaDownload))
            && (msg.media.Some? ==> msg.media.value.id == m.id))
  {
    MessageMediaSpec(cfg, groupId, item);
    ForwardOriginSpec(item.msg.fwdFrom);
    var media := MessageMedia(cfg, groupId, item);
    if media.Success? {
      AssembleSpec(cfg, groupId, item, media.value, ForwardOrigin(item.msg.fwdFrom));
    }
  }

  /** Only a poll the answers cannot hold fails; stickers and plain messages get no media; media carries the message id. */
  lemma MessageMediaSpec(cfg: Config, groupId: int, item: Item)
    ensures var m := item.msg;
      var r := MessageMedia(cfg, groupId, item);
      && (r.Failure? <==> m.media.Some? && m.media.value.MediaPoll?
                          && PollOf(m.id, m.media.value.question, m.media.value.answers,
                                    m.media.value.results, m.mediaFull).Failure?)
      && (m.media.None? || IsSticker(m.media.value) ==> r == Success(None))
      && (m.media.Some? && m.media.value.MediaPoll? ==>
            r == PollOf(m.id, m.media.value.question, m.media.value.answers, m.media.value.results, m.mediaFull))
      && (m.media.Some? && !IsSticker(m.media.value) && !m.media.value.MediaPoll? ==>
            r == Success(MediaOf(cfg, groupId, m, item.io.mediaDownload)))
      && (r.Success? && r.value.Some? ==> r.value.value.id == m.id)
  {
    var m := item.msg;
    if m.media.Some? && !IsSticker(m.media.value) && !m.media.value.MediaPoll? {
      MediaOfSpec(cfg, groupId, m, item.io.mediaDownload);
    }
  }

  /** Exactly a channel forward records an origin, the channel's id. */
  lemma ForwardOriginSpec(f: Option<ForwardHeader>)
    ensures forall c :: ForwardOrigin(f) == Some(c) <==> f.Some? && f.value.fromId == Some(PeerChannel(c))
  {
  }

  /** The assembled message keeps the item's fields, the given media and origin, and derives type, reply, user and content. */
  lemma AssembleSpec(cfg: Config, groupId: int, item: Item, media: Option<Media>, origin: Option<int>)
    ensures var m := item.msg;
      var msg := Assemble(cfg, groupId, item, media, origin);
      && msg.id == m.id && msg.date == m.date && msg.editDate == m.editDate
      && msg.chatId == groupId && msg.full == m.full && msg.media == media && msg.fromChatId == origin
      && (msg.kind == UserJoined <==> m.action == Some(ChatAddUser))
      && (msg.kind == UserLeft <==> m.action == Some(ChatDeleteUser))
      && (msg.replyTo.Some? <==>
            m.replyTo.Some? && m.replyTo.value.replyToMsgId.Some? && m.replyTo.value.replyToMsgId.value != 0)
      && (msg.replyTo.Some? ==> msg.replyTo == m.replyTo.value.replyToMsgId)
      && (msg.user.Some? <==> m.sender.Some?)
      && (msg.user.Some? ==> msg.user.value.id == SenderId(m.sender.value))
      && (m.sender.Some? ==> msg.user == Some(UserOf(cfg, m.sender.value, item.io.avatar)))
      && (m.media.Some? && IsSticker(m.media.value) ==>
            var alt := FirstStickerAlt(m.media.value.document.attributes);
            msg.content == (if alt.Some? && alt.value != [] then alt.value else m.rawText))
      && (m.media.None? || !IsSticker(m.media.value) ==> msg.content == m.rawText)
  {
  }

  /** As written and as intended agree on every item that is not forwarded from a user or basic group. */
  lemma ClassifyAgrees(cfg: Config, groupId: int, item: Item)
    requires item.msg.fwdFrom.Some? && item.msg.fwdFrom.value.fromId.Some? ==>
             item.msg.fwdFrom.value.fromId.value.PeerChannel?
    ensures ClassifyAsWritten(cfg, groupId, item) == Classify(cfg, groupId, item)
  {
  }

  /**
   * The discrepancy: a message forwarded from a user (or basic group) that is otherwise
   * fine aborts the run as written, while the intended reading records no origin.
   */
  lemma ForwardFromUserAborts(cfg: Config, groupId: int, item: Item, userId: int)
    requires item.msg.fwdFrom == Some(ForwardHeader(Some(PeerUser(userId))))
    requires Classify(cfg, groupId, item).Success?
    ensures ClassifyAsWritten(cfg, groupId, item) == Failure("AttributeError")
    ensures Classify(cfg, groupId, item).value.fromChatId.None?
  {
  }

  /** A concrete such message: plain text, forwarded from user 42. */
  lemma ForwardFromUserExample()
    ensures var cfg := Config(false, false, [], "media", 0, false);
      var msg := RawMessage(7, DateTime(2024, 1, 2, 3, 4, 5), None, "hi", None, "{}", None, None, None, None,
                            Some(ForwardHeader(Some(PeerUser(42)))), "{}");
      var item := Item(msg, ItemIO(NothingSaved, AvatarIO(false, NoPhoto)));
      && ClassifyAsWritten(cfg, -1001, item) == Failure("AttributeError")
      && Classify(cfg, -1001, item).Success?
  {
  }
}
