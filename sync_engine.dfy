/**
 * The incremental sync loop (`Sync.sync`, tgarchive/sync.py:38-113) over an abstract
 * message source and the store. The source is the sequence of answers the client
 * gives to the engine's successive fetch requests; a request past its end gets an
 * empty batch. Classification, user and media resolution are Classifier.ClassifyIn:
 * a run reads forward origins either as the code does (`AsWritten`, where a forward
 * from a user raises) or as intended (`Corrected`).
 *
 * `Run` is the specification: what the tables, the committed state, the counters and
 * the request log are at the end of a run. `Sync` is the loop itself, on the DB
 * object, proved to end in exactly that state.
 */
module SyncEngine {
  import opened Wrappers
  import opened Records
  import opened Store
  import opened Classifier
  import Queries

  /** What one fetch returns: a batch (falsy entries are None) or a rate-limit signal. */
  datatype Fetch = Batch(items: seq<Option<Item>>) | FloodWait(seconds: int)

  /** A fetch request: the explicit ids, or the messages after an offset id. */
  datatype Request = ByIds(ids: seq<int>) | After(offsetId: int)

  datatype Outcome = Finished | Aborted(error: string)

  /** The error that `for m in None` raises when a rate-limited fetch returned nothing. */
  const NotIterable := "TypeError"

  /** Messages per intermediate commit. */
  const CommitEvery: nat := 100

  /**
   * The resume cursor: explicit ids first, then a non-zero `from_id`, then the highest
   * stored message id (0 for an empty store).
   */
  function FirstRequest(ids: seq<int>, fromId: Option<int>, t: Tables): Request {
    if ids != [] then ByIds(ids)
    else if fromId.Some? && fromId.value != 0 then After(fromId.value)
    else After(Queries.LastMessageId(t).0)
  }

  /**
   * Explicit ids are fetched as such; otherwise the offset is a given non-zero
   * `from_id`, or the highest id in the store, which is 0 exactly for an empty store.
   */
  lemma FirstRequestSpec(ids: seq<int>, fromId: Option<int>, t: Tables)
    ensures ids != [] ==> FirstRequest(ids, fromId, t) == ByIds(ids)
    ensures ids == [] ==> FirstRequest(ids, fromId, t).After?
    ensures ids == [] && fromId.Some? && fromId.value != 0 ==> FirstRequest(ids, fromId, t) == After(fromId.value)
    ensures ids == [] && (fromId.None? || fromId.value == 0) ==>
      var o := FirstRequest(ids, fromId, t).offsetId;
      && (t.messages == map[] ==> o == 0)
      && (t.messages != map[] ==> (forall k :: k in t.messages ==> k.id <= o) && exists k :: k in t.messages && k.id == o)
  {
  }

  /** One message persisted: its user first, then its media, then the message row. */
  function StoreMessage(t: Tables, m: Message): (r: Tables)
    ensures KeyOf(m) in r.messages && r.messages[KeyOf(m)] == MessageRowOf(m)
    ensures r.messages.Keys == t.messages.Keys + {KeyOf(m)}
    ensures forall k :: k in t.messages && k != KeyOf(m) ==> r.messages[k] == t.messages[k]
    ensures m.user.Some? ==> m.user.value.id in r.users && r.users[m.user.value.id] == UserRowOf(m.user.value)
    ensures m.user.Some? ==> r.users.Keys == t.users.Keys + {m.user.value.id}
    ensures m.user.None? ==> r.users == t.users
    ensures forall id :: id in t.users && (m.user.None? || id != m.user.value.id) ==> r.users[id] == t.users[id]
    ensures m.media.Some? ==> m.media.value.id in r.media && r.media[m.media.value.id] == m.media.value
    ensures m.media.Some? ==> r.media.Keys == t.media.Keys + {m.media.value.id}
    ensures m.media.None? ==> r.media == t.media
    ensures forall id :: id in t.media && (m.media.None? || id != m.media.value.id) ==> r.media[id] == t.media[id]
    ensures r.chats == t.chats
  {
    var t1 := if m.user.Some? then UpsertUser(t, m.user.value) else t;
    var t2 := if m.media.Some? then UpsertMedia(t1, m.media.value) else t1;
    UpsertMessage(t2, m)
  }

  /**
   * Reading a stored message back gives its own fields, the user it carried (tags
   * space-joined) and, when the media id is non-zero, the media it carried.
   */
  lemma StoreThenRead(t: Tables, m: Message)
    ensures var t' := StoreMessage(t, m);
      var v := Queries.MakeMessage(t', KeyOf(m));
      && v.id == m.id && v.chatId == m.chatId && v.kind == m.kind && v.date == m.date
      && v.editDate == m.editDate && v.content == m.content && v.replyTo == m.replyTo
      && v.fromChatId == m.fromChatId
      && (m.user.Some? ==>
            var u := m.user.value;
            v.user == Queries.UserView(Some(u.id), Some(u.username), u.firstName, u.lastName,
                                       Some(JoinTags(u.tags)), u.avatar, Queries.Decoded(u.full)))
      && (m.user.None? ==> v.user.id.None?)
      && (m.media.Some? && m.media.value.id != 0 ==> v.media == m.media)
      && (m.media.None? ==> v.media.None?)
  {
  }

  /** The state the loop carries: the tables, what is committed, and its counters. */
  datatype Progress = Progress(
    t: Tables,
    committed: Tables,
    n: nat,                  // messages processed in this run
    pending: seq<Message>,   // messages processed since the last commit
    last: Option<Message>)

  function Commit(p: Progress): (r: Progress)
    ensures r.committed == r.t == p.t && r.pending == [] && r.n == p.n && r.last == p.last
  {
    p.(committed := p.t, pending := [])
  }

  /** Persist one message, counting it and committing after every hundredth. */
  function Persist(p: Progress, m: Message): (r: Progress)
    ensures r.t == StoreMessage(p.t, m) && r.n == p.n + 1 && r.last == Some(m)
    ensures r.n % CommitEvery == 0 ==> r.committed == r.t && r.pending == []
    ensures r.n % CommitEvery != 0 ==> r.committed == p.committed && r.pending == p.pending + [m]
  {
    var t := StoreMessage(p.t, m);
    if (p.n + 1) % CommitEvery == 0 then Progress(t, t, p.n + 1, [], Some(m))
    else Progress(t, p.committed, p.n + 1, p.pending + [m], Some(m))
  }

  /** A fetched item after classification: None for a falsy item. */
  type Classified = Option<Result<Message, string>>

  /**
   * A batch classified item by item. Classification reads nothing the loop changes,
   * so classifying the whole batch up front and then walking it is the same as
   * classifying each item when the loop reaches it.
   */
  function ClassifyAll(ed: Edition, cfg: Config, groupId: int, items: seq<Option<Item>>): (rs: seq<Classified>)
    ensures |rs| == |items|
  {
    seq(|items|, i requires 0 <= i < |items| =>
      if items[i].Some? then Some(ClassifyIn(ed, cfg, groupId, items[i].value)) else None)
  }

  /** How one batch ends: with `has` telling whether to fetch again, or with an exception. */
  datatype BatchEnd = BatchDone(p: Progress, has: bool) | BatchCrashed(p: Progress, error: string)

  /** The stop rule after each message: the fetch limit is reached, or ids were given. */
  predicate StopAfter(cfg: Config, idsGiven: bool, n: nat) {
    0 < cfg.fetchLimit <= n || idsGiven
  }

  /** The inner loop over a classified batch, from item `i` on. */
  function Walk(cfg: Config, idsGiven: bool, rs: seq<Classified>, i: nat, p: Progress, has: bool): (r: BatchEnd)
    requires i <= |rs|
    ensures r.BatchDone? && r.has ==> has || i < |rs|
    ensures r.BatchDone? && r.has ==> r.p.last.Some? || (has && r.p.last == p.last)
    decreases |rs| - i
  {
    if i == |rs| then BatchDone(p, has)
    else if rs[i].None? then Walk(cfg, idsGiven, rs, i + 1, p, has)
    else match rs[i].value
      case Failure(e) => BatchCrashed(p, e)
      case Success(m) =>
        var p1 := Persist(p, m);
        if StopAfter(cfg, idsGiven, p1.n) then BatchDone(p1, false)
        else Walk(cfg, idsGiven, rs, i + 1, p1, true)
  }

  datatype RunEnd = RunEnd(p: Progress, requests: seq<Request>, outcome: Outcome)

  function FetchAt(source: seq<Fetch>, k: nat): Fetch {
    if k < |source| then source[k] else Batch([])
  }

  /** One answer of the source, classified: a batch of classified items, or a rate-limit signal. */
  datatype Answer = Answered(batch: seq<Classified>) | RateLimited

  /**
   * The source with every batch classified. Classification reads nothing the loop
   * changes, so the run can be stated over these.
   */
  function Answers(ed: Edition, cfg: Config, groupId: int, source: seq<Fetch>): (r: seq<Answer>)
    ensures |r| == |source|
    ensures forall k :: 0 <= k < |source| ==> (r[k].RateLimited? <==> source[k].FloodWait?)
  {
    seq(|source|, k requires 0 <= k < |source| =>
      if source[k].Batch? then Answered(ClassifyAll(ed, cfg, groupId, source[k].items)) else RateLimited)
  }

  /** Answer `k`; a request past the end gets an empty batch. */
  function AnswerAt(answers: seq<Answer>, k: nat): Answer {
    if k < |answers| then answers[k] else Answered([])
  }

  /** The outer loop from the `k`-th answer, issuing `req`; `reqs` are the requests issued so far. */
  function Run(cfg: Config, idsGiven: bool, answers: seq<Answer>, k: nat, req: Request,
               p: Progress, reqs: seq<Request>): RunEnd
    requires k <= |answers|
    decreases |answers| - k
  {
    var reqs' := reqs + [req];
    match AnswerAt(answers, k)
    case RateLimited => RunEnd(p, reqs', Aborted(NotIterable))
    case Answered(rs) =>
      match Walk(cfg, idsGiven, rs, 0, p, false)
      case BatchCrashed(p1, e) => RunEnd(p1, reqs', Aborted(e))
      case BatchDone(p1, has) =>
        var p2 := Commit(p1);
        if has then Run(cfg, idsGiven, answers, k + 1, After(p2.last.value.id), p2, reqs')
        else RunEnd(Commit(p2), reqs', Finished)
  }

  /** A whole run on a store holding `t`, of which `committed` is durable. */
  function SyncSpec(ed: Edition, cfg: Config, groupId: int, ids: seq<int>, fromId: Option<int>, source: seq<Fetch>,
                    t: Tables, committed: Tables): RunEnd
  {
    Run(cfg, ids != [], Answers(ed, cfg, groupId, source), 0, FirstRequest(ids, fromId, t),
        Progress(t, committed, 0, [], None), [])
  }

  // ---- Properties of a run ----

  /** The tables after replaying `ms` in order onto `t`. */
  function StoreAll(t: Tables, ms: seq<Message>): Tables
    decreases |ms|
  {
    if ms == [] then t else StoreMessage(StoreAll(t, ms[..|ms| - 1]), ms[|ms| - 1])
  }

  /**
   * The durability invariant: the current tables are the committed ones plus the
   * messages processed since, and there are fewer of those than the count since the
   * last multiple of a hundred.
   */
  ghost predicate Durable(p: Progress) {
    StoreAll(p.committed, p.pending) == p.t && |p.pending| <= p.n % CommitEvery
  }

  lemma PersistDurable(p: Progress, m: Message)
    requires Durable(p)
    ensures Durable(Persist(p, m))
  {
    var r := Persist(p, m);
    if r.n % CommitEvery != 0 {
      assert (p.pending + [m])[..|p.pending|] == p.pending;
    }
  }

  lemma {:induction false} WalkDurable(cfg: Config, idsGiven: bool, rs: seq<Classified>, i: nat, p: Progress, has: bool)
    requires i <= |rs| && Durable(p)
    ensures Durable(Walk(cfg, idsGiven, rs, i, p, has).p)
    decreases |rs| - i
  {
    if i < |rs| {
      if rs[i].None? {
        WalkDurable(cfg, idsGiven, rs, i + 1, p, has);
      } else if rs[i].value.Success? {
        var m := rs[i].value.value;
        PersistDurable(p, m);
        if !StopAfter(cfg, idsGiven, Persist(p, m).n) {
          WalkDurable(cfg, idsGiven, rs, i + 1, Persist(p, m), true);
        }
      }
    }
  }

  lemma {:induction false} RunDurable(cfg: Config, idsGiven: bool, answers: seq<Answer>, k: nat, req: Request,
                                      p: Progress, reqs: seq<Request>)
    requires k <= |answers| && Durable(p)
    ensures var e := Run(cfg, idsGiven, answers, k, req, p, reqs);
      Durable(e.p) && (e.outcome == Finished ==> e.p.committed == e.p.t && e.p.pending == [])
    decreases |answers| - k
  {
    var answer := AnswerAt(answers, k);
    if answer.Answered? {
      var w := Walk(cfg, idsGiven, answer.batch, 0, p, false);
      WalkDurable(cfg, idsGiven, answer.batch, 0, p, false);
      if w.BatchDone? && w.has {
        RunDurable(cfg, idsGiven, answers, k + 1, After(w.p.last.value.id), Commit(w.p), reqs + [req]);
      }
    }
  }

  /**
   * Whatever happens, everything but the last fewer-than-100 processed messages is
   * committed: the tables are the committed state with those messages replayed. A run
   * that finishes has committed everything.
   */
  lemma SyncDurable(ed: Edition, cfg: Config, groupId: int, ids: seq<int>, fromId: Option<int>, source: seq<Fetch>, t: Tables)
    ensures var e := SyncSpec(ed, cfg, groupId, ids, fromId, source, t, t);
      && StoreAll(e.p.committed, e.p.pending) == e.p.t
      && |e.p.pending| < CommitEvery
      && (e.outcome == Finished ==> e.p.committed == e.p.t)
  {
    RunDurable(cfg, ids != [], Answers(ed, cfg, groupId, source), 0, FirstRequest(ids, fromId, t),
               Progress(t, t, 0, [], None), []);
  }

  lemma {:induction false} RunRequests(cfg: Config, idsGiven: bool, answers: seq<Answer>, k: nat, req: Request,
                                       p: Progress, reqs: seq<Request>)
    requires k <= |answers|
    ensures var e := Run(cfg, idsGiven, answers, k, req, p, reqs);
      |e.requests| > |reqs| && e.requests[..|reqs| + 1] == reqs + [req] && |e.requests| <= |reqs| + |answers| - k + 1
    decreases |answers| - k
  {
    if k == |answers| {
      assert Walk(cfg, idsGiven, [], 0, p, false) == BatchDone(p, false);
    } else if answers[k].Answered? {
      var w := Walk(cfg, idsGiven, answers[k].batch, 0, p, false);
      if w.BatchDone? && w.has {
        var next := After(w.p.last.value.id);
        RunRequests(cfg, idsGiven, answers, k + 1, next, Commit(w.p), reqs + [req]);
        RequestsGoOn(Run(cfg, idsGiven, answers, k + 1, next, Commit(w.p), reqs + [req]).requests, reqs, req, next,
                     |answers| - k);
      }
    }
  }

  /** The requests of a run that goes on start with the request it issued and have at most `n` more. */
  lemma RequestsGoOn<T>(xs: seq<T>, ys: seq<T>, y: T, z: T, n: nat)
    requires |xs| > |ys| + 1 && xs[..|ys| + 2] == ys + [y] + [z] && |xs| <= |ys| + 1 + n
    ensures |xs| > |ys| && xs[..|ys| + 1] == ys + [y] && |xs| <= |ys| + n + 1
  {
    assert xs[..|ys| + 1] == xs[..|ys| + 2][..|ys| + 1];
  }

  /** The first request is the resume cursor, and there is at most one request per answer of the source, plus one. */
  lemma SyncFirstRequest(ed: Edition, cfg: Config, groupId: int, ids: seq<int>, fromId: Option<int>, source: seq<Fetch>,
                         t: Tables, committed: Tables)
    ensures var e := SyncSpec(ed, cfg, groupId, ids, fromId, source, t, committed);
      |e.requests| >= 1 && e.requests[0] == FirstRequest(ids, fromId, t) && |e.requests| <= |source| + 1
  {
    RunRequests(cfg, ids != [], Answers(ed, cfg, groupId, source), 0, FirstRequest(ids, fromId, t),
                Progress(t, committed, 0, [], None), []);
  }

  /** With explicit ids at most one message is persisted, and the batch never asks for more. */
  lemma {:induction false} WalkIds(cfg: Config, rs: seq<Classified>, i: nat, p: Progress, has: bool)
    requires i <= |rs|
    ensures var w := Walk(cfg, true, rs, i, p, has);
      w.p.n <= p.n + 1 && (w.BatchDone? && w.has ==> has)
    decreases |rs| - i
  {
    if i < |rs| && rs[i].None? {
      WalkIds(cfg, rs, i + 1, p, has);
    }
  }

  /** A run for explicit ids makes one request and persists at most one message. */
  lemma SyncIds(ed: Edition, cfg: Config, groupId: int, ids: seq<int>, fromId: Option<int>, source: seq<Fetch>,
                t: Tables, committed: Tables)
    requires ids != []
    ensures var e := SyncSpec(ed, cfg, groupId, ids, fromId, source, t, committed);
      e.requests == [ByIds(ids)] && e.p.n <= 1
  {
    var p := Progress(t, committed, 0, [], None);
    var answer := AnswerAt(Answers(ed, cfg, groupId, source), 0);
    if answer.Answered? {
      WalkIds(cfg, answer.batch, 0, p, false);
    }
  }

  /** With a positive fetch limit the count never passes it, and a batch that asks for more stays below it. */
  lemma {:induction false} WalkLimit(cfg: Config, idsGiven: bool, rs: seq<Classified>, i: nat, p: Progress, has: bool)
    requires i <= |rs| && 0 < cfg.fetchLimit && p.n < cfg.fetchLimit
    ensures var w := Walk(cfg, idsGiven, rs, i, p, has);
      w.p.n <= cfg.fetchLimit && (w.BatchDone? && w.has ==> w.p.n < cfg.fetchLimit)
    decreases |rs| - i
  {
    if i < |rs| {
      if rs[i].None? {
        WalkLimit(cfg, idsGiven, rs, i + 1, p, has);
      } else if rs[i].value.Success? {
        var p1 := Persist(p, rs[i].value.value);
        if !StopAfter(cfg, idsGiven, p1.n) {
          WalkLimit(cfg, idsGiven, rs, i + 1, p1, true);
        }
      }
    }
  }

  lemma {:induction false} RunLimit(cfg: Config, idsGiven: bool, answers: seq<Answer>, k: nat, req: Request,
                                    p: Progress, reqs: seq<Request>)
    requires k <= |answers| && 0 < cfg.fetchLimit && p.n < cfg.fetchLimit
    ensures Run(cfg, idsGiven, answers, k, req, p, reqs).p.n <= cfg.fetchLimit
    decreases |answers| - k
  {
    var answer := AnswerAt(answers, k);
    if answer.Answered? {
      var w := Walk(cfg, idsGiven, answer.batch, 0, p, false);
      WalkLimit(cfg, idsGiven, answer.batch, 0, p, false);
      if w.BatchDone? && w.has {
        RunLimit(cfg, idsGiven, answers, k + 1, After(w.p.last.value.id), Commit(w.p), reqs + [req]);
      }
    }
  }

  /** A positive `fetch_limit` bounds the number of messages a run processes. */
  lemma SyncLimit(ed: Edition, cfg: Config, groupId: int, ids: seq<int>, fromId: Option<int>, source: seq<Fetch>,
                  t: Tables, committed: Tables)
    requires 0 < cfg.fetchLimit
    ensures SyncSpec(ed, cfg, groupId, ids, fromId, source, t, committed).p.n <= cfg.fetchLimit
  {
    RunLimit(cfg, ids != [], Answers(ed, cfg, groupId, source), 0, FirstRequest(ids, fromId, t),
             Progress(t, committed, 0, [], None), []);
  }

  /** The last present entry of `s[i..]`, if any. */
  function LastSome<T>(s: seq<Option<T>>, i: nat): (r: Option<T>)
    requires i <= |s|
    ensures r.Some? ==> r in s[i..]
    decreases |s| - i
  {
    if i == |s| then None
    else if LastSome(s, i + 1).Some? then LastSome(s, i + 1)
    else s[i]
  }

  /** Every present entry of a classified batch succeeded and its message is stored in `t`. */
  ghost predicate BatchStored(rs: seq<Classified>, t: Tables) {
    forall j :: 0 <= j < |rs| && rs[j].Some? ==> rs[j].value.Success? && KeyOf(rs[j].value.value) in t.messages
  }

  /** A batch only adds message rows, and never touches a chat row. */
  lemma {:induction false} WalkGrows(cfg: Config, idsGiven: bool, rs: seq<Classified>, i: nat, p: Progress, has: bool)
    requires i <= |rs|
    ensures var w := Walk(cfg, idsGiven, rs, i, p, has);
      p.t.messages.Keys <= w.p.t.messages.Keys && w.p.t.chats == p.t.chats
    decreases |rs| - i
  {
    if i < |rs| {
      if rs[i].None? {
        WalkGrows(cfg, idsGiven, rs, i + 1, p, has);
      } else if rs[i].value.Success? {
        var p1 := Persist(p, rs[i].value.value);
        if !StopAfter(cfg, idsGiven, p1.n) {
          WalkGrows(cfg, idsGiven, rs, i + 1, p1, true);
        }
      }
    }
  }

  /** A batch that asks for more has classified and stored every present item. */
  lemma {:induction false} WalkStored(cfg: Config, idsGiven: bool, rs: seq<Classified>, i: nat, p: Progress, has: bool)
    requires i <= |rs|
    ensures var w := Walk(cfg, idsGiven, rs, i, p, has);
      w.BatchDone? && w.has ==>
        forall j :: i <= j < |rs| && rs[j].Some? ==> rs[j].value.Success? && KeyOf(rs[j].value.value) in w.p.t.messages
    decreases |rs| - i
  {
    if i < |rs| {
      if rs[i].None? {
        WalkStored(cfg, idsGiven, rs, i + 1, p, has);
      } else if rs[i].value.Success? {
        var p1 := Persist(p, rs[i].value.value);
        if !StopAfter(cfg, idsGiven, p1.n) {
          WalkStored(cfg, idsGiven, rs, i + 1, p1, true);
          WalkGrows(cfg, idsGiven, rs, i + 1, p1, true);
        }
      }
    }
  }

  /** A batch that asks for more continues after its last present item; without one, `last` is unchanged. */
  lemma {:induction false} WalkLast(cfg: Config, idsGiven: bool, rs: seq<Classified>, i: nat, p: Progress, has: bool)
    requires i <= |rs|
    ensures var w := Walk(cfg, idsGiven, rs, i, p, has);
      w.BatchDone? && w.has ==>
        && (LastSome(rs, i).None? ==> has && w.p.last == p.last)
        && (LastSome(rs, i).Some? ==> w.p.last.Some? && LastSome(rs, i) == Some(Success(w.p.last.value)))
    decreases |rs| - i
  {
    if i < |rs| {
      if rs[i].None? {
        WalkLast(cfg, idsGiven, rs, i + 1, p, has);
      } else if rs[i].value.Success? {
        var p1 := Persist(p, rs[i].value.value);
        if !StopAfter(cfg, idsGiven, p1.n) {
          WalkLast(cfg, idsGiven, rs, i + 1, p1, true);
        }
      }
    }
  }

  /**
   * A whole batch that asks for more: it had a last present item, which succeeded and
   * is the new `last`, every present item is stored, and no row was lost.
   */
  lemma BatchContinues(cfg: Config, idsGiven: bool, rs: seq<Classified>, p: Progress)
    requires var w := Walk(cfg, idsGiven, rs, 0, p, false); w.BatchDone? && w.has
    ensures var w := Walk(cfg, idsGiven, rs, 0, p, false);
      && LastSome(rs, 0).Some? && LastSome(rs, 0).value.Success?
      && w.p.last == Some(LastSome(rs, 0).value.value)
      && BatchStored(rs, w.p.t)
      && p.t.messages.Keys <= w.p.t.messages.Keys && w.p.t.chats == p.t.chats
  {
    WalkGrows(cfg, idsGiven, rs, 0, p, false);
    WalkStored(cfg, idsGiven, rs, 0, p, false);
    WalkLast(cfg, idsGiven, rs, 0, p, false);
  }

  /**
   * Request j + 1 continues after the last message of answer j, and that whole answer
   * was a batch stored in `t`.
   */
  ghost predicate Chained(answers: seq<Answer>, reqs: seq<Request>, t: Tables) {
    forall j :: 0 <= j < |reqs| - 1 ==> ChainedAt(answers, reqs, t, j)
  }

  ghost predicate ChainedAt(answers: seq<Answer>, reqs: seq<Request>, t: Tables, j: nat)
    requires j < |reqs| - 1
  {
    && j < |answers| && answers[j].Answered?
    && LastSome(answers[j].batch, 0).Some? && LastSome(answers[j].batch, 0).value.Success?
    && reqs[j + 1] == After(LastSome(answers[j].batch, 0).value.value.id)
    && BatchStored(answers[j].batch, t)
  }

  /** A chained log stays chained while rows are only added. */
  lemma ChainedGrows(answers: seq<Answer>, reqs: seq<Request>, t: Tables, t': Tables)
    requires Chained(answers, reqs, t)
    requires t.messages.Keys <= t'.messages.Keys
    ensures Chained(answers, reqs, t')
  {
    forall j | 0 <= j < |reqs| - 1
      ensures ChainedAt(answers, reqs, t', j)
    {
      assert ChainedAt(answers, reqs, t, j);
      BatchStoredGrows(answers[j].batch, t, t');
    }
  }

  lemma BatchStoredGrows(rs: seq<Classified>, t: Tables, t': Tables)
    requires BatchStored(rs, t) && t.messages.Keys <= t'.messages.Keys
    ensures BatchStored(rs, t')
  {
  }

  /** Appending the request that follows a fully stored answer keeps the log chained. */
  lemma ChainExtend(answers: seq<Answer>, reqs: seq<Request>, t: Tables, t': Tables, next: Request)
    requires 1 <= |reqs| <= |answers|
    requires Chained(answers, reqs, t)
    requires t.messages.Keys <= t'.messages.Keys
    requires var rs := answers[|reqs| - 1];
      && rs.Answered? && LastSome(rs.batch, 0).Some? && LastSome(rs.batch, 0).value.Success?
      && next == After(LastSome(rs.batch, 0).value.value.id)
      && BatchStored(rs.batch, t')
    ensures Chained(answers, reqs + [next], t')
  {
    var reqs' := reqs + [next];
    forall j | 0 <= j < |reqs'| - 1
      ensures ChainedAt(answers, reqs', t', j)
    {
      if j < |reqs| - 1 {
        assert ChainedAt(answers, reqs, t, j);
        assert reqs'[j + 1] == reqs[j + 1];
        BatchStoredGrows(answers[j].batch, t, t');
      }
    }
  }

  lemma {:induction false} RunChained(cfg: Config, idsGiven: bool, answers: seq<Answer>, k: nat, req: Request,
                                      p: Progress, reqs: seq<Request>)
    requires k <= |answers| && |reqs| == k
    requires Chained(answers, reqs + [req], p.t)
    ensures var e := Run(cfg, idsGiven, answers, k, req, p, reqs);
      Chained(answers, e.requests, e.p.t) && e.p.t.chats == p.t.chats
    decreases |answers| - k
  {
    var answer := AnswerAt(answers, k);
    if answer.Answered? {
      var rs := answer.batch;
      var w := Walk(cfg, idsGiven, rs, 0, p, false);
      if w.BatchDone? && w.has {
        BatchContinues(cfg, idsGiven, rs, p);
        var next := After(w.p.last.value.id);
        ChainExtend(answers, reqs + [req], p.t, w.p.t, next);
        RunChained(cfg, idsGiven, answers, k + 1, next, Commit(w.p), reqs + [req]);
      } else {
        WalkGrows(cfg, idsGiven, rs, 0, p, false);
        ChainedGrows(answers, reqs + [req], p.t, w.p.t);
      }
    }
  }

  /**
   * Offset chaining: every request after the first continues after the id of the
   * last message of the previous answer, which was a batch stored in full; and no
   * chat row is ever touched.
   */
  lemma SyncChained(ed: Edition, cfg: Config, groupId: int, ids: seq<int>, fromId: Option<int>, source: seq<Fetch>,
                    t: Tables, committed: Tables)
    ensures var e := SyncSpec(ed, cfg, groupId, ids, fromId, source, t, committed);
      Chained(Answers(ed, cfg, groupId, source), e.requests, e.p.t) && e.p.t.chats == t.chats
  {
    RunChained(cfg, ids != [], Answers(ed, cfg, groupId, source), 0, FirstRequest(ids, fromId, t),
               Progress(t, committed, 0, [], None), []);
  }

  /** Insert the user (if any), the media (if any), then the message. */
  method StoreOne(db: DB, m: Message)
    modifies db
    ensures db.Snapshot() == StoreMessage(old(db.Snapshot()), m)
    ensures db.committed == old(db.committed)
  {
    if m.user.Some? {
      db.InsertUser(m.user.value);
    }
    if m.media.Some? {
      db.InsertMedia(m.media.value);
    }
    db.InsertMessage(m);
  }

  /** Persist one message: store it, count it, and commit after every hundredth. */
  method PersistOne(db: DB, m: Message, n0: nat, ghost pending0: seq<Message>, ghost last0: Option<Message>)
    returns (n: nat, ghost pending: seq<Message>, last: Option<Message>)
    modifies db
    ensures Progress(db.Snapshot(), db.committed, n, pending, last)
            == Persist(Progress(old(db.Snapshot()), old(db.committed), n0, pending0, last0), m)
  {
    StoreOne(db, m);
    last := Some(m);
    n := n0 + 1;
    pending := pending0 + [m];
    if n % CommitEvery == 0 {
      db.Commit();
      pending := [];
    }
  }

  /**
   * The body of the fetch loop for one batch: classify and persist each message,
   * committing after every hundredth, until the batch ends, the stop rule fires, or
   * an item raises.
   */
  method PersistBatch(db: DB, ed: Edition, cfg: Config, groupId: int, idsGiven: bool, items: seq<Option<Item>>,
                      n0: nat, ghost pending0: seq<Message>, last0: Option<Message>)
    returns (n: nat, ghost pending: seq<Message>, last: Option<Message>, has: bool, error: Option<string>)
    modifies db
    ensures var w := Walk(cfg, idsGiven, ClassifyAll(ed, cfg, groupId, items), 0,
                          Progress(old(db.Snapshot()), old(db.committed), n0, pending0, last0), false);
      && Progress(db.Snapshot(), db.committed, n, pending, last) == w.p
      && (error.None? <==> w.BatchDone?)
      && (w.BatchDone? ==> has == w.has)
      && (w.BatchCrashed? ==> error == Some(w.error))
  {
    ghost var rs := ClassifyAll(ed, cfg, groupId, items);
    ghost var start := Progress(db.Snapshot(), db.committed, n0, pending0, last0);
    n, pending, last, has, error := n0, pending0, last0, false, None;
    var i := 0;
    while i < |items|
      invariant i <= |items|
      invariant Walk(cfg, idsGiven, rs, i, Progress(db.Snapshot(), db.committed, n, pending, last), has)
                == Walk(cfg, idsGiven, rs, 0, start, false)
    {
      ghost var p := Progress(db.Snapshot(), db.committed, n, pending, last);
      if items[i].Some? {
        var r := ClassifyIn(ed, cfg, groupId, items[i].value);
        assert rs[i] == Some(r);
        if r.Failure? {
          error := Some(r.error);
          return;
        }
        var m := r.value;
        WalkPersists(cfg, idsGiven, rs, i, p, has, m);
        n, pending, last := PersistOne(db, m, n, pending, last);
        has := true;
        if 0 < cfg.fetchLimit <= n || idsGiven {
          has := false;
          return;
        }
      } else {
        WalkSkips(cfg, idsGiven, rs, i, p, has);
      }
      i := i + 1;
    }
  }

  /** A successfully classified item is persisted, and the walk stops or goes on after it. */
  lemma WalkPersists(cfg: Config, idsGiven: bool, rs: seq<Classified>, i: nat, p: Progress, has: bool, m: Message)
    requires i < |rs| && rs[i] == Some(Success(m))
    ensures var p1 := Persist(p, m);
      && (StopAfter(cfg, idsGiven, p1.n) ==> Walk(cfg, idsGiven, rs, i, p, has) == BatchDone(p1, false))
      && (!StopAfter(cfg, idsGiven, p1.n) ==> Walk(cfg, idsGiven, rs, i, p, has) == Walk(cfg, idsGiven, rs, i + 1, p1, true))
  {
  }

  /** A falsy item is skipped. */
  lemma WalkSkips(cfg: Config, idsGiven: bool, rs: seq<Classified>, i: nat, p: Progress, has: bool)
    requires i < |rs| && rs[i].None?
    ensures Walk(cfg, idsGiven, rs, i, p, has) == Walk(cfg, idsGiven, rs, i + 1, p, has)
  {
  }

  /** A run of falsy items is skipped as a whole. */
  lemma {:induction false} WalkSkipsTo(cfg: Config, idsGiven: bool, rs: seq<Classified>, i: nat, j: nat,
                                       p: Progress, has: bool)
    requires i <= j <= |rs|
    requires forall l :: i <= l < j ==> rs[l].None?
    ensures Walk(cfg, idsGiven, rs, i, p, has) == Walk(cfg, idsGiven, rs, j, p, has)
    decreases j - i
  {
    if i < j {
      assert rs[i].None?;
      WalkSkipsTo(cfg, idsGiven, rs, i + 1, j, p, has);
    }
  }

  /**
   * The run as written ends at the first message of the first batch when that message
   * is forwarded from a user: the `AttributeError` escapes after one request, nothing of
   * the batch is stored and nothing is committed, so the takeout session is not closed.
   */
  lemma SyncForwardFromUser(cfg: Config, groupId: int, ids: seq<int>, fromId: Option<int>, source: seq<Fetch>,
                            t: Tables, committed: Tables, items: seq<Option<Item>>, j: nat, item: Item, userId: int)
    requires |source| > 0 && source[0] == Batch(items)
    requires j < |items| && items[j] == Some(item) && forall l :: 0 <= l < j ==> items[l].None?
    requires item.msg.fwdFrom == Some(ForwardHeader(Some(PeerUser(userId))))
    requires Classify(cfg, groupId, item).Success?
    ensures var e := SyncSpec(AsWritten, cfg, groupId, ids, fromId, source, t, committed);
      && e.outcome == Aborted("AttributeError")
      && e.p.t == t && e.p.committed == committed && e.p.n == 0
      && e.requests == [FirstRequest(ids, fromId, t)]
  {
    ForwardFromUserAborts(cfg, groupId, item, userId);
    var p0 := Progress(t, committed, 0, [], None);
    var written := ClassifyAll(AsWritten, cfg, groupId, items);
    WalkSkipsTo(cfg, ids != [], written, 0, j, p0, false);
    var answers := Answers(AsWritten, cfg, groupId, source);
    assert AnswerAt(answers, 0) == Answered(written);
    RunAnswered(cfg, ids != [], answers, 0, FirstRequest(ids, fromId, t), p0, [], written);
  }

  /**
   * Read as intended, the same message is persisted, without an origin, and the batch
   * goes on after it unless the stop rule fires.
   */
  lemma WalkForwardFromUser(cfg: Config, groupId: int, idsGiven: bool, p: Progress,
                            items: seq<Option<Item>>, j: nat, item: Item, userId: int)
    requires j < |items| && items[j] == Some(item) && forall l :: 0 <= l < j ==> items[l].None?
    requires item.msg.fwdFrom == Some(ForwardHeader(Some(PeerUser(userId))))
    requires Classify(cfg, groupId, item).Success?
    ensures var m := Classify(cfg, groupId, item).value;
      var rs := ClassifyAll(Corrected, cfg, groupId, items);
      var w := Walk(cfg, idsGiven, rs, 0, p, false);
      && m.fromChatId.None?
      && (StopAfter(cfg, idsGiven, p.n + 1) ==> w == BatchDone(Persist(p, m), false))
      && (!StopAfter(cfg, idsGiven, p.n + 1) ==> w == Walk(cfg, idsGiven, rs, j + 1, Persist(p, m), true))
  {
    ForwardFromUserAborts(cfg, groupId, item, userId);
    var rs := ClassifyAll(Corrected, cfg, groupId, items);
    WalkSkipsTo(cfg, idsGiven, rs, 0, j, p, false);
    WalkPersists(cfg, idsGiven, rs, j, p, false, Classify(cfg, groupId, item).value);
  }

  /** One answered step of the outer loop, in terms of how its batch ends. */
  lemma RunAnswered(cfg: Config, idsGiven: bool, answers: seq<Answer>, k: nat, req: Request, p: Progress,
                    reqs: seq<Request>, rs: seq<Classified>)
    requires k <= |answers| && AnswerAt(answers, k) == Answered(rs)
    ensures var w := Walk(cfg, idsGiven, rs, 0, p, false);
      var e := Run(cfg, idsGiven, answers, k, req, p, reqs);
      && (w.BatchCrashed? ==> e == RunEnd(w.p, reqs + [req], Aborted(w.error)))
      && (w.BatchDone? && !w.has ==> e == RunEnd(Commit(w.p), reqs + [req], Finished))
      && (w.BatchDone? && w.has ==>
            && k < |answers| && w.p.last.Some?
            && e == Run(cfg, idsGiven, answers, k + 1, After(w.p.last.value.id), Commit(w.p), reqs + [req]))
  {
  }

  /**
   * `Sync.sync`: fetch batch after batch from the resume cursor, persisting each
   * message and committing every hundred messages, after every batch and at the end;
   * the takeout session is closed only when the run finishes normally.
   */
  method Sync(db: DB, ed: Edition, cfg: Config, groupId: int, ids: seq<int>, fromId: Option<int>, source: seq<Fetch>)
    returns (n: nat, requests: seq<Request>, outcome: Outcome, takeoutClosed: bool)
    modifies db
    ensures var e := SyncSpec(ed, cfg, groupId, ids, fromId, source, old(db.Snapshot()), old(db.committed));
      && db.Snapshot() == e.p.t && db.committed == e.p.committed
      && n == e.p.n && requests == e.requests && outcome == e.outcome
    ensures takeoutClosed <==> outcome == Finished && cfg.useTakeout
  {
    var req := FirstRequest(ids, fromId, db.Snapshot());
    n, requests, outcome := SyncLoop(db, ed, cfg, groupId, ids != [], source, req);
    takeoutClosed := outcome.Finished? && cfg.useTakeout;
  }

  /** The fetch loop of `Sync.sync`, from the first request `req0` on. */
  method SyncLoop(db: DB, ed: Edition, cfg: Config, groupId: int, idsGiven: bool, source: seq<Fetch>, req0: Request)
    returns (n: nat, requests: seq<Request>, outcome: Outcome)
    modifies db
    ensures var e := Run(cfg, idsGiven, Answers(ed, cfg, groupId, source), 0, req0,
                         Progress(old(db.Snapshot()), old(db.committed), 0, [], None), []);
      && db.Snapshot() == e.p.t && db.committed == e.p.committed
      && n == e.p.n && requests == e.requests && outcome == e.outcome
  {
    ghost var answers := Answers(ed, cfg, groupId, source);
    ghost var spec := Run(cfg, idsGiven, answers, 0, req0, Progress(db.Snapshot(), db.committed, 0, [], None), []);
    var req := req0;
    n := 0;
    ghost var pending: seq<Message> := [];
    var last: Option<Message> := None;
    requests := [];
    var k: nat := 0;
    while true
      invariant k <= |source|
      invariant Run(cfg, idsGiven, answers, k, req, Progress(db.Snapshot(), db.committed, n, pending, last), requests)
                == spec
      decreases |source| - k
    {
      var fetch := FetchAt(source, k);
      assert AnswerAt(answers, k) == if fetch.Batch? then Answered(ClassifyAll(ed, cfg, groupId, fetch.items)) else RateLimited;
      ghost var p := Progress(db.Snapshot(), db.committed, n, pending, last);
      ghost var reqs := requests;
      requests := requests + [req];
      if fetch.FloodWait? {
        outcome := Aborted(NotIterable);
        return;
      }
      RunAnswered(cfg, idsGiven, answers, k, req, p, reqs, ClassifyAll(ed, cfg, groupId, fetch.items));
      var has, error;
      n, pending, last, has, error := PersistBatch(db, ed, cfg, groupId, idsGiven, fetch.items, n, pending, last);
      if error.Some? {
        outcome := Aborted(error.value);
        return;
      }
      db.Commit();
      pending := [];
      if has {
        req := After(last.value.id);
        k := k + 1;
      } else {
        break;
      }
    }
    db.Commit();
    pending := [];
    outcome := Finished;
  }
}
