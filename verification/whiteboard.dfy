/** The whiteboard service as one sequential state: the store, the registry of
    live SSE queues, and every session's queue and emitted stream.  Each
    handler runs without suspension under asyncio, so each is one transition. */
module Whiteboard {
  import opened Wrappers
  import opened Seqs
  import opened Document

  /** Identity of one session's `asyncio.Queue`. */
  type SessionId = nat

  /** One `event_generator` run.  `pending` is its queue, `emitted` what it
      has yielded so far.  `joinedAt` and `leftAt` are history: how many
      documents had been published when it registered and when it left. */
  datatype Session = Session(joinedAt: nat, leftAt: Option<nat>, pending: seq<Doc>, emitted: seq<Doc>)

  /** The service state.  `registry` is `active_connections`, in order;
      `nextId` supplies fresh queue identities.  `boot` (the store at start)
      and `published` (every document notified, in order) are history. */
  datatype State = State(
    store: Option<Doc>,
    registry: seq<SessionId>,
    sessions: map<SessionId, Session>,
    nextId: SessionId,
    boot: Option<Doc>,
    published: seq<Doc>)

  /** An acknowledgement together with the state after the request. */
  datatype Reply = Reply(state: State, message: string)

  /** Reply of `POST /api/content`. */
  const UpdateAck: string := "内容已更新"

  /** Reply of both tool entry points. */
  const ToolAck: string := "whiteboard updated"

  /** The service as started over the record in the file, or none. */
  function Init(boot: Option<Doc>): (r: State)
    ensures r.registry == [] && r.sessions == map[] && r.published == []
    ensures Load(r) == LoadStore(boot)
  {
    State(boot, [], map[], 0, boot, [])
  }

  /** `load_content` / `GET /api/content`. */
  function Load(st: State): (d: Doc)
    ensures st.store.None? ==> d == DefaultDoc && d.updatedAt.None?
    ensures st.store.Some? ==> d == st.store.value
  {
    LoadStore(st.store)
  }

  /** The document `load_content` returned after `k` publishes. */
  function CurrentAt(st: State, k: nat): Doc
    requires k <= |st.published|
  {
    if k == 0 then LoadStore(st.boot) else st.published[k - 1]
  }

  /** Index one past the last publish the session was registered for. */
  function End(st: State, s: Session): nat {
    s.leftAt.GetOr(|st.published|)
  }

  /** Everything the session has yielded or still has queued. */
  function Delivered(s: Session): seq<Doc> {
    s.emitted + s.pending
  }

  /** A session's stream is the document current at registration followed by
      every document published while it was registered, each once, in order. */
  ghost predicate Consistent(st: State, s: Session) {
    && s.joinedAt <= End(st, s) <= |st.published|
    && |s.emitted| >= 1
    && Delivered(s) == [CurrentAt(st, s.joinedAt)] + st.published[s.joinedAt..End(st, s)]
  }

  /** The invariant every reachable state keeps. */
  ghost predicate Valid(st: State) {
    && NoDup(st.registry)
    && (forall id :: id in st.registry ==> id in st.sessions)
    && (forall id :: id in st.sessions ==> id < st.nextId)
    && (forall id :: id in st.sessions ==> (id in st.registry <==> st.sessions[id].leftAt.None?))
    && (forall id :: id in st.sessions ==> Consistent(st, st.sessions[id]))
    && Load(st) == CurrentAt(st, |st.published|)
    && (|st.published| > 0 ==> st.store == Some(st.published[|st.published| - 1]))
  }

  /** `save_content`: the record is replaced wholesale; nothing else changes. */
  function Save(st: State, d: Doc): (r: State)
    ensures Load(r) == d
    ensures r.(store := st.store) == st
  {
    st.(store := SaveStore(st.store, d))
  }

  /** The `for queue in active_connections: queue.put(d)` loop over queue ids:
      each queue gets `d` once per occurrence of its id in `ids`. */
  function Enqueue(sessions: map<SessionId, Session>, ids: seq<SessionId>, d: Doc): (r: map<SessionId, Session>)
    ensures r.Keys == sessions.Keys
    ensures forall id :: id in sessions ==>
      r[id] == sessions[id].(pending := sessions[id].pending + Repeat(d, multiset(ids)[id]))
    decreases |ids|
  {
    if ids == [] then sessions
    else
      var id := ids[0];
      var next := if id in sessions then sessions[id := sessions[id].(pending := sessions[id].pending + [d])] else sessions;
      var r := Enqueue(next, ids[1..], d);
      forall j | j in sessions
        ensures r[j] == sessions[j].(pending := sessions[j].pending + Repeat(d, multiset(ids)[j]))
      {
        MultisetHead(ids, j);
        if j == id {
          AppendRepeat(sessions[j].pending, d, multiset(ids[1..])[j]);
        }
      }
      r
  }

  lemma MultisetHead(ids: seq<SessionId>, j: SessionId)
    requires ids != []
    ensures multiset(ids)[j] == multiset(ids[1..])[j] + if j == ids[0] then 1 else 0
  {
    assert ids == [ids[0]] + ids[1..];
  }

  lemma AppendRepeat(xs: seq<Doc>, d: Doc, m: nat)
    ensures xs + [d] + Repeat(d, m) == xs + Repeat(d, m + 1)
  {
    assert Repeat(d, m + 1) == [d] + Repeat(d, m);
  }

  /** `r` is `st` after `d` was put once on each registered queue and on no
      other; registry, identities and history are kept, `d` is recorded. */
  ghost predicate Broadcast(st: State, d: Doc, r: State) {
    && r.registry == st.registry
    && r.nextId == st.nextId
    && r.boot == st.boot
    && r.published == st.published + [d]
    && r.sessions.Keys == st.sessions.Keys
    && (forall id :: id in st.sessions ==>
          r.sessions[id] == st.sessions[id].(pending := st.sessions[id].pending + Repeat(d, multiset(st.registry)[id])))
  }

  /** `save_content` followed by `notify_clients`: `d` is stored, then broadcast. */
  ghost predicate Published(st: State, d: Doc, r: State) {
    r.store == Some(d) && Broadcast(st, d, r)
  }

  /** `notify_clients`: append `d` to every queue in the registry.  The store
      and the registry are untouched. */
  function Notify(st: State, d: Doc): (r: State)
    ensures r.store == st.store
    ensures Broadcast(st, d, r)
  {
    st.(sessions := Enqueue(st.sessions, st.registry, d), published := st.published + [d])
  }

  /** `update_content` on a request body with the given `type` and `content`,
      at time `ts`: an invalid type is rejected before any effect; otherwise
      the record is saved and then broadcast. */
  function Update(st: State, kind: string, content: string, ts: Timestamp): (r: Result<Reply, Error>)
    ensures r.Failure? <==> !(kind == "html" || kind == "url")
    ensures r.Failure? ==> r.error == InvalidKind
    ensures r.Success? ==>
      && r.value.message == UpdateAck
      && Load(r.value.state) == Doc(ParseKind(kind).value, content, Some(ts))
      && Published(st, Doc(ParseKind(kind).value, content, Some(ts)), r.value.state)
  {
    var k :- ParseKind(kind);
    var d := Doc(k, content, Some(ts));
    var saved := Save(st, d);
    assert saved.(store := Some(d)) == saved;
    Success(Reply(Notify(saved, d), UpdateAck))
  }

  /** `update_whiteboard_url`: an update of kind "url", with the tool's reply. */
  function UpdateWhiteboardUrl(st: State, url: string, ts: Timestamp): (r: Reply)
    ensures Update(st, "url", url, ts) == Success(Reply(r.state, UpdateAck))
    ensures Load(r.state) == Doc(Url, url, Some(ts))
    ensures r.message == ToolAck
  {
    Reply(Update(st, "url", url, ts).value.state, ToolAck)
  }

  /** `update_whiteboard_html`: an update of kind "html", with the tool's reply. */
  function UpdateWhiteboardHtml(st: State, html: string, ts: Timestamp): (r: Reply)
    ensures Update(st, "html", html, ts) == Success(Reply(r.state, UpdateAck))
    ensures Load(r.state) == Doc(Html, html, Some(ts))
    ensures r.message == ToolAck
  {
    Reply(Update(st, "html", html, ts).value.state, ToolAck)
  }

  /** Start of `event_generator`: a fresh empty queue is appended to the
      registry, then the current document is loaded and yielded. */
  function Subscribe(st: State): (r: (State, SessionId))
    ensures r.0.registry == st.registry + [r.1]
    ensures r.1 in r.0.sessions
    ensures r.0.sessions[r.1] == Session(|st.published|, None, [], [Load(st)])
    ensures forall id :: id in st.sessions && id != r.1 ==> id in r.0.sessions && r.0.sessions[id] == st.sessions[id]
    ensures r.0.store == st.store && r.0.published == st.published && r.0.boot == st.boot
    ensures r.0.sessions.Keys == st.sessions.Keys + {r.1}
    ensures r.0.nextId > r.1
    ensures Valid(st) ==> r.1 !in st.sessions && r.1 !in st.registry
  {
    var id := st.nextId;
    var s := Session(|st.published|, None, [], [Load(st)]);
    (st.(registry := st.registry + [id], sessions := st.sessions[id := s], nextId := id + 1), id)
  }

  /** One turn of the `while True` loop: the head of the queue is taken and
      yielded.  With an empty queue `queue.get()` suspends, so no turn is taken. */
  function Deliver(st: State, id: SessionId): (r: State)
    requires id in st.registry && id in st.sessions && |st.sessions[id].pending| > 0
    ensures id in r.sessions
    ensures r.sessions[id].emitted == st.sessions[id].emitted + [st.sessions[id].pending[0]]
    ensures r.sessions[id].pending == st.sessions[id].pending[1..]
    ensures Delivered(r.sessions[id]) == Delivered(st.sessions[id])
    ensures r == st.(sessions := st.sessions[id := r.sessions[id]])
    ensures r.sessions[id].(pending := [], emitted := []) == st.sessions[id].(pending := [], emitted := [])
  {
    var s := st.sessions[id];
    var s' := s.(pending := s.pending[1..], emitted := s.emitted + [s.pending[0]]);
    assert Delivered(s') == Delivered(s) by {
      assert s.pending == [s.pending[0]] + s.pending[1..];
    }
    st.(sessions := st.sessions[id := s'])
  }

  /** The `finally` clause: `active_connections.remove(queue)`.  The session
      must still be registered, since `list.remove` raises otherwise. */
  function EndSession(st: State, id: SessionId): (r: State)
    requires id in st.registry && id in st.sessions
    ensures r.registry == st.registry[..IndexOf(st.registry, id)] + st.registry[IndexOf(st.registry, id) + 1..]
    ensures r.sessions == st.sessions[id := st.sessions[id].(leftAt := Some(|st.published|))]
    ensures r.(registry := st.registry, sessions := st.sessions) == st
  {
    st.(registry := RemoveFirst(st.registry, id),
        sessions := st.sessions[id := st.sessions[id].(leftAt := Some(|st.published|))])
  }
}
