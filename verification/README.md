# Whiteboard service: publish/subscribe model

A Dafny model of the whiteboard service in `src/whiteboard_mcp/app.py`. The
service keeps one shared document, which is either raw HTML or a URL. Viewers
follow it over a server-sent-event stream. Writers replace the document
through `POST /api/content` or through the two tool entry points
`update_whiteboard_url` and `update_whiteboard_html`.

The whole service is one immutable `Whiteboard.State`. It has these parts:

- `store`: the single persisted record (`Option<Doc>`). `load_content` falls
  back to the welcome page `<h1>欢迎使用白板</h1>` when nothing is stored. That
  default has no `updated_at`.
- `registry`: `active_connections`, the ordered list of live session queues,
  given here by their identities.
- `sessions`: for each `event_generator` run, its queue (`pending`) and the
  documents it has yielded (`emitted`).
- History variables that exist only to state properties. `boot` is the store
  at start-up. `published` lists every document ever notified, in order. Each
  session records `joinedAt` and `leftAt`, which are positions in `published`.

asyncio runs one coroutine at a time. No handler step suspends between its
effects: `load_content` and `save_content` are synchronous, and `put` on an
unbounded queue does not yield. So each handler step is modelled as one
atomic pure transition:

- `Update`, with its tool adapters: validate the type, save, then notify.
- `Subscribe`: register a fresh queue, then load and yield the current document.
- `Deliver`: one `queue.get()` plus `yield`.
- `EndSession`: the generator's `finally`, which calls `list.remove`.

`Trace.Run` applies any sequence of these steps. The main results:

- `Whiteboard.Valid` holds in every reachable state.
- Every session's stream is the document current at registration, then every
  document published while it was registered. Each arrives exactly once, in
  publish order.
- The store always holds the last document published.
- Last write wins over any run.

Behaviour of the code that the model keeps:

- The default page is `<h1>欢迎使用白板</h1>`.
- Deregistration is `list.remove`, which raises on a queue that is not
  registered. `EndSession` therefore requires the session to be registered.
- `json.load` raises on a corrupt record file; such a file is not read as
  absent.
- A failing save raises out of the handler; there is no separate error reply
  (see Left out).

Files:

- `wrappers.dfy`: the `Option` and `Result` datatypes.
- `seqs.dfy`: sequence helpers, including `list.remove`.
- `document.dfy`: the document, its kinds, and load and save on the record.
- `whiteboard.dfy`: the state and its transitions.
- `invariant.dfy`: proofs that every transition preserves the invariant.
- `trace.dfy`: runs and what holds over them.
- `scenarios.dfy`: concrete runs.

`GET /api/content` is `Whiteboard.Load`.

## Model

| member | source | states |
|---|---|---|
| Document.ParseKind | src/whiteboard_mcp/app.py:30-32 | a type is accepted iff it is "html" or "url"; an accepted type maps back to the same string; any other type is rejected with InvalidKind |
| Document.ParseKindName | src/whiteboard_mcp/app.py:30-32 | both kinds' wire names pass validation and give back that kind |
| Document.LoadStore | src/whiteboard_mcp/app.py:34-38 | with nothing stored, the result is the default html welcome page with no updated_at; otherwise it is exactly the stored record |
| Document.SaveStore | src/whiteboard_mcp/app.py:40-42 | after a save, load returns exactly the saved record |
| Document.SaveOverwrites | src/whiteboard_mcp/app.py:40-42 | a second save replaces the first wholesale, so the first leaves no trace |
| Whiteboard.Save | src/whiteboard_mcp/app.py:40-42 | load afterwards returns the record, and nothing but the store changes |
| Whiteboard.Enqueue | src/whiteboard_mcp/app.py:44-47 | each queue gets the document at its end once per occurrence of its id in the list walked; other fields and all other queues are unchanged |
| Whiteboard.Notify | src/whiteboard_mcp/app.py:44-47 | the store and the registry are unchanged; every registered queue gets the document appended; unregistered sessions are untouched |
| Whiteboard.Update | src/whiteboard_mcp/app.py:57-67 | rejected with InvalidKind iff the type is neither "html" nor "url"; on success load returns {type, content, updated_at = ts}; the record is saved and broadcast once to registered queues only; the reply is "内容已更新" |
| Whiteboard.UpdateWhiteboardUrl | src/whiteboard_mcp/app.py:99-103 | the same state as a successful update of type "url" with that content; load then returns the url record; the reply is "whiteboard updated" |
| Whiteboard.UpdateWhiteboardHtml | src/whiteboard_mcp/app.py:105-109 | the same state as a successful update of type "html" with that content; load then returns the html record; the reply is "whiteboard updated" |
| Whiteboard.Subscribe | src/whiteboard_mcp/app.py:72-82 | exactly one new session is created: its fresh, empty queue goes at the end of the registry, and its first emitted item is the current stored document; the existing sessions, the store and the history are unchanged |
| Whiteboard.Deliver | src/whiteboard_mcp/app.py:84-90 | the head of the queue is yielded next and removed from the queue; the session's total stream and every other part of the state are unchanged |
| Whiteboard.EndSession | src/whiteboard_mcp/app.py:91-93 | the registry loses exactly the first occurrence of the session's queue; the other entries keep their order; only that session's end point is recorded |
| Seqs.RemoveFirst | src/whiteboard_mcp/app.py:93 | `list.remove` gives the list with its first occurrence of the element cut out |
| Seqs.RemoveFirstUnique | src/whiteboard_mcp/app.py:93 | in a duplicate-free list, the removed element is gone, every other element stays, and the list stays duplicate-free |
| Whiteboard.Init | src/whiteboard_mcp/app.py:22-28 | at start-up the registry is empty, there are no sessions, and load returns the well-formed record in the file, or the default when there is none |
| Whiteboard.Load | src/whiteboard_mcp/app.py:53-55 | `GET /api/content` returns the stored record, or the default html welcome page with no updated_at when nothing is stored |
| Invariant.InitValid | src/whiteboard_mcp/app.py:28-38 | the service starts valid over a well-formed stored record or none, and load returns that record or the default |
| Invariant.RegisteredOnce | src/whiteboard_mcp/app.py:46-47 | in a valid state a queue occurs in the registry once if registered and never otherwise |
| Invariant.PublishedEffect | src/whiteboard_mcp/app.py:44-47 | a publish appends the document exactly once to each registered queue and leaves every unregistered session exactly as it was |
| Invariant.PublishedValid | src/whiteboard_mcp/app.py:59-66 | saving and then broadcasting keeps every session's stream exact and the store equal to the last published document |
| Invariant.UpdateValid | src/whiteboard_mcp/app.py:57-67 | a successful update keeps the invariant |
| Invariant.UpdateBroadcastsStored | src/whiteboard_mcp/app.py:64-66 | after an update, the one document added to each registered queue is the record the store now holds; queues of sessions that have left are unchanged |
| Invariant.SubscribeValid | src/whiteboard_mcp/app.py:72-82 | registering and then loading keeps the invariant, so there is no gap between the snapshot and the first queued document |
| Invariant.DeliverValid | src/whiteboard_mcp/app.py:84-90 | yielding from a queue keeps the invariant |
| Invariant.EndSessionValid | src/whiteboard_mcp/app.py:91-93 | deregistering keeps the invariant |
| Invariant.EndSessionIsolates | src/whiteboard_mcp/app.py:91-93 | after deregistration the session is no longer registered; every other session's membership and record are unchanged; a later update does not touch the removed session |
| Trace.StepValid | src/whiteboard_mcp/app.py:57-109 | every handler step keeps the invariant |
| Trace.RunValid | src/whiteboard_mcp/app.py:57-109 | every run of handler steps keeps the invariant |
| Trace.StepLoad | src/whiteboard_mcp/app.py:57-109 | an accepted write leaves its record in the store; a rejected write, a connection, a delivery or a disconnection leaves the store as it was |
| Trace.LastWriteWins | src/whiteboard_mcp/app.py:40-42 | after any run, load returns the record of the latest accepted write of the run, or the earlier document if the run accepted no write |
| Trace.LastUpdateStored | src/whiteboard_mcp/app.py:59-64 | after N updates the store holds the Nth, whatever came before |
| Trace.ReachableStreams | src/whiteboard_mcp/app.py:74-93 | in every reachable state, each session's first yielded item is the document current when it registered; it has yielded and queued that document current when it registered, then each document published while it was registered, once each, in order; it is registered iff it has not ended; the store holds the last publish |
| Trace.DrainSession | src/whiteboard_mcp/app.py:84-90 | draining yields exactly the queued documents in FIFO order; only that session changes; the result equals the run of that many deliveries |
| Trace.LiveSessionReceivesLater | src/whiteboard_mcp/app.py:74-93 | over any run, a registered session's stream grows by exactly the documents published during the run while it stayed registered, in order; if still registered it has every one of them |
| Scenarios.FreshStoreServesDefault | src/whiteboard_mcp/app.py:34-38 | a fresh service serves {type html, content <h1>欢迎使用白板</h1>} with no updated_at |
| Scenarios.PostedUrlIsLoaded | src/whiteboard_mcp/app.py:57-64 | after posting https://example.com as a url, load returns that url stamped with the update's time |
| Scenarios.RejectedKindChangesNothing | src/whiteboard_mcp/app.py:30-32 | an update with an unknown type is rejected with InvalidKind, and the step leaves the whole state unchanged |
| Scenarios.SubscribeThenUpdate | src/whiteboard_mcp/app.py:74-90 | a session that joins and then sees one update yields exactly the snapshot and then the new record, and its queue is then empty |
| Scenarios.LateJoinerSeesLatest | src/whiteboard_mcp/app.py:74-93 | A joins a fresh board, gets doc1 and leaves; doc2 is posted; B then joins. B's first event is doc2, and A's stream ended as [default, doc1] |

## Left out

- File I/O and JSON encoding are not modelled. The record file is the `store` field. At start-up it may hold any well-formed record (`Init(boot)`).
- A corrupt or unreadable record file is not modelled. `json.load` would raise, so it is not treated as absent.
- A failing `save_content` is not modelled. In both failure cases it raises before `notify_clients`, so nothing is broadcast. The two cases differ in what is left on disk:
  - If `open(CONTENT_FILE, 'w')` itself fails (for example on a permission error), nothing has been truncated and the old record survives.
  - If a later step fails (for example a full disk during `json.dump` or the flush at close), the file is left truncated or partly written. The next `load_content` would then raise, and the model has no value for that store.
- `datetime.now().isoformat()` is not modelled. The timestamp is an opaque `Timestamp` parameter of each update.
- asyncio scheduling is not modelled; handler steps are atomic transitions. Neither is detection of a closed connection: disconnection is the explicit `Disconnect` step.
- The SSE framing `{"event": "message", "data": json.dumps(...)}` is not modelled. A session emits the documents themselves.
- Idempotent deregistration is not claimed. `list.remove` raises when the queue is missing, and the generator's `finally` runs once, so `EndSession` requires the session to be registered.
- Pydantic's 422 response for an invalid type is modelled as `Failure(InvalidKind)`. Its type check on `content` is not modelled, because content is always a string here.
- FastAPI routing and the `index` template page (lines 19-25, 49-51) are not modelled; they are framework plumbing. The same goes for FastMCP registration (line 97) and for `main`, the `/mcp` mount and uvicorn start-up (lines 112-117).
- `src/whiteboard_mcp/__main__.py` is not modelled. It only dispatches on argv, to modules that are not part of this model.
- Queue memory growth under a consumer that never drains is not bounded. Queues are unbounded sequences, as in the code.
