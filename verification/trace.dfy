/** Runs of the service: any sequence of requests, connections, deliveries
    and disconnections, and what every run guarantees. */
module Trace {
  import opened Wrappers
  import opened Seqs
  import opened Document
  import opened Whiteboard
  import opened Invariant

  /** One atomic handler step. */
  datatype Op =
    | Post(kind: string, content: string, ts: Timestamp)   // POST /api/content
    | ToolUrl(url: string, ts: Timestamp)                  // update_whiteboard_url
    | ToolHtml(html: string, ts: Timestamp)                // update_whiteboard_html
    | Connect                                              // GET /api/events starts
    | Receive(id: SessionId)                               // one queue.get() and yield
    | Disconnect(id: SessionId)                            // the generator's finally

  /** A step can be taken: a generator only runs while registered, a
      `queue.get()` only returns once something is queued. */
  predicate Enabled(st: State, op: Op) {
    match op
    case Receive(id) => id in st.registry && id in st.sessions && |st.sessions[id].pending| > 0
    case Disconnect(id) => id in st.registry && id in st.sessions
    case _ => true
  }

  function Step(st: State, op: Op): State
    requires Enabled(st, op)
  {
    match op
    case Post(k, c, ts) =>
      (match Update(st, k, c, ts)
       case Success(reply) => reply.state
       case Failure(_) => st)
    case ToolUrl(u, ts) => UpdateWhiteboardUrl(st, u, ts).state
    case ToolHtml(h, ts) => UpdateWhiteboardHtml(st, h, ts).state
    case Connect => Subscribe(st).0
    case Receive(id) => Deliver(st, id)
    case Disconnect(id) => EndSession(st, id)
  }

  /** Runs `ops` in order; `None` when some step is not enabled. */
  function Run(st: State, ops: seq<Op>): Option<State>
    decreases |ops|
  {
    if ops == [] then Some(st)
    else if Enabled(st, ops[0]) then Run(Step(st, ops[0]), ops[1..])
    else None
  }

  /** Every step preserves the invariant. */
  lemma StepValid(st: State, op: Op)
    requires Valid(st) && Enabled(st, op)
    ensures Valid(Step(st, op))
  {
    match op
    case Post(k, c, ts) => UpdateValid(st, k, c, ts);
    case ToolUrl(u, ts) => UpdateValid(st, "url", u, ts);
    case ToolHtml(h, ts) => UpdateValid(st, "html", h, ts);
    case Connect => SubscribeValid(st);
    case Receive(id) => DeliverValid(st, id);
    case Disconnect(id) => EndSessionValid(st, id);
  }

  /** Every run preserves the invariant. */
  lemma {:induction false} RunValid(st: State, ops: seq<Op>)
    requires Valid(st)
    ensures Run(st, ops).Some? ==> Valid(Run(st, ops).value)
    decreases |ops|
  {
    if ops != [] && Enabled(st, ops[0]) {
      StepValid(st, ops[0]);
      RunValid(Step(st, ops[0]), ops[1..]);
    }
  }

  /** The document a step leaves in the store, given the one before it:
      accepted writes replace it, everything else keeps it. */
  function Written(op: Op, before: Doc): Doc {
    match op
    case Post(k, c, ts) => if k == "html" || k == "url" then Doc(ParseKind(k).value, c, Some(ts)) else before
    case ToolUrl(u, ts) => Doc(Url, u, Some(ts))
    case ToolHtml(h, ts) => Doc(Html, h, Some(ts))
    case _ => before
  }

  /** The reference for last-write-wins, folded from the end of the run:
      the latest accepted write, or `before` when there is none. */
  function LastWritten(ops: seq<Op>, before: Doc): Doc
    decreases |ops|
  {
    if ops == [] then before
    else Written(ops[|ops| - 1], LastWritten(ops[..|ops| - 1], before))
  }

  /** Each step moves the store exactly as `Written` says. */
  lemma StepLoad(st: State, op: Op)
    requires Enabled(st, op)
    ensures Load(Step(st, op)) == Written(op, Load(st))
  {
  }

  lemma {:induction false} LastWrittenCons(op: Op, rest: seq<Op>, before: Doc)
    ensures LastWritten([op] + rest, before) == LastWritten(rest, Written(op, before))
    decreases |rest|
  {
    if rest != [] {
      var n := |rest| - 1;
      assert ([op] + rest)[..n + 1] == [op] + rest[..n];
      assert ([op] + rest)[n + 1] == rest[n];
      LastWrittenCons(op, rest[..n], before);
    }
  }

  /** Last write wins: after any run, `load_content` returns the record of
      the latest accepted write of the run, or what it returned before. */
  lemma {:induction false} LastWriteWins(st: State, ops: seq<Op>)
    ensures Run(st, ops).Some? ==> Load(Run(st, ops).value) == LastWritten(ops, Load(st))
    decreases |ops|
  {
    if ops != [] && Enabled(st, ops[0]) {
      StepLoad(st, ops[0]);
      LastWriteWins(Step(st, ops[0]), ops[1..]);
      assert ops == [ops[0]] + ops[1..];
      LastWrittenCons(ops[0], ops[1..], Load(st));
    }
  }

  /** After N updates the store holds the Nth: a run ending in an accepted
      write leaves exactly that write's record, whatever came before. */
  lemma LastUpdateStored(st: State, ops: seq<Op>, kind: string, content: string, ts: Timestamp)
    requires kind == "html" || kind == "url"
    ensures Run(st, ops + [Post(kind, content, ts)]).Some? ==>
      Load(Run(st, ops + [Post(kind, content, ts)]).value) == Doc(ParseKind(kind).value, content, Some(ts))
  {
    var all := ops + [Post(kind, content, ts)];
    LastWriteWins(st, all);
    assert all[..|all| - 1] == ops;
  }

  /** In every reachable state each session's stream, yielded and queued,
      is the document current when it registered, then exactly the
      documents published while it was registered, once each, in order;
      and the store holds the last document published. */
  lemma ReachableStreams(boot: Option<Doc>, ops: seq<Op>, id: SessionId)
    requires Run(Init(boot), ops).Some?
    requires id in Run(Init(boot), ops).value.sessions
    ensures var st := Run(Init(boot), ops).value;
      var s := st.sessions[id];
      && s.joinedAt <= End(st, s) <= |st.published|
      && |s.emitted| >= 1
      && s.emitted[0] == CurrentAt(st, s.joinedAt)
      && Delivered(s) == [CurrentAt(st, s.joinedAt)] + st.published[s.joinedAt..End(st, s)]
      && (id in st.registry <==> s.leftAt.None?)
      && (|st.published| > 0 ==> st.store == Some(st.published[|st.published| - 1]))
  {
    InitValid(boot);
    RunValid(Init(boot), ops);
    var st := Run(Init(boot), ops).value;
    var s := st.sessions[id];
    ConsistentAt(st, id);
    assert Delivered(s)[0] == s.emitted[0];
  }

  /** The `while True` loop drained until `queue.get()` would suspend: the
      queued documents are yielded in FIFO order and nothing else changes. */
  method DrainSession(st: State, id: SessionId) returns (r: State, out: seq<Doc>)
    requires id in st.registry && id in st.sessions
    ensures out == st.sessions[id].pending
    ensures r == st.(sessions := st.sessions[id := st.sessions[id].(pending := [], emitted := st.sessions[id].emitted + out)])
    ensures Run(st, seq(|out|, _ => Receive(id))) == Some(r)
  {
    r := st;
    out := [];
    assert st.sessions[id].emitted + out == st.sessions[id].emitted;
    assert st.sessions[id := st.sessions[id]] == st.sessions;
    while |r.sessions[id].pending| > 0
      invariant id in r.registry && id in r.sessions
      invariant out + r.sessions[id].pending == st.sessions[id].pending
      invariant r == st.(sessions := st.sessions[id := st.sessions[id].(pending := r.sessions[id].pending, emitted := st.sessions[id].emitted + out)])
      invariant Run(st, seq(|out|, _ => Receive(id))) == Some(r)
      decreases |r.sessions[id].pending|
    {
      var d := r.sessions[id].pending[0];
      ghost var before := r;
      r := Deliver(r, id);
      RunSnoc(st, seq(|out|, _ => Receive(id)), before, Receive(id));
      assert seq(|out|, _ => Receive(id)) + [Receive(id)] == seq(|out| + 1, _ => Receive(id));
      out := out + [d];
      assert r.sessions[id].emitted == st.sessions[id].emitted + out;
    }
  }

  /** A run extended by one enabled step. */
  lemma {:induction false} RunSnoc(st: State, ops: seq<Op>, mid: State, op: Op)
    requires Run(st, ops) == Some(mid) && Enabled(mid, op)
    ensures Run(st, ops + [op]) == Some(Step(mid, op))
    decreases |ops|
  {
    if ops == [] {
      assert [] + [op] == [op];
    } else {
      assert (ops + [op])[0] == ops[0] && (ops + [op])[1..] == ops[1..] + [op];
      RunSnoc(Step(st, ops[0]), ops[1..], mid, op);
    }
  }

  /** `after` extends `before`: history only grows, every session keeps its
      registration point, a finished session keeps its end, and a live one
      ends no earlier than now. */
  ghost predicate Extends(before: State, after: State) {
    && |before.published| <= |after.published|
    && after.published[..|before.published|] == before.published
    && after.boot == before.boot
    && (forall id :: id in before.sessions ==>
          && id in after.sessions
          && after.sessions[id].joinedAt == before.sessions[id].joinedAt
          && (before.sessions[id].leftAt.Some? ==> after.sessions[id].leftAt == before.sessions[id].leftAt)
          && (before.sessions[id].leftAt.None? ==> End(after, after.sessions[id]) >= |before.published|))
  }

  lemma ExtendsTrans(a: State, b: State, c: State)
    requires Extends(a, b) && Extends(b, c)
    ensures Extends(a, c)
  {
    assert c.published[..|a.published|] == c.published[..|b.published|][..|a.published|];
    forall id | id in a.sessions
      ensures a.sessions[id].leftAt.None? ==> End(c, c.sessions[id]) >= |a.published|
    {
      if b.sessions[id].leftAt.Some? {
        assert End(c, c.sessions[id]) == End(b, b.sessions[id]);
      }
    }
  }

  lemma PublishedExtends(st: State, d: Doc, r: State)
    requires Valid(st) && Published(st, d, r)
    ensures Extends(st, r)
  {
    assert r.published[..|st.published|] == st.published;
    forall id | id in st.sessions
      ensures r.sessions[id].joinedAt == st.sessions[id].joinedAt
      ensures r.sessions[id].leftAt == st.sessions[id].leftAt
    {
      PublishedEffect(st, d, r, id);
    }
  }

  lemma SubscribeExtends(st: State)
    requires Valid(st)
    ensures Extends(st, Subscribe(st).0)
  {
    assert st.published[..|st.published|] == st.published;
  }

  lemma DeliverExtends(st: State, id: SessionId)
    requires id in st.registry && id in st.sessions && |st.sessions[id].pending| > 0
    ensures Extends(st, Deliver(st, id))
  {
    assert st.published[..|st.published|] == st.published;
  }

  lemma EndSessionExtends(st: State, id: SessionId)
    requires Valid(st) && id in st.registry && id in st.sessions
    ensures Extends(st, EndSession(st, id))
  {
    assert st.sessions[id].leftAt.None?;
    assert st.published[..|st.published|] == st.published;
  }

  lemma StepExtends(st: State, op: Op)
    requires Valid(st) && Enabled(st, op)
    ensures Extends(st, Step(st, op))
  {
    match op
    case Post(k, c, ts) =>
      if Update(st, k, c, ts).Success? {
        PublishedExtends(st, Doc(ParseKind(k).value, c, Some(ts)), Step(st, op));
      } else {
        assert st.published[..|st.published|] == st.published;
      }
    case ToolUrl(u, ts) => PublishedExtends(st, Doc(Url, u, Some(ts)), Step(st, op));
    case ToolHtml(h, ts) => PublishedExtends(st, Doc(Html, h, Some(ts)), Step(st, op));
    case Connect => SubscribeExtends(st);
    case Receive(id) => DeliverExtends(st, id);
    case Disconnect(id) => EndSessionExtends(st, id);
  }

  lemma {:induction false} RunExtends(st: State, ops: seq<Op>)
    requires Valid(st) && Run(st, ops).Some?
    ensures Extends(st, Run(st, ops).value)
    decreases |ops|
  {
    if ops == [] {
      assert st.published[..|st.published|] == st.published;
    } else {
      var next := Step(st, ops[0]);
      StepExtends(st, ops[0]);
      StepValid(st, ops[0]);
      RunExtends(next, ops[1..]);
      ExtendsTrans(st, next, Run(st, ops).value);
    }
  }

  /** A session registered now receives, over any run, every document
      published during the run while it stays registered: exactly once
      each, in publish order, appended after what it already had. */
  lemma LiveSessionReceivesLater(st: State, ops: seq<Op>, id: SessionId)
    requires Valid(st) && id in st.registry
    requires Run(st, ops).Some?
    ensures var after := Run(st, ops).value;
      && id in after.sessions
      && |st.published| <= End(after, after.sessions[id]) <= |after.published|
      && Delivered(after.sessions[id]) ==
           Delivered(st.sessions[id]) + after.published[|st.published|..End(after, after.sessions[id])]
      && (id in after.registry ==> End(after, after.sessions[id]) == |after.published|)
  {
    var after := Run(st, ops).value;
    var s := st.sessions[id];
    assert Consistent(st, s) && End(st, s) == |st.published| by {
      ConsistentAt(st, id);
    }
    assert id in after.sessions && Consistent(after, after.sessions[id])
      && (id in after.registry ==> End(after, after.sessions[id]) == |after.published|) by {
      RunValid(st, ops);
      RunExtends(st, ops);
      ConsistentAt(after, id);
    }
    assert after.sessions[id].joinedAt == s.joinedAt && End(after, after.sessions[id]) >= |st.published|
      && after.published[..|st.published|] == st.published && after.boot == st.boot by {
      RunExtends(st, ops);
    }
    StreamExtends(st, after, s, after.sessions[id]);
  }

  /** The arithmetic of streams: a live session's stream now is a prefix of
      its stream later, the rest being what was published in between. */
  lemma StreamExtends(st: State, after: State, s: Session, s': Session)
    requires Consistent(st, s) && End(st, s) == |st.published|
    requires Consistent(after, s') && s'.joinedAt == s.joinedAt
    requires |st.published| <= End(after, s') && after.published[..|st.published|] == st.published
    requires after.boot == st.boot
    ensures Delivered(s') == Delivered(s) + after.published[|st.published|..End(after, s')]
  {
    var j, n, e := s.joinedAt, |st.published|, End(after, s');
    assert CurrentAt(after, j) == CurrentAt(st, j) by {
      if j > 0 { assert after.published[..n][j - 1] == after.published[j - 1]; }
    }
    SliceSplit(st.published, after.published, j, n, e);
  }

  lemma ConsistentAt(st: State, id: SessionId)
    requires Valid(st) && id in st.sessions
    ensures Consistent(st, st.sessions[id])
    ensures id in st.registry ==> End(st, st.sessions[id]) == |st.published|
  {
  }

  lemma SliceSplit(p: seq<Doc>, q: seq<Doc>, j: nat, n: nat, e: nat)
    requires j <= n <= e <= |q| && n <= |p| && q[..n] == p[..n]
    ensures q[j..e] == p[j..n] + q[n..e]
  {
    assert q[j..n] == q[..n][j..];
    assert q[j..e] == q[j..n] + q[n..e];
  }
}
