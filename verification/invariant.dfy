/** Every transition of the service preserves `Whiteboard.Valid`. */
module Invariant {
  import opened Wrappers
  import opened Seqs
  import opened Document
  import opened Whiteboard

  /** The service starts in a valid state whatever the file held. */
  lemma InitValid(boot: Option<Doc>)
    ensures Valid(Init(boot))
    ensures Load(Init(boot)) == LoadStore(boot)
  {
  }

  /** In a valid state a queue is notified exactly when it is registered. */
  lemma RegisteredOnce(st: State, id: SessionId)
    requires Valid(st)
    ensures multiset(st.registry)[id] == if id in st.registry then 1 else 0
  {
    NoDupCount(st.registry, id);
  }

  /** A publish, seen from a valid state: every registered queue gains `d`
      at its end exactly once, every other session is untouched. */
  lemma PublishedEffect(st: State, d: Doc, r: State, id: SessionId)
    requires Valid(st) && Published(st, d, r) && id in st.sessions
    ensures id in st.registry ==> r.sessions[id] == st.sessions[id].(pending := st.sessions[id].pending + [d])
    ensures id !in st.registry ==> r.sessions[id] == st.sessions[id]
  {
    RegisteredOnce(st, id);
    assert Repeat(d, 1) == [d];
    assert st.sessions[id].pending + Repeat(d, 0) == st.sessions[id].pending;
  }

  /** A publish extends a live session's stream by `d` and leaves a
      finished session's stream as it was. */
  lemma ConsistentAfterPublish(st: State, r: State, d: Doc, s: Session)
    requires Consistent(st, s)
    requires r.published == st.published + [d] && r.boot == st.boot
    ensures Consistent(r, if s.leftAt.None? then s.(pending := s.pending + [d]) else s)
  {
    var n, j := |st.published|, s.joinedAt;
    assert r.published[..n] == st.published;
    assert CurrentAt(r, j) == CurrentAt(st, j);
    if s.leftAt.None? {
      var s' := s.(pending := s.pending + [d]);
      assert r.published[j..n + 1] == st.published[j..n] + [d];
      assert Delivered(s') == Delivered(s) + [d];
    } else {
      assert r.published[j..End(st, s)] == st.published[j..End(st, s)];
    }
  }

  /** Saving then broadcasting `d` keeps the state valid. */
  lemma PublishedValid(st: State, d: Doc, r: State)
    requires Valid(st) && Published(st, d, r)
    ensures Valid(r)
  {
    forall id | id in r.sessions
      ensures r.sessions[id].leftAt == st.sessions[id].leftAt
      ensures Consistent(r, r.sessions[id])
    {
      var s := st.sessions[id];
      assert Consistent(st, s)
        && r.sessions[id] == (if s.leftAt.None? then s.(pending := s.pending + [d]) else s) by {
        PublishedEffect(st, d, r, id);
      }
      ConsistentAfterPublish(st, r, d, s);
    }
    assert Load(r) == d == CurrentAt(r, |r.published|);
  }

  /** A successful update keeps the state valid; a rejected one changes nothing. */
  lemma UpdateValid(st: State, kind: string, content: string, ts: Timestamp)
    requires Valid(st)
    ensures Update(st, kind, content, ts).Success? ==> Valid(Update(st, kind, content, ts).value.state)
  {
    var r := Update(st, kind, content, ts);
    if r.Success? {
      PublishedValid(st, Doc(ParseKind(kind).value, content, Some(ts)), r.value.state);
    }
  }

  /** Save before broadcast: in a successful update the one document put on
      each registered queue is the record the store now holds, and queues
      of sessions that have left are untouched. */
  lemma UpdateBroadcastsStored(st: State, kind: string, content: string, ts: Timestamp)
    requires Valid(st)
    requires Update(st, kind, content, ts).Success?
    ensures var r := Update(st, kind, content, ts).value.state;
      && r.store == Some(Load(r))
      && forall id :: id in st.sessions ==>
           r.sessions[id].pending == st.sessions[id].pending + (if id in st.registry then [Load(r)] else [])
  {
    var r := Update(st, kind, content, ts).value.state;
    forall id | id in st.sessions
      ensures r.sessions[id].pending == st.sessions[id].pending + (if id in st.registry then [Load(r)] else [])
    {
      PublishedEffect(st, Load(r), r, id);
      assert st.sessions[id].pending + [] == st.sessions[id].pending;
    }
  }

  /** Registering a new session keeps the state valid. */
  lemma SubscribeValid(st: State)
    requires Valid(st)
    ensures Valid(Subscribe(st).0)
  {
    var (r, id) := Subscribe(st);
    assert NoDup(r.registry) by {
      forall i, j | 0 <= i < j < |r.registry| ensures r.registry[i] != r.registry[j] {
        if j == |st.registry| {
          assert r.registry[i] == st.registry[i];
        } else {
          assert r.registry[i] == st.registry[i] && r.registry[j] == st.registry[j];
        }
      }
    }
    forall j | j in r.sessions ensures Consistent(r, r.sessions[j]) {
      if j != id {
        assert r.sessions[j] == st.sessions[j];
        assert Consistent(st, st.sessions[j]);
      }
    }
  }

  /** Consistency depends only on the history, the session's registration
      window and what it has yielded or queued in total. */
  lemma ConsistentSameHistory(st: State, r: State, s: Session, s': Session)
    requires Consistent(st, s)
    requires r.published == st.published && r.boot == st.boot
    requires s'.joinedAt == s.joinedAt && |s'.emitted| >= 1 && Delivered(s') == Delivered(s)
    requires s'.leftAt == s.leftAt || (s.leftAt.None? && s'.leftAt == Some(|st.published|))
    ensures Consistent(r, s')
  {
  }

  /** Yielding the head of a queue keeps the state valid. */
  lemma DeliverValid(st: State, id: SessionId)
    requires Valid(st)
    requires id in st.registry && id in st.sessions && |st.sessions[id].pending| > 0
    ensures Valid(Deliver(st, id))
  {
    var r := Deliver(st, id);
    assert r.registry == st.registry && r.sessions.Keys == st.sessions.Keys;
    forall j | j in r.sessions
      ensures r.sessions[j].leftAt == st.sessions[j].leftAt
      ensures Consistent(r, r.sessions[j])
    {
      ConsistentSameHistory(st, r, st.sessions[j], r.sessions[j]);
    }
    assert Load(r) == Load(st);
  }

  /** Deregistering a session keeps the state valid. */
  lemma EndSessionValid(st: State, id: SessionId)
    requires Valid(st)
    requires id in st.registry && id in st.sessions
    ensures Valid(EndSession(st, id))
  {
    var r := EndSession(st, id);
    assert NoDup(r.registry) && id !in r.registry && forall j :: j != id ==> (j in r.registry <==> j in st.registry) by {
      RemoveFirstUnique(st.registry, id);
    }
    assert r.sessions.Keys == st.sessions.Keys;
    forall j | j in r.sessions
      ensures j in r.registry <==> r.sessions[j].leftAt.None?
      ensures Consistent(r, r.sessions[j])
    {
      ConsistentSameHistory(st, r, st.sessions[j], r.sessions[j]);
    }
    assert Load(r) == Load(st);
  }

  /** Deregistration isolates exactly one session: it leaves the registry,
      every other queue keeps its place, order and contents, and no later
      update reaches the removed queue. */
  lemma EndSessionIsolates(st: State, id: SessionId, kind: string, content: string, ts: Timestamp)
    requires Valid(st)
    requires id in st.registry && id in st.sessions
    ensures id !in EndSession(st, id).registry
    ensures forall j :: j != id ==> (j in EndSession(st, id).registry <==> j in st.registry)
    ensures forall j :: j in st.sessions && j != id ==> EndSession(st, id).sessions[j] == st.sessions[j]
    ensures Update(EndSession(st, id), kind, content, ts).Success? ==>
      Update(EndSession(st, id), kind, content, ts).value.state.sessions[id] == EndSession(st, id).sessions[id]
  {
    var r := EndSession(st, id);
    assert id !in r.registry && forall j :: j != id ==> (j in r.registry <==> j in st.registry) by {
      RemoveFirstUnique(st.registry, id);
    }
    var u := Update(r, kind, content, ts);
    if u.Success? {
      assert u.value.state.sessions[id] == r.sessions[id] by {
        EndSessionValid(st, id);
        PublishedEffect(r, Doc(ParseKind(kind).value, content, Some(ts)), u.value.state, id);
      }
    }
  }
}
