/** Concrete runs of the service. */
module Scenarios {
  import opened Wrappers
  import opened Document
  import opened Whiteboard
  import opened Invariant
  import opened Trace

  /** A fresh store serves the bootstrap welcome page, without a timestamp. */
  lemma FreshStoreServesDefault()
    ensures Load(Init(None)) == Doc(Html, "<h1>欢迎使用白板</h1>", None)
    ensures Load(Init(None)).updatedAt.None?
  {
  }

  /** A posted URL is what the next read returns, stamped with its time. */
  lemma PostedUrlIsLoaded(st: State, ts: Timestamp)
    ensures Update(st, "url", "https://example.com", ts).Success?
    ensures Load(Update(st, "url", "https://example.com", ts).value.state) == Doc(Url, "https://example.com", Some(ts))
  {
  }

  /** A request with an unknown type is rejected and the run step is a no-op:
      store, registry and every queue stay as they were. */
  lemma RejectedKindChangesNothing(st: State, kind: string, content: string, ts: Timestamp)
    requires kind != "html" && kind != "url"
    ensures Update(st, kind, content, ts) == Failure(InvalidKind)
    ensures Step(st, Post(kind, content, ts)) == st
  {
  }

  /** A session that registers and then sees one update yields exactly two
      documents: the snapshot at registration, then the new one. */
  lemma SubscribeThenUpdate(st: State, k: Kind, content: string, ts: Timestamp)
    requires Valid(st)
    ensures var (st1, id) := Subscribe(st);
      var st2 := Update(st1, KindName(k), content, ts).value.state;
      && id in st2.registry && id in st2.sessions && |st2.sessions[id].pending| > 0
      && Deliver(st2, id).sessions[id].emitted == [Load(st), Doc(k, content, Some(ts))]
      && Deliver(st2, id).sessions[id].pending == []
  {
    var (st1, id) := Subscribe(st);
    SubscribeValid(st);
    var d := Doc(k, content, Some(ts));
    ParseKindName(k);
    var st2 := Update(st1, KindName(k), content, ts).value.state;
    PublishedEffect(st1, d, st2, id);
  }

  /** Client A joins a fresh board, sees doc1, leaves; doc2 is posted; client
      B joins.  B's first event is doc2, and A's stream stopped at doc1. */
  lemma LateJoinerSeesLatest(t1: Timestamp, t2: Timestamp)
    ensures
      var doc1 := Doc(Url, "https://example.com", Some(t1));
      var doc2 := Doc(Html, "<p>two</p>", Some(t2));
      var s0 := Init(None);
      var (s1, a) := Subscribe(s0);
      var s2 := Update(s1, "url", "https://example.com", t1).value.state;
      && a in s2.registry && a in s2.sessions && |s2.sessions[a].pending| > 0
      && var s3 := Deliver(s2, a);
      && a in s3.registry && a in s3.sessions
      && var s4 := EndSession(s3, a);
      && var s5 := Update(s4, "html", "<p>two</p>", t2).value.state;
      && var (s6, b) := Subscribe(s5);
      && b in s6.sessions && a in s6.sessions
      && s6.sessions[b].emitted == [doc2]
      && s6.sessions[a].emitted == [DefaultDoc, doc1]
      && s6.sessions[a].pending == []
  {
    var doc1 := Doc(Url, "https://example.com", Some(t1));
    var doc2 := Doc(Html, "<p>two</p>", Some(t2));
    var s0 := Init(None);
    InitValid(None);
    var (s1, a) := Subscribe(s0);
    SubscribeValid(s0);
    var s2 := Update(s1, "url", "https://example.com", t1).value.state;
    PublishedEffect(s1, doc1, s2, a);
    var s3 := Deliver(s2, a);
    var s4 := EndSession(s3, a);
    UpdateValid(s1, "url", "https://example.com", t1);
    DeliverValid(s2, a);
    EndSessionIsolates(s3, a, "html", "<p>two</p>", t2);
  }
}
