/**
 Whole runs of the FlexKVS store: any sequence of requests, log cleaning and maintenance answers every
 GET with the value of the last SET that succeeded.
 */
module KvRuns {
  import opened Basics
  import opened KvTable
  import opened KvCore
  import opened KvWalk
  import opened KvIalloc
  import opened KvStore
  import opened KvRecycle
  import opened KvMaintenance
  import opened KvServer

  datatype Request =
    | GetKey(key: Bytes)
    | SetKey(core: int, key: Bytes, value: Bytes)
    | Clean(core: int, idle: bool)
    | Maintenance(core: int)

  datatype Reply = Found(value: Option<Bytes>) | Stored(ok: bool) | Done

  // ---- what the replies must be ----

  /** The map after a request that got this reply. */
  function Effect(view: map<Bytes, Bytes>, req: Request, reply: Reply): map<Bytes, Bytes> {
    if req.SetKey? && reply == Stored(true) then view[req.key := req.value] else view
  }

  function ViewAfter(view: map<Bytes, Bytes>, reqs: seq<Request>, replies: seq<Reply>): map<Bytes, Bytes>
    requires |replies| == |reqs|
  {
    if reqs == [] then view
    else Effect(ViewAfter(view, reqs[..|reqs| - 1], replies[..|reqs| - 1]), reqs[|reqs| - 1], replies[|reqs| - 1])
  }

  function Lookup(view: map<Bytes, Bytes>, key: Bytes): Option<Bytes> {
    if key in view then Some(view[key]) else None
  }

  /** A reply of the right kind, and for a GET what the map holds. */
  predicate Agrees(view: map<Bytes, Bytes>, req: Request, reply: Reply) {
    match req
    case GetKey(key) => reply == Found(Lookup(view, key))
    case SetKey(_, _, _) => reply.Stored?
    case _ => reply == Done
  }

  predicate Consistent(view: map<Bytes, Bytes>, reqs: seq<Request>, replies: seq<Reply>)
    requires |replies| == |reqs|
  {
    forall i :: 0 <= i < |reqs| ==> Agrees(ViewAfter(view, reqs[..i], replies[..i]), reqs[i], replies[i])
  }

  // ---- the same, said of the trace alone ----

  /** Request j stored a value for the key. */
  predicate Stores(reqs: seq<Request>, replies: seq<Reply>, j: int, key: Bytes) {
    0 <= j < |reqs| && j < |replies| && reqs[j].SetKey? && reqs[j].key == key && replies[j] == Stored(true)
  }

  /** Request j is the last one before i that stored a value for the key. */
  predicate LastStore(reqs: seq<Request>, replies: seq<Reply>, j: int, i: int, key: Bytes) {
    j < i && Stores(reqs, replies, j, key) && forall k :: j < k < i ==> !Stores(reqs, replies, k, key)
  }

  lemma {:induction false} ViewAfterIs(view: map<Bytes, Bytes>, reqs: seq<Request>, replies: seq<Reply>, key: Bytes)
    requires |replies| == |reqs|
    ensures var now := Lookup(ViewAfter(view, reqs, replies), key);
            || ((forall k :: 0 <= k < |reqs| ==> !Stores(reqs, replies, k, key)) && now == Lookup(view, key))
            || (exists j :: LastStore(reqs, replies, j, |reqs|, key) && now == Some(reqs[j].value))
  {
    if reqs != [] {
      var n := |reqs| - 1;
      var reqs1, replies1 := reqs[..n], replies[..n];
      ViewAfterIs(view, reqs1, replies1, key);
      forall k | 0 <= k < n ensures Stores(reqs, replies, k, key) <==> Stores(reqs1, replies1, k, key) { }
      if Stores(reqs, replies, n, key) {
        assert LastStore(reqs, replies, n, |reqs|, key);
      } else if exists j :: LastStore(reqs1, replies1, j, n, key) && Lookup(ViewAfter(view, reqs1, replies1), key) == Some(reqs1[j].value) {
        var j :| LastStore(reqs1, replies1, j, n, key) && Lookup(ViewAfter(view, reqs1, replies1), key) == Some(reqs1[j].value);
        assert LastStore(reqs, replies, j, |reqs|, key);
      }
    }
  }

  /** In a consistent trace a GET returns the value of the last SET that succeeded, whatever came between. */
  lemma GetReturnsLastStore(view: map<Bytes, Bytes>, reqs: seq<Request>, replies: seq<Reply>, i: int, j: int)
    requires |replies| == |reqs| && Consistent(view, reqs, replies) && 0 <= i < |reqs| && reqs[i].GetKey?
    requires LastStore(reqs, replies, j, i, reqs[i].key)
    ensures replies[i] == Found(Some(reqs[j].value))
  {
    var key, reqs1, replies1 := reqs[i].key, reqs[..i], replies[..i];
    ViewAfterIs(view, reqs1, replies1, key);
    assert Stores(reqs1, replies1, j, key);
    forall k | 0 <= k < i ensures Stores(reqs, replies, k, key) <==> Stores(reqs1, replies1, k, key) { }
    var m :| LastStore(reqs1, replies1, m, i, key) && Lookup(ViewAfter(view, reqs1, replies1), key) == Some(reqs1[m].value);
    assert Stores(reqs, replies, m, key) && m == j;
  }

  // ---- the store keeps to it ----

  /** What the callers of the store see to: a core that exists, an item that fits. */
  predicate Allowed(req: Request, cores: nat, itemmax: nat) {
    match req
    case GetKey(_) => true
    case SetKey(c, key, value) => 0 <= c < cores && ITEM_HEADER + |key| + |value| <= itemmax
    case Clean(c, _) => 0 <= c < cores
    case Maintenance(c) => 0 <= c < cores
  }

  /** Why a run ends: there was no memory for a copy; a walk was stale; or a walk met a filler that does not fit. */
  datatype End = Complete | OutOfMemory | StaleWalk | AstrayWalk

  function ViewOf(s: Snapshot): map<Bytes, Bytes> { ValuesOf(s.core.heap, s.core.keys) }

  function CourseOf(end: End): Course {
    match end case StaleWalk => Stale case AstrayWalk => Astray case _ => OnTrack
  }

  /** What serving one request does to the store, and whether and how it ends the run. */
  ghost predicate Served(cfg: Settings, pre: Snapshot, req: Request, end: End, reply: Reply, post: Snapshot) {
    && Agrees(ViewOf(pre), req, reply) && ViewOf(post) == Effect(ViewOf(pre), req, reply)
    && match req
       case GetKey(_) => end == Complete && post == pre
       case SetKey(c, key, value) => end == Complete && reply.Stored? && SetSpec(cfg, pre, post, c, key, value, reply.ok)
       case Clean(c, idle) => && (end == Complete || end == OutOfMemory) && Cleaned(cfg, pre, post, c, idle, end == Complete)
                              && (Stock(pre.alloc, c, cfg.maxnum) >= Quota(|Queue(pre.alloc, c)|, idle) ==> end == Complete)
       case Maintenance(c) => end != OutOfMemory && exists k :: MaintainSpec(cfg, pre, post, c, CourseOf(end), k)
  }

  ghost predicate Cleaned(cfg: Settings, pre: Snapshot, post: Snapshot, c: int, idle: bool, ok: bool) {
    exists n: nat, trace: seq<Snapshot> :: LogSpec(cfg, pre, post, c, idle, ok, n, trace)
  }

  /** The state before a request says whether a maintenance call ends the run. */
  lemma MaintenanceEnds(cfg: Settings, pre: Snapshot, req: Request, end: End, reply: Reply, post: Snapshot)
    requires Served(cfg, pre, req, end, reply, post)
    ensures end == StaleWalk <==> req.Maintenance? && FindsStale(cfg, pre, req.core)
    ensures end == AstrayWalk <==> req.Maintenance? && FindsMisfit(cfg, pre, req.core)
  {
  }

  /** After cleaning n - 1 items a call met one whose copy has no memory. */
  ghost predicate RunsOut(cfg: Settings, c: int, idle: bool, n: nat, trace: seq<Snapshot>) {
    0 < n <= |trace| && TurnFails(cfg, trace[n - 1], c, idle)
  }

  /** A cleaning ends the run exactly when it runs out of memory; not if the core can get as many segments as items are taken. */
  lemma CleaningEnds(cfg: Settings, pre: Snapshot, req: Request, end: End, reply: Reply, post: Snapshot, ok: bool)
    requires Served(cfg, pre, req, end, reply, post) && req.Clean? && ok == (end == Complete)
    ensures exists n: nat, trace: seq<Snapshot> ::
              LogSpec(cfg, pre, post, req.core, req.idle, ok, n, trace) && (end == OutOfMemory <==> RunsOut(cfg, req.core, req.idle, n, trace))
    ensures Stock(pre.alloc, req.core, cfg.maxnum) >= Quota(|Queue(pre.alloc, req.core)|, req.idle) ==> end == Complete
  {
    hide LogSpec, TurnFails;
    var n: nat, trace :| LogSpec(cfg, pre, post, req.core, req.idle, ok, n, trace);
    LogFailsIff(cfg, pre, post, req.core, req.idle, ok, n, trace);
    LogLength(cfg, pre, post, req.core, req.idle, ok, n, trace);
  }

  lemma LogLength(cfg: Settings, pre: Snapshot, post: Snapshot, c: int, idle: bool, ok: bool, n: nat, trace: seq<Snapshot>)
    requires LogSpec(cfg, pre, post, c, idle, ok, n, trace)
    ensures |trace| == n + 1
  {
  }

  method Serve(st: KvStore, req: Request, ghost others: multiset<Addr>) returns (end: End, reply: Reply)
    requires Settled(st, others) && Allowed(req, |st.ias|, st.itemmax)
    modifies st
    ensures |st.ias| == |old(st.ias)| && (end == Complete ==> Settled(st, others))
    ensures Served(st.Cfg(), old(st.Now()), req, end, reply, st.Now())
    ensures end == StaleWalk ==> req.Maintenance? && Dangling(st, req.core)
  {
    hide KvStore.Valid, ValidBut, AllHome, ValuesOf, Queued, MaintainSpec, LogSpec, SetSpec, TurnFails, Stock;
    end, reply := Complete, Done;
    match req {
      case GetKey(key) =>
        var v := Get(st, key);
        reply := Found(v);
        assert st.Now() == old(st.Now());
      case SetKey(c, key, value) =>
        ghost var was := st.ias;
        var ok := Set(st, c, key, value);
        assert SetSpec(st.Cfg(), old(st.Now()), st.Now(), c, key, value, ok);
        QueuedSame(was, c, st.ias[c]);
        reply := Stored(ok);
      case Clean(c, idle) =>
        var ok, n;
        ghost var trace;
        ok, n, trace := CleanLog(st, c, idle, others);
        end := if ok then Complete else OutOfMemory;
        assert Cleaned(st.Cfg(), old(st.Now()), st.Now(), c, idle, ok);
      case Maintenance(c) =>
        ghost var pre := st.Now();
        Begin(st, c);
        var course;
        ghost var k;
        course, k := Maintain(st, c, others);
        MaintainView(st.Cfg(), pre, st.Now(), c, course, k);
        assert MaintainSpec(st.Cfg(), pre, st.Now(), c, course, k);
        end := match course case OnTrack => Complete case Stale => StaleWalk case Astray => AstrayWalk;
        assert CourseOf(end) == course;
    }
  }

  lemma MaintainView(cfg: Settings, pre: Snapshot, post: Snapshot, c: int, course: Course, k: int)
    requires MaintainSpec(cfg, pre, post, c, course, k)
    ensures ViewOf(post) == ViewOf(pre)
  {
  }

  /** A run: the states between requests, each request served from one to the next, only the last of them ending the run early. */
  ghost predicate RunSpec(cfg: Settings, reqs: seq<Request>, replies: seq<Reply>, end: End, trace: seq<Snapshot>) {
    && |replies| <= |reqs| && |trace| == |replies| + 1 && (end == Complete ==> |replies| == |reqs|) && (end != Complete ==> replies != [])
    && forall i :: 0 <= i < |replies| ==>
         Served(cfg, trace[i], reqs[i], if i < |replies| - 1 then Complete else end, replies[i], trace[i + 1])
  }

  /**
   Every run is consistent, up to the request that ends it if one does; the store stands for the map it
   should. What ends a run early is decided by the state before its last request.
   */
  method Run(st: KvStore, reqs: seq<Request>, ghost others: multiset<Addr>) returns (end: End, replies: seq<Reply>, ghost trace: seq<Snapshot>)
    requires Settled(st, others)
    requires forall i :: 0 <= i < |reqs| ==> Allowed(reqs[i], |st.ias|, st.itemmax)
    modifies st
    ensures RunSpec(st.Cfg(), reqs, replies, end, trace) && trace[0] == old(st.Now()) && trace[|replies|] == st.Now()
    ensures end == Complete ==> Settled(st, others)
    ensures end == StaleWalk ==> replies != [] && reqs[|replies| - 1].Maintenance? && Dangling(st, reqs[|replies| - 1].core)
    ensures Consistent(old(st.View()), reqs[..|replies|], replies)
    ensures st.View() == ViewAfter(old(st.View()), reqs[..|replies|], replies)
  {
    hide KvStore.Valid, AllHome, Queued, ValuesOf, Consistent, ViewAfter, Agrees, Effect, Served;
    end, replies, trace := Complete, [], [st.Now()];
    ghost var view0 := st.View();
    ConsistentStart(view0);
    assert reqs[..0] == [];
    while |replies| < |reqs|
      invariant Settled(st, others) && |st.ias| == |old(st.ias)| && |replies| <= |reqs| && end == Complete
      invariant |trace| == |replies| + 1 && trace[0] == old(st.Now()) && trace[|replies|] == st.Now()
      invariant forall i :: 0 <= i < |replies| ==> Served(st.Cfg(), trace[i], reqs[i], Complete, replies[i], trace[i + 1])
      invariant Consistent(view0, reqs[..|replies|], replies) && st.View() == ViewAfter(view0, reqs[..|replies|], replies)
    {
      var n := |replies|;
      ghost var was, pre := replies, st.Now();
      var reply;
      end, reply := Serve(st, reqs[n], others);
      ServedView(st.Cfg(), pre, reqs[n], end, reply, st.Now());
      replies := replies + [reply];
      trace := trace + [st.Now()];
      ConsistentStep(view0, reqs[..n], was, reqs[n], reply);
      assert reqs[..n] + [reqs[n]] == reqs[..n + 1];
      if end != Complete {
        return;
      }
    }
  }

  lemma ServedView(cfg: Settings, pre: Snapshot, req: Request, end: End, reply: Reply, post: Snapshot)
    requires Served(cfg, pre, req, end, reply, post)
    ensures Agrees(ViewOf(pre), req, reply) && ViewOf(post) == Effect(ViewOf(pre), req, reply)
  {
  }

  lemma ConsistentStart(view: map<Bytes, Bytes>)
    ensures Consistent(view, [], []) && ViewAfter(view, [], []) == view
  {
  }

  lemma ConsistentStep(view: map<Bytes, Bytes>, reqs: seq<Request>, replies: seq<Reply>, req: Request, reply: Reply)
    requires |replies| == |reqs| && Consistent(view, reqs, replies) && Agrees(ViewAfter(view, reqs, replies), req, reply)
    ensures Consistent(view, reqs + [req], replies + [reply])
    ensures ViewAfter(view, reqs + [req], replies + [reply]) == Effect(ViewAfter(view, reqs, replies), req, reply)
  {
    var reqs', replies' := reqs + [req], replies + [reply];
    assert reqs'[..|reqs|] == reqs && replies'[..|reqs|] == replies;
    forall i | 0 <= i < |reqs'| ensures Agrees(ViewAfter(view, reqs'[..i], replies'[..i]), reqs'[i], replies'[i]) {
      if i < |reqs| { assert reqs'[..i] == reqs[..i] && replies'[..i] == replies[..i]; }
    }
  }
}
