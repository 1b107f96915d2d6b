/** The upload manager: queue, session table, retries with backoff, and the uploads in flight. */
module UploadManager {
  import opened Wrappers

  type Id = string
  type Path = string

  const SECOND := 1_000_000_000
  const TICK := 2 * SECOND
  const MAX_BACKOFF := 60 * SECOND

  // ---------------------------------------------------------------------------
  // Backoff
  // ---------------------------------------------------------------------------

  function Pow2(n: nat): nat {
    if n == 0 then 1 else 2 * Pow2(n - 1)
  }

  /** min(2^k, 60) seconds before retry k + 1. */
  function Backoff(k: nat): int {
    if k == 0 then TICK
    else if Pow2(k) * SECOND > MAX_BACKOFF then MAX_BACKOFF
    else Pow2(k) * SECOND
  }

  lemma {:induction false} Pow2Monotone(i: nat, k: nat)
    requires i <= k
    ensures Pow2(i) <= Pow2(k)
    decreases k
  {
    if i < k {
      Pow2Monotone(i, k - 1);
    }
  }

  /** The doubling loop of backoffFor. */
  method BackoffFor(retries: int) returns (d: int)
    ensures retries <= 0 ==> d == 2 * SECOND
    ensures retries > 0 ==> d == (if Pow2(retries) >= 60 then 60 else Pow2(retries)) * SECOND
  {
    d := TICK;
    var i := 1;
    while i < retries && d < MAX_BACKOFF
      invariant 1 <= i && (i <= retries || i == 1) && d == Backoff(i)
    {
      d := d * 2;
      if d > MAX_BACKOFF {
        d := MAX_BACKOFF;
      }
      i := i + 1;
    }
    if i < retries {
      Pow2Monotone(i, retries);
    }
  }

  // ---------------------------------------------------------------------------
  // State
  // ---------------------------------------------------------------------------

  datatype Phase = Pending | Uploading | Complete | Errored

  /** One transition out of the errored state back to pending: when, and whether the error was transient. */
  datatype Retry = Retry(at: int, transient: bool)

  /**
   * A session. `retried` and `failedForGood` are history: every retry transition, and whether some
   * upload of the session failed with a permanent error.
   */
  datatype Session = Session(id: Id, snapshot: Option<Path>, phase: Phase, retries: nat, transient: bool,
                             nextRetry: int, retried: seq<Retry>, failedForGood: bool)

  datatype Stage = Launched | Running | Done

  /** An upload goroutine for one session, from launch to the release of its slot. */
  datatype Worker = Worker(session: nat, stage: Stage)

  /** Sessions and workers are named by handles: a session outlives its place in the table. */
  datatype State = State(
    sessions: map<nat, Session>,
    queue: seq<nat>,
    table: map<Id, nat>,
    workers: map<nat, Worker>,
    inFlight: int,
    files: set<Path>,
    now: int,
    next: nat)

  datatype Config = Config(maxInFlight: int, maxRetries: int) {
    function Cap(): (c: int)
      ensures c > 0
    {
      if maxInFlight <= 0 then 5 else maxInFlight
    }

    function RetryCap(): (c: int)
      ensures c > 0
    {
      if maxRetries <= 0 then 5 else maxRetries
    }
  }

  datatype Result = Success | NetworkError | PermanentError

  /** Everything that can happen next, in any order. An event that is not enabled changes nothing. */
  datatype Event =
    | Clock(elapsed: nat)
    | QueueUpload(id: Id, path: Path)
    | Enqueue
    | Cancel(id: Id)
    | Process(id: Id)
    | Start(worker: nat)
    | Finish(worker: nat, result: Result)
    | Release(worker: nat)

  // ---------------------------------------------------------------------------
  // Steps
  // ---------------------------------------------------------------------------

  function Update(s: State, h: nat, session: Session): State {
    s.(sessions := s.sessions[h := session])
  }

  /** DiscardSnapshot: the file goes, and the session forgets it. */
  function Discard(s: State, h: nat): State {
    if h !in s.sessions || s.sessions[h].snapshot.None? then s
    else
      Update(s.(files := s.files - {s.sessions[h].snapshot.value}), h, s.sessions[h].(snapshot := None))
  }

  function FinishSession(s: State, id: Id): State {
    if id !in s.table then s else Discard(s.(table := s.table - {id}), s.table[id])
  }

  function Launch(cfg: Config, s: State, h: nat): State {
    if s.inFlight >= cfg.Cap() then s
    else s.(inFlight := s.inFlight + 1, workers := s.workers[s.next := Worker(h, Launched)], next := s.next + 1)
  }

  /** The transition of an errored session back to pending. */
  function Retried(x: Session, now: int): Session {
    x.(retries := x.retries + 1, phase := Pending,
       nextRetry := if x.transient then now + Backoff(x.retries + 1) else x.nextRetry,
       retried := x.retried + [Retry(now, x.transient)])
  }

  /** One session's turn in a tick of the loop. */
  function ProcessSession(cfg: Config, s: State, id: Id): State {
    if id !in s.table || s.table[id] !in s.sessions then s
    else
      var h := s.table[id];
      var x := s.sessions[h];
      match x.phase
      case Pending => Launch(cfg, s, h)
      case Uploading => s
      case Complete => FinishSession(s, id)
      case Errored =>
        if s.now < x.nextRetry then s
        else if x.transient || x.retries + 1 <= cfg.RetryCap() then Launch(cfg, Update(s, h, Retried(x, s.now)), h)
        else FinishSession(Update(s, h, x.(retries := x.retries + 1)), id)
  }

  function EnqueueSession(s: State): State {
    if s.queue == [] || s.queue[0] !in s.sessions then s
    else
      var h := s.queue[0];
      var id := s.sessions[h].id;
      var rest := s.(queue := s.queue[1..]);
      var cleared :=
        if id in s.table && s.table[id] in s.sessions then
          var previous := s.table[id];
          Discard(Update(rest, previous, s.sessions[previous].(phase := Complete)), previous)
        else rest;
      cleared.(table := cleared.table[id := h])
  }

  function FinishWorker(s: State, w: nat, result: Result): State {
    if w !in s.workers || !s.workers[w].stage.Running? || s.workers[w].session !in s.sessions then s
    else
      var h := s.workers[w].session;
      var x := s.sessions[h];
      var after := match result
        case Success => x.(phase := Complete)
        case NetworkError => x.(phase := Errored, transient := true)
        case PermanentError => x.(phase := Errored, transient := false, failedForGood := true);
      Update(s.(workers := s.workers[w := Worker(h, Done)]), h, after)
  }

  function Step(cfg: Config, s: State, e: Event): State {
    match e
    case Clock(elapsed) => s.(now := s.now + elapsed)
    case QueueUpload(id, path) =>
      if path in s.files then s
      else
        var session := Session(id, Some(path), Pending, 0, false, s.now, [], false);
        s.(sessions := s.sessions[s.next := session], queue := s.queue + [s.next], files := s.files + {path}, next := s.next + 1)
    case Enqueue => EnqueueSession(s)
    case Cancel(id) => FinishSession(s, id)
    case Process(id) => ProcessSession(cfg, s, id)
    case Start(w) =>
      if w !in s.workers || !s.workers[w].stage.Launched? || s.workers[w].session !in s.sessions then s
      else
        var h := s.workers[w].session;
        Update(s.(workers := s.workers[w := Worker(h, Running)]), h, s.sessions[h].(phase := Uploading))
    case Finish(w, result) => FinishWorker(s, w, result)
    case Release(w) =>
      if w !in s.workers || !s.workers[w].stage.Done? then s
      else s.(workers := s.workers - {w}, inFlight := if s.inFlight > 0 then s.inFlight - 1 else s.inFlight)
  }

  function Run(cfg: Config, s: State, events: seq<Event>): State {
    if events == [] then s else Step(cfg, Run(cfg, s, events[..|events| - 1]), events[|events| - 1])
  }

  function Start0(now: int): State {
    State(map[], [], map[], map[], 0, {}, now, 0)
  }

  // ---------------------------------------------------------------------------
  // Slots
  // ---------------------------------------------------------------------------

  /** The in-flight counter is the number of upload goroutines, and stays within the cap. */
  ghost predicate SlotsOk(cfg: Config, s: State) {
    s.inFlight == |s.workers| && s.inFlight <= cfg.Cap() && forall w :: w in s.workers ==> w < s.next
  }

  lemma ProcessSlots(cfg: Config, s: State, id: Id)
    requires SlotsOk(cfg, s)
    ensures SlotsOk(cfg, ProcessSession(cfg, s, id))
  {
  }

  lemma EnqueueSlots(s: State)
    ensures var r := EnqueueSession(s); r.workers == s.workers && r.inFlight == s.inFlight && r.next == s.next
  {
  }

  lemma FinishSlots(s: State, id: Id)
    ensures var r := FinishSession(s, id); r.workers == s.workers && r.inFlight == s.inFlight && r.next == s.next
  {
  }

  lemma StepSlots(cfg: Config, s: State, e: Event)
    requires SlotsOk(cfg, s)
    ensures SlotsOk(cfg, Step(cfg, s, e))
  {
    hide ProcessSession, EnqueueSession, FinishSession, FinishWorker;
    match e
    case Process(id) => ProcessSlots(cfg, s, id);
    case Enqueue => EnqueueSlots(s);
    case Cancel(id) => FinishSlots(s, id);
    case Start(w) => StartSlots(cfg, s, w);
    case Finish(w, result) => WorkerSlots(cfg, s, w, result);
    case Release(w) => ReleaseSlots(cfg, s, w);
    case Clock(_) =>
    case QueueUpload(_, _) =>
  }

  lemma StartSlots(cfg: Config, s: State, w: nat)
    requires SlotsOk(cfg, s)
    ensures SlotsOk(cfg, Step(cfg, s, Start(w)))
  {
    if w in s.workers {
      SameSize(s.workers, w, Worker(s.workers[w].session, Running));
    }
  }

  lemma WorkerSlots(cfg: Config, s: State, w: nat, result: Result)
    requires SlotsOk(cfg, s)
    ensures SlotsOk(cfg, FinishWorker(s, w, result))
  {
    if w in s.workers {
      SameSize(s.workers, w, Worker(s.workers[w].session, Done));
    }
  }

  lemma ReleaseSlots(cfg: Config, s: State, w: nat)
    requires SlotsOk(cfg, s)
    ensures SlotsOk(cfg, Step(cfg, s, Release(w)))
  {
    if w in s.workers {
      assert (s.workers - {w}).Keys == s.workers.Keys - {w};
    }
  }

  lemma SameSize(workers: map<nat, Worker>, w: nat, x: Worker)
    requires w in workers
    ensures |workers[w := x]| == |workers|
  {
    assert workers[w := x].Keys == workers.Keys;
  }

  // ---------------------------------------------------------------------------
  // Snapshots
  // ---------------------------------------------------------------------------

  /** Queued or tabled. */
  predicate Held(s: State, h: nat) {
    h in s.queue || h in s.table.Values
  }

  /** The files are exactly the snapshots of the sessions, one each. */
  ghost predicate FilesMatch(sessions: map<nat, Session>, files: set<Path>) {
    && (forall h :: h in sessions && sessions[h].snapshot.Some? ==> sessions[h].snapshot.value in files)
    && (forall p :: p in files ==> exists h :: h in sessions && sessions[h].snapshot == Some(p))
    && (forall g, h :: g in sessions && h in sessions && g != h && sessions[g].snapshot.Some? ==>
          sessions[g].snapshot != sessions[h].snapshot)
  }

  /** The snapshot files on disk are exactly those of the queued and tabled sessions, one each. */
  ghost predicate SnapshotsOk(s: State) {
    && (forall h :: h in s.sessions ==> h < s.next && (s.sessions[h].snapshot.Some? <==> Held(s, h)))
    && FilesMatch(s.sessions, s.files)
  }

  /** A queued session is in the queue once and not in the table; a tabled one is under its own id. */
  ghost predicate PlacesOk(s: State) {
    && (forall i :: 0 <= i < |s.queue| ==> s.queue[i] in s.sessions && s.queue[i] !in s.table.Values)
    && (forall i, j :: 0 <= i < j < |s.queue| ==> s.queue[i] != s.queue[j])
    && (forall id :: id in s.table ==> s.table[id] in s.sessions && s.sessions[s.table[id]].id == id)
  }

  ghost predicate FilesOk(s: State) {
    SnapshotsOk(s) && PlacesOk(s)
  }

  /** Changing neither who holds which snapshot nor who is where. */
  lemma SameFiles(s: State, r: State)
    requires FilesOk(s) && s.next <= r.next && r.queue == s.queue && r.table == s.table && r.files == s.files
    requires r.sessions.Keys == s.sessions.Keys
    requires forall h :: h in s.sessions ==> r.sessions[h].snapshot == s.sessions[h].snapshot && r.sessions[h].id == s.sessions[h].id
    ensures FilesOk(r)
  {
    SameSnapshots(s.sessions, r.sessions, s.files);
    assert forall h :: Held(r, h) <==> Held(s, h);
    SamePlaces(s, r);
    hide FilesMatch, Held, PlacesOk;
  }

  lemma SamePlaces(s: State, r: State)
    requires PlacesOk(s) && r.queue == s.queue && r.table == s.table && r.sessions.Keys == s.sessions.Keys
    requires forall h :: h in s.sessions ==> r.sessions[h].id == s.sessions[h].id
    ensures PlacesOk(r)
  {
  }

  lemma SameSnapshots(a: map<nat, Session>, b: map<nat, Session>, files: set<Path>)
    requires FilesMatch(a, files) && b.Keys == a.Keys && forall h :: h in a ==> b[h].snapshot == a[h].snapshot
    ensures FilesMatch(b, files)
  {
    forall p | p in files
      ensures exists h :: h in b && b[h].snapshot == Some(p)
    {
      var h :| h in a && a[h].snapshot == Some(p);
      assert h in b;
    }
  }

  /** Taking a session out of its place and discarding its snapshot. */
  lemma DiscardFiles(s: State, r: State, h: nat)
    requires FilesOk(s) && h in s.sessions && Held(s, h)
    requires PlacesOk(r) && r.next == s.next
    requires h in r.sessions && r.sessions == s.sessions[h := r.sessions[h]] && r.sessions[h].snapshot == None
    requires r.files == s.files - {s.sessions[h].snapshot.value}
    requires !Held(r, h) && forall g :: g in s.sessions && g != h ==> (Held(r, g) <==> Held(s, g))
    ensures FilesOk(r)
  {
    forall p | p in r.files
      ensures exists g :: g in r.sessions && r.sessions[g].snapshot == Some(p)
    {
      var g :| g in s.sessions && s.sessions[g].snapshot == Some(p);
      assert r.sessions[g] == s.sessions[g];
    }
  }

  lemma TableValues(s: State, id: Id)
    requires PlacesOk(s) && id in s.table
    ensures s.table[id] in s.table.Values && s.table[id] !in (s.table - {id}).Values
    ensures forall h :: h != s.table[id] ==> (h in (s.table - {id}).Values <==> h in s.table.Values)
  {
    var t := s.table - {id};
    forall h | h in s.table.Values && h != s.table[id]
      ensures h in t.Values
    {
      var k :| k in s.table && s.table[k] == h;
      assert k in t && t[k] == h;
    }
  }

  lemma FinishSessionFiles(s: State, id: Id)
    requires FilesOk(s)
    ensures FilesOk(FinishSession(s, id))
  {
    if id in s.table {
      var h, r := s.table[id], FinishSession(s, id);
      TableValues(s, id);
      assert Held(s, h);
      assert h !in s.queue;
      DiscardFiles(s, r, h);
    }
  }

  lemma DequeuePlaces(s: State)
    requires PlacesOk(s) && s.queue != [] && s.sessions[s.queue[0]].id !in s.table
    ensures var r := EnqueueSession(s); PlacesOk(r) && forall g :: Held(r, g) <==> Held(s, g)
  {
    var h := s.queue[0];
    assert s.queue == [h] + s.queue[1..];
    TableAdd(s.table, s.sessions[h].id, h);
  }

  lemma DequeueOnly(s: State)
    requires s.queue != [] && s.queue[0] in s.sessions && s.sessions[s.queue[0]].id !in s.table
    ensures var r := EnqueueSession(s); r.sessions == s.sessions && r.files == s.files && r.next == s.next
  {
  }

  lemma DequeueFiles(s: State)
    requires FilesOk(s) && s.queue != [] && s.sessions[s.queue[0]].id !in s.table
    ensures FilesOk(EnqueueSession(s))
  {
    var r := EnqueueSession(s);
    DequeuePlaces(s);
    DequeueOnly(s);
    hide PlacesOk, Held, EnqueueSession, FilesMatch;
    JoinFiles(r);
  }

  lemma TableAdd(t: map<Id, nat>, id: Id, h: nat)
    requires id !in t
    ensures forall g :: g in t[id := h].Values <==> g in t.Values || g == h
  {
    var r := t[id := h];
    assert id in r && r[id] == h;
    forall g | g in t.Values
      ensures g in r.Values
    {
      var k :| k in t && t[k] == g;
      assert k in r && r[k] == g;
    }
  }

  /** Superseding is finishing the old session and then taking the new one from the queue. */
  lemma SupersedeInTwo(s: State)
    requires PlacesOk(s) && s.queue != [] && s.sessions[s.queue[0]].id in s.table
    ensures var id := s.sessions[s.queue[0]].id;
            var previous := s.table[id];
            var marked := Update(s, previous, s.sessions[previous].(phase := Complete));
            var cleared := FinishSession(marked, id);
            && cleared.queue == s.queue && s.queue[0] in cleared.sessions && cleared.sessions[s.queue[0]].id == id
            && id !in cleared.table && EnqueueSession(s) == EnqueueSession(cleared)
  {
    var id := s.sessions[s.queue[0]].id;
    var previous := s.table[id];
    assert previous in s.table.Values && s.queue[0] != previous;
    var cleared := FinishSession(Update(s, previous, s.sessions[previous].(phase := Complete)), id);
    assert EnqueueSession(s).table == EnqueueSession(cleared).table;
  }

  lemma EnqueueFiles(s: State)
    requires FilesOk(s)
    ensures FilesOk(EnqueueSession(s))
  {
    if s.queue != [] {
      var id := s.sessions[s.queue[0]].id;
      if id in s.table {
        SupersedeInTwo(s);
        var previous := s.table[id];
        var marked := Update(s, previous, s.sessions[previous].(phase := Complete));
        SameFiles(s, marked);
        hide FilesOk, EnqueueSession, FinishSession;
        FinishSessionFiles(marked, id);
        DequeueFiles(FinishSession(marked, id));
      } else {
        DequeueFiles(s);
      }
    }
  }

  ghost function Queued(s: State, id: Id, path: Path): State {
    s.(sessions := s.sessions[s.next := Session(id, Some(path), Pending, 0, false, s.now, [], false)],
       queue := s.queue + [s.next], files := s.files + {path}, next := s.next + 1)
  }

  lemma QueuedPlaces(s: State, id: Id, path: Path)
    requires FilesOk(s) && path !in s.files
    ensures PlacesOk(Queued(s, id, path))
  {
    assert s.next !in s.sessions;
    assert forall h :: h in s.table.Values ==> h in s.sessions;
  }

  lemma QueuedSnapshots(s: State, id: Id, path: Path)
    requires FilesOk(s) && path !in s.files
    ensures SnapshotsOk(Queued(s, id, path))
  {
    var r := Queued(s, id, path);
    assert s.next !in s.sessions;
    assert forall h :: Held(r, h) <==> Held(s, h) || h == s.next;
    hide PlacesOk, Held;
    OneMoreFile(s.sessions, s.files, s.next, r.sessions[s.next], path);
    hide FilesMatch;
  }

  lemma OneMoreFile(sessions: map<nat, Session>, files: set<Path>, h: nat, x: Session, path: Path)
    requires FilesMatch(sessions, files) && h !in sessions && x.snapshot == Some(path) && path !in files
    ensures FilesMatch(sessions[h := x], files + {path})
  {
    var more := sessions[h := x];
    forall p | p in files + {path}
      ensures exists g :: g in more && more[g].snapshot == Some(p)
    {
      if p == path {
        assert more[h].snapshot == Some(p);
      } else {
        var g :| g in sessions && sessions[g].snapshot == Some(p);
        assert more[g] == sessions[g];
      }
    }
  }

  lemma JoinFiles(s: State)
    requires PlacesOk(s) && SnapshotsOk(s)
    ensures FilesOk(s)
  {
  }

  lemma ProcessFiles(cfg: Config, s: State, id: Id)
    requires FilesOk(s)
    ensures FilesOk(ProcessSession(cfg, s, id))
  {
    hide SnapshotsOk;
    if id in s.table {
      var h := s.table[id];
      var x := s.sessions[h];
      match x.phase
      case Pending => SameFiles(s, Launch(cfg, s, h));
      case Uploading =>
      case Complete => FinishSessionFiles(s, id);
      case Errored => RetryFiles(cfg, s, id);
    }
  }

  lemma UpdateFiles(cfg: Config, s: State, h: nat, x: Session)
    requires FilesOk(s) && h in s.sessions && x.snapshot == s.sessions[h].snapshot && x.id == s.sessions[h].id
    ensures FilesOk(Update(s, h, x)) && FilesOk(Launch(cfg, Update(s, h, x), h))
  {
    hide SnapshotsOk, PlacesOk;
    SameFiles(s, Update(s, h, x));
    SameFiles(s, Launch(cfg, Update(s, h, x), h));
  }

  lemma RetryFiles(cfg: Config, s: State, id: Id)
    requires FilesOk(s) && id in s.table && s.table[id] in s.sessions && s.sessions[s.table[id]].phase.Errored?
    ensures FilesOk(ProcessSession(cfg, s, id))
  {
    hide FilesOk, Launch, FinishSession;
    var h := s.table[id];
    var x := s.sessions[h];
    UpdateFiles(cfg, s, h, Retried(x, s.now));
    UpdateFiles(cfg, s, h, x.(retries := x.retries + 1));
    FinishSessionFiles(Update(s, h, x.(retries := x.retries + 1)), id);
  }

  lemma StepFiles(cfg: Config, s: State, e: Event)
    requires FilesOk(s)
    ensures FilesOk(Step(cfg, s, e))
  {
    hide FilesOk;
    match e
    case QueueUpload(id, path) =>
      if path !in s.files {
        QueuedPlaces(s, id, path);
        QueuedSnapshots(s, id, path);
        JoinFiles(Queued(s, id, path));
      }
    case Enqueue => EnqueueFiles(s);
    case Cancel(id) => FinishSessionFiles(s, id);
    case Process(id) => ProcessFiles(cfg, s, id);
    case _ => SameFiles(s, Step(cfg, s, e));
  }

  // ---------------------------------------------------------------------------
  // Retries
  // ---------------------------------------------------------------------------

  /** The history of a session: retries counted, spaced by the backoff, errors remembered. */
  ghost predicate HistoryOk(x: Session, now: int) {
    && |x.retried| == x.retries
    && (forall k :: 0 <= k < |x.retried| ==> x.retried[k].at <= now)
    && (forall k :: 0 < k < |x.retried| && x.retried[k - 1].transient ==>
          x.retried[k].at - x.retried[k - 1].at >= Backoff(k))
    && (|x.retried| > 0 && x.retried[|x.retried| - 1].transient ==>
          x.nextRetry >= x.retried[|x.retried| - 1].at + Backoff(|x.retried|))
    && (x.phase.Errored? && !x.transient ==> x.failedForGood)
    && (!x.failedForGood ==> forall k :: 0 <= k < |x.retried| ==> x.retried[k].transient)
  }

  lemma RetriedHistory(x: Session, now: int)
    requires HistoryOk(x, now) && now >= x.nextRetry && x.phase.Errored?
    ensures HistoryOk(Retried(x, now), now)
  {
    var r := Retried(x, now);
    var n := |x.retried|;
    assert forall k :: 0 <= k < n ==> r.retried[k] == x.retried[k];
    assert r.retried[n] == Retry(now, x.transient);
  }

  /** A tabled session's history holds; one out of the table may have been counted once more as it left. */
  ghost predicate HistoriesOk(s: State) {
    forall h :: h in s.sessions && Held(s, h) ==> HistoryOk(s.sessions[h], s.now)
  }

  lemma HistoryAges(x: Session, now: int, later: int)
    requires HistoryOk(x, now) && now <= later
    ensures HistoryOk(x, later)
  {
  }

  /** Steps that change at most one session, whose history stays in order, and hold nothing new. */
  lemma SameHistories(s: State, r: State)
    requires HistoriesOk(s) && s.now <= r.now
    requires forall h :: h in r.sessions && Held(r, h) ==>
               (h in s.sessions && Held(s, h) && r.sessions[h] == s.sessions[h]) || HistoryOk(r.sessions[h], r.now)
    ensures HistoriesOk(r)
  {
    forall h | h in r.sessions && Held(r, h)
      ensures HistoryOk(r.sessions[h], r.now)
    {
      if h in s.sessions && Held(s, h) && r.sessions[h] == s.sessions[h] {
        HistoryAges(s.sessions[h], s.now, r.now);
      }
    }
  }

  lemma RetryHistories(cfg: Config, s: State, h: nat)
    requires HistoriesOk(s) && h in s.sessions && Held(s, h)
    requires s.sessions[h].phase.Errored? && s.now >= s.sessions[h].nextRetry
    ensures HistoriesOk(Launch(cfg, Update(s, h, Retried(s.sessions[h], s.now)), h))
  {
    RetriedHistory(s.sessions[h], s.now);
    hide HistoryOk;
    SameHistories(s, Launch(cfg, Update(s, h, Retried(s.sessions[h], s.now)), h));
  }

  /** The count of a session on its way out no longer matters. */
  lemma LeaveHistories(s: State, id: Id, x: Session)
    requires PlacesOk(s) && HistoriesOk(s) && id in s.table && x.id == id
    ensures HistoriesOk(FinishSession(Update(s, s.table[id], x), id))
  {
    var h := s.table[id];
    var r := FinishSession(Update(s, h, x), id);
    TableValues(s, id);
    assert h !in s.queue;
    hide HistoryOk;
    SameHistories(s, r);
  }

  lemma FinishHistories(s: State, id: Id)
    requires PlacesOk(s) && HistoriesOk(s)
    ensures HistoriesOk(FinishSession(s, id))
  {
    if id in s.table {
      var h := s.table[id];
      assert Update(s, h, s.sessions[h]) == s;
      LeaveHistories(s, id, s.sessions[h]);
    }
  }

  lemma ProcessHistories(cfg: Config, s: State, id: Id)
    requires PlacesOk(s) && HistoriesOk(s)
    ensures HistoriesOk(ProcessSession(cfg, s, id))
  {
    hide HistoriesOk, FinishSession;
    if id in s.table {
      var h := s.table[id];
      var x := s.sessions[h];
      assert h in s.table.Values;
      match x.phase
      case Pending => SameHistories(s, Launch(cfg, s, h));
      case Uploading =>
      case Complete => FinishHistories(s, id);
      case Errored =>
        if s.now >= x.nextRetry {
          if x.transient || x.retries + 1 <= cfg.RetryCap() {
            RetryHistories(cfg, s, h);
          } else {
            LeaveHistories(s, id, x.(retries := x.retries + 1));
          }
        }
    }
  }

  /** Whoever is held after an enqueue was held before it, unchanged. */
  lemma EnqueueHeld(s: State)
    requires PlacesOk(s)
    ensures var r := EnqueueSession(s);
            forall g :: g in r.sessions && Held(r, g) ==> g in s.sessions && Held(s, g) && r.sessions[g] == s.sessions[g]
  {
    if s.queue != [] {
      var h, r := s.queue[0], EnqueueSession(s);
      var id := s.sessions[h].id;
      assert s.queue == [h] + s.queue[1..];
      if id in s.table {
        TableValues(s, id);
        assert s.table[id] !in s.queue;
      }
      assert forall g :: g in r.table.Values ==> g == h || exists k :: k in s.table && k != id && s.table[k] == g;
    }
  }

  lemma EnqueueHistories(s: State)
    requires PlacesOk(s) && HistoriesOk(s)
    ensures HistoriesOk(EnqueueSession(s))
  {
    EnqueueHeld(s);
    hide HistoryOk, PlacesOk, EnqueueSession;
    assert EnqueueSession(s).now == s.now by { EnqueueNow(s); }
    SameHistories(s, EnqueueSession(s));
  }

  lemma EnqueueNow(s: State)
    ensures EnqueueSession(s).now == s.now
  {
  }

  lemma StepHistories(cfg: Config, s: State, e: Event)
    requires PlacesOk(s) && HistoriesOk(s)
    ensures HistoriesOk(Step(cfg, s, e))
  {
    match e
    case Enqueue => EnqueueHistories(s);
    case Cancel(id) => FinishHistories(s, id);
    case Process(id) => ProcessHistories(cfg, s, id);
    case QueueUpload(id, path) => QueueHistories(cfg, s, id, path);
    case Finish(w, result) => ResultHistories(s, w, result);
    case _ =>
      hide FinishSession, EnqueueSession, ProcessSession, FinishWorker;
      SameHistories(s, Step(cfg, s, e));
  }

  lemma QueueHistories(cfg: Config, s: State, id: Id, path: Path)
    requires HistoriesOk(s)
    ensures HistoriesOk(Step(cfg, s, QueueUpload(id, path)))
  {
    SameHistories(s, Step(cfg, s, QueueUpload(id, path)));
  }

  lemma ResultHistories(s: State, w: nat, result: Result)
    requires HistoriesOk(s)
    ensures HistoriesOk(FinishWorker(s, w, result))
  {
    SameHistories(s, FinishWorker(s, w, result));
  }

  // ---------------------------------------------------------------------------
  // Every run
  // ---------------------------------------------------------------------------

  ghost predicate Inv(cfg: Config, s: State) {
    SlotsOk(cfg, s) && FilesOk(s) && HistoriesOk(s)
  }

  /** For every interleaving of events: slots, snapshot files and retry histories are in order. */
  lemma {:induction false} RunInv(cfg: Config, now: int, events: seq<Event>)
    ensures Inv(cfg, Run(cfg, Start0(now), events))
    decreases |events|
  {
    if events != [] {
      var front := events[..|events| - 1];
      RunInv(cfg, now, front);
      StepInv(cfg, Run(cfg, Start0(now), front), events[|events| - 1]);
    }
  }

  /** A turn in the loop removes at most that session, and only when it is complete or given up. */
  lemma ProcessTable(cfg: Config, s: State, id: Id)
    ensures var r := ProcessSession(cfg, s, id);
            r.table == s.table ||
            (&& id in s.table && s.table[id] in s.sessions && r.table == s.table - {id}
             && var x := s.sessions[s.table[id]];
                x.phase.Complete? || (x.phase.Errored? && !x.transient && x.retries + 1 > cfg.RetryCap()))
  {
  }

  lemma EnqueueTable(s: State)
    ensures var r := EnqueueSession(s);
            r.table == s.table ||
            (s.queue != [] && s.queue[0] in s.sessions && r.table == s.table[s.sessions[s.queue[0]].id := s.queue[0]])
  {
  }

  /** The only ways out of the table. */
  lemma LeavesTable(cfg: Config, s: State, e: Event, id: Id)
    requires Inv(cfg, s) && id in s.table && s.table[id] in s.sessions
    ensures var r, x := Step(cfg, s, e), s.sessions[s.table[id]];
            (id in r.table && r.table[id] == s.table[id]) ||
            (e == Cancel(id)) ||
            (e == Enqueue && s.queue != [] && s.queue[0] in s.sessions && s.sessions[s.queue[0]].id == id &&
             id in r.table && r.table[id] == s.queue[0]) ||
            (e == Process(id) && x.phase.Complete?) ||
            (e == Process(id) && x.phase.Errored? && !x.transient && x.failedForGood && x.retries + 1 > cfg.RetryCap())
  {
    hide Inv, ProcessSession, EnqueueSession, FinishWorker;
    GivenUpHistory(cfg, s, id);
    match e
    case Enqueue => EnqueueTable(s);
    case Process(c) => ProcessTable(cfg, s, c);
    case Finish(w, result) => ResultTable(s, w, result);
    case _ =>
  }

  lemma GivenUpHistory(cfg: Config, s: State, id: Id)
    requires Inv(cfg, s) && id in s.table && s.table[id] in s.sessions
    ensures var x := s.sessions[s.table[id]]; x.phase.Errored? && !x.transient ==> x.failedForGood
  {
    assert s.table[id] in s.table.Values && HistoryOk(s.sessions[s.table[id]], s.now);
  }

  lemma ResultTable(s: State, w: nat, result: Result)
    ensures FinishWorker(s, w, result).table == s.table
  {
  }

  ghost predicate LeftAlone(cfg: Config, s: State, e: Event, id: Id) {
    && e != Cancel(id)
    && !(e.Enqueue? && s.queue != [] && s.queue[0] in s.sessions && s.sessions[s.queue[0]].id == id)
    && !(e == Process(id) && id in s.table && s.table[id] in s.sessions && s.sessions[s.table[id]].phase.Complete?)
  }

  /** A permanent failure is never forgotten. */
  lemma StepRemembers(cfg: Config, s: State, e: Event, h: nat)
    requires h in s.sessions && h < s.next
    ensures var r := Step(cfg, s, e);
            h in r.sessions && h < r.next && (s.sessions[h].failedForGood ==> r.sessions[h].failedForGood)
  {
    hide ProcessSession, EnqueueSession;
    match e
    case Process(id) => ProcessRemembers(cfg, s, id, h);
    case Enqueue => EnqueueRemembers(s, h);
    case _ =>
  }

  lemma ProcessRemembers(cfg: Config, s: State, id: Id, h: nat)
    requires h in s.sessions && h < s.next
    ensures var r := ProcessSession(cfg, s, id);
            h in r.sessions && h < r.next && (s.sessions[h].failedForGood ==> r.sessions[h].failedForGood)
  {
  }

  lemma EnqueueRemembers(s: State, h: nat)
    requires h in s.sessions && h < s.next
    ensures var r := EnqueueSession(s);
            h in r.sessions && h < r.next && (s.sessions[h].failedForGood ==> r.sessions[h].failedForGood)
  {
  }

  /**
   * A tabled session that is neither cancelled, superseded nor completed, and whose failures have all
   * been transient, is still tabled after any number of further events.
   */
  lemma {:induction false} NeverAbandoned(cfg: Config, s: State, events: seq<Event>, id: Id)
    requires Inv(cfg, s) && id in s.table
    requires forall k :: 0 <= k < |events| ==> LeftAlone(cfg, Run(cfg, s, events[..k]), events[k], id)
    requires var r := Run(cfg, s, events); s.table[id] in r.sessions ==> !r.sessions[s.table[id]].failedForGood
    ensures var r := Run(cfg, s, events); Inv(cfg, r) && id in r.table && r.table[id] == s.table[id]
    decreases |events|
  {
    hide Step, Inv;
    TabledSession(cfg, s, id);
    if events != [] {
      var n := |events| - 1;
      var front, e, h := events[..n], events[n], s.table[id];
      var m := Run(cfg, s, front);
      forall k | 0 <= k < n
        ensures LeftAlone(cfg, Run(cfg, s, front[..k]), front[k], id)
      {
        assert front[..k] == events[..k];
      }
      KeptHandle(cfg, s, front, h);
      StepRemembers(cfg, m, e, h);
      NeverAbandoned(cfg, s, front, id);
      LeavesTable(cfg, m, e, id);
      StepInv(cfg, m, e);
    }
  }

  lemma TabledSession(cfg: Config, s: State, id: Id)
    requires Inv(cfg, s) && id in s.table
    ensures s.table[id] in s.sessions && s.table[id] < s.next
  {
  }

  lemma StepInv(cfg: Config, s: State, e: Event)
    requires Inv(cfg, s)
    ensures Inv(cfg, Step(cfg, s, e))
  {
    StepSlots(cfg, s, e);
    StepFiles(cfg, s, e);
    StepHistories(cfg, s, e);
  }

  lemma {:induction false} KeptHandle(cfg: Config, s: State, events: seq<Event>, h: nat)
    requires h in s.sessions && h < s.next
    ensures var r := Run(cfg, s, events); h in r.sessions && h < r.next
    decreases |events|
  {
    hide Step;
    if events != [] {
      KeptHandle(cfg, s, events[..|events| - 1], h);
      StepRemembers(cfg, Run(cfg, s, events[..|events| - 1]), events[|events| - 1], h);
    }
  }

  /** Retry k + 1 of a tabled session comes at least min(2^k, 60) seconds after retry k. */
  lemma RetriesSpaced(cfg: Config, s: State, id: Id, k: nat)
    requires Inv(cfg, s) && id in s.table && 0 < k < |s.sessions[s.table[id]].retried|
    ensures var x := s.sessions[s.table[id]];
            x.retried[k - 1].transient || !x.failedForGood ==>
            x.retried[k].at - x.retried[k - 1].at >= if Pow2(k) >= 60 then 60 * SECOND else Pow2(k) * SECOND
  {
    hide SlotsOk, SnapshotsOk, Pow2;
    assert s.table[id] in s.table.Values;
    assert HistoryOk(s.sessions[s.table[id]], s.now);
  }
}
