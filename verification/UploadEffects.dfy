/** What each event does to the upload manager, and how a session gets through it. */
module UploadEffects {
  import opened Wrappers
  import opened UploadManager

  /** The session tabled under `id`. */
  ghost predicate Tabled(s: State, id: Id, h: nat, x: Session) {
    id in s.table && s.table[id] == h && h in s.sessions && s.sessions[h] == x && x.id == id
  }

  /** A slot is free: fewer uploads than the configured number, or than five if none is configured. */
  predicate SlotFree(cfg: Config, s: State) {
    s.inFlight < if cfg.maxInFlight <= 0 then 5 else cfg.maxInFlight
  }

  /** `r` is `s` with one more goroutine, just launched for session `h`, if a slot was free. */
  ghost predicate LaunchedFor(cfg: Config, s: State, r: State, h: nat) {
    if SlotFree(cfg, s)
    then
      && s.next !in s.workers && r.workers == s.workers[s.next := Worker(h, Launched)] && r.inFlight == s.inFlight + 1
      && r == s.(workers := r.workers, inFlight := r.inFlight, next := r.next) && r.next > s.next
    else r == s
  }

  /** Session `h` is out of the table and its snapshot out of the directory; nothing else is. */
  ghost predicate TakenOut(s: State, r: State, id: Id, h: nat) {
    && h in s.sessions && id !in r.table && r.table == s.table - {id}
    && r.sessions == s.sessions[h := s.sessions[h].(snapshot := None)]
    && r.files == (if s.sessions[h].snapshot.Some? then s.files - {s.sessions[h].snapshot.value} else s.files)
    && r == s.(table := r.table, sessions := r.sessions, files := r.files)
  }

  /** A pending session is launched if there is a slot for it. */
  lemma ProcessPending(cfg: Config, s: State, id: Id, h: nat, x: Session)
    requires SlotsOk(cfg, s) && Tabled(s, id, h, x) && x.phase.Pending?
    ensures LaunchedFor(cfg, s, Step(cfg, s, Process(id)), h)
  {
  }

  lemma ProcessUploading(cfg: Config, s: State, id: Id, h: nat, x: Session)
    requires Tabled(s, id, h, x) && x.phase.Uploading?
    ensures Step(cfg, s, Process(id)) == s
  {
  }

  /** A completed session is taken out. */
  lemma ProcessComplete(cfg: Config, s: State, id: Id, h: nat, x: Session)
    requires Tabled(s, id, h, x) && x.phase.Complete?
    ensures TakenOut(s, Step(cfg, s, Process(id)), id, h)
  {
  }

  /** The seconds to wait before the next try after `retries` transient ones. */
  function WaitSeconds(retries: nat): nat {
    if retries >= 6 then 60 else Pow2(retries)
  }

  lemma {:induction false} BackoffSeconds(k: nat)
    requires k > 0
    ensures Backoff(k) == WaitSeconds(k) * SECOND
  {
    if k >= 6 {
      Pow2Monotone(6, k);
      assert Pow2(6) == 64;
    } else {
      Pow2Monotone(k, 5);
      assert Pow2(5) == 32;
    }
  }

  lemma LaunchEffect(cfg: Config, s: State, h: nat)
    requires SlotsOk(cfg, s)
    ensures LaunchedFor(cfg, s, Launch(cfg, s, h), h)
  {
  }

  lemma FinishSessionEffect(s: State, id: Id, h: nat)
    requires id in s.table && s.table[id] == h && h in s.sessions
    ensures TakenOut(s, FinishSession(s, id), id, h)
  {
  }

  /** An errored session waits for its time. */
  lemma ProcessWaits(cfg: Config, s: State, id: Id, h: nat, x: Session)
    requires Tabled(s, id, h, x) && x.phase.Errored? && s.now < x.nextRetry
    ensures Step(cfg, s, Process(id)) == s
  {
  }

  /** The session made pending again, with one retry more and, after a transient error, a new time to wait for. */
  function TriedAgain(x: Session, now: int): Session {
    x.(phase := Pending, retries := x.retries + 1, retried := x.retried + [Retry(now, x.transient)],
       nextRetry := if x.transient then now + WaitSeconds(x.retries + 1) * SECOND else x.nextRetry)
  }

  /** Then, after a transient error or while the retries allow it, it is tried again. */
  lemma ProcessRetries(cfg: Config, s: State, id: Id, h: nat, x: Session)
    requires SlotsOk(cfg, s) && Tabled(s, id, h, x) && x.phase.Errored? && s.now >= x.nextRetry
    requires x.transient || x.retries + 1 <= if cfg.maxRetries <= 0 then 5 else cfg.maxRetries
    ensures LaunchedFor(cfg, s.(sessions := s.sessions[h := TriedAgain(x, s.now)]), Step(cfg, s, Process(id)), h)
  {
    BackoffSeconds(x.retries + 1);
    var m := s.(sessions := s.sessions[h := TriedAgain(x, s.now)]);
    LaunchEffect(cfg, m, h);
    hide LaunchedFor, Launch, WaitSeconds, Backoff;
    assert Step(cfg, s, Process(id)) == Launch(cfg, m, h);
  }

  /** After a permanent error and too many retries it is given up. */
  lemma ProcessGivesUp(cfg: Config, s: State, id: Id, h: nat, x: Session)
    requires Tabled(s, id, h, x) && x.phase.Errored? && s.now >= x.nextRetry && !x.transient
    requires x.retries + 1 > if cfg.maxRetries <= 0 then 5 else cfg.maxRetries
    ensures TakenOut(s.(sessions := s.sessions[h := x.(retries := x.retries + 1)]), Step(cfg, s, Process(id)), id, h)
  {
    FinishSessionEffect(s.(sessions := s.sessions[h := x.(retries := x.retries + 1)]), id, h);
    hide TakenOut, FinishSession;
  }

  /** A cancelled session is taken out, whatever its phase; its goroutine, if it has one, runs on. */
  lemma CancelEffect(cfg: Config, s: State, id: Id, h: nat, x: Session)
    requires Tabled(s, id, h, x)
    ensures TakenOut(s, Step(cfg, s, Cancel(id)), id, h)
  {
  }

  /** A queued upload is pending, with its snapshot, at the end of the queue. */
  lemma QueueEffect(cfg: Config, s: State, id: Id, path: Path)
    requires path !in s.files
    ensures var r := Step(cfg, s, QueueUpload(id, path));
            && |r.queue| == |s.queue| + 1 && r.queue[..|s.queue|] == s.queue && r.files == s.files + {path}
            && var h := r.queue[|s.queue|];
               && h in r.sessions && r.sessions == s.sessions[h := r.sessions[h]]
               && r.sessions[h] == Session(id, Some(path), Pending, 0, false, s.now, [], false)
               && r == s.(sessions := r.sessions, queue := r.queue, files := r.files, next := r.next)
  {
  }

  /** The head of the queue takes its place in the table. */
  lemma EnqueueEffect(cfg: Config, s: State)
    requires s.queue != [] && s.queue[0] in s.sessions && s.sessions[s.queue[0]].id !in s.table
    ensures var h := s.queue[0];
            Step(cfg, s, Enqueue) == s.(queue := s.queue[1..], table := s.table[s.sessions[h].id := h])
  {
  }

  /**
   * A session that had the place is marked complete and loses its snapshot, so that only the newest
   * content is uploaded.
   */
  lemma SupersedeEffect(cfg: Config, s: State, h: nat, old_: nat)
    requires FilesOk(s) && s.queue != [] && s.queue[0] == h && s.sessions[h].id in s.table && s.table[s.sessions[h].id] == old_
    ensures h in s.sessions && old_ in s.sessions && old_ != h && s.sessions[old_].snapshot.Some?
    ensures Step(cfg, s, Enqueue) ==
            s.(queue := s.queue[1..], table := s.table[s.sessions[h].id := h], files := s.files - {s.sessions[old_].snapshot.value},
               sessions := s.sessions[old_ := s.sessions[old_].(phase := Complete, snapshot := None)])
  {
    assert old_ in s.table.Values && Held(s, old_);
    hide FilesOk, Held;
  }

  /** Time passes and nothing else happens. */
  lemma ClockEffect(cfg: Config, s: State, elapsed: nat)
    ensures Step(cfg, s, Clock(elapsed)) == s.(now := s.now + elapsed)
  {
  }

  /** A launched goroutine that starts marks its session as uploading. */
  lemma StartEffect(cfg: Config, s: State, w: nat, h: nat)
    requires w in s.workers && s.workers[w] == Worker(h, Launched) && h in s.sessions
    ensures Step(cfg, s, Start(w)) ==
            s.(workers := s.workers[w := Worker(h, Running)], sessions := s.sessions[h := s.sessions[h].(phase := Uploading)])
  {
  }

  /** A finished upload leaves its session complete, or errored with the kind of its error. */
  lemma FinishEffect(cfg: Config, s: State, w: nat, h: nat, result: Result)
    requires w in s.workers && s.workers[w] == Worker(h, Running) && h in s.sessions
    ensures var r := Step(cfg, s, Finish(w, result));
            && h in r.sessions && r.workers == s.workers[w := Worker(h, Done)]
            && r == s.(workers := r.workers, sessions := s.sessions[h := r.sessions[h]])
            && (result.Success? ==> r.sessions[h] == s.sessions[h].(phase := Complete))
            && (result.NetworkError? ==> r.sessions[h] == s.sessions[h].(phase := Errored, transient := true))
            && (result.PermanentError? ==>
                  r.sessions[h] == s.sessions[h].(phase := Errored, transient := false, failedForGood := true))
  {
  }

  /** A goroutine gives its slot back when it is done, and only then. */
  lemma ReleaseEffect(cfg: Config, s: State, w: nat)
    requires SlotsOk(cfg, s)
    ensures Step(cfg, s, Release(w)) ==
            if w in s.workers && s.workers[w].stage.Done?
            then s.(workers := s.workers - {w}, inFlight := s.inFlight - 1) else s
  {
    if w in s.workers {
      assert |s.workers| > 0;
    }
  }

  /** The events of an upload that succeeds, in goroutine `w`. */
  function Lifecycle(id: Id, path: Path, w: nat): seq<Event> {
    [QueueUpload(id, path), Enqueue, Process(id), Start(w), Finish(w, Success), Release(w), Process(id)]
  }

  /**
   * From the queue to the end: an upload that finds a slot and succeeds goes through the table and out
   * of it, with its snapshot, and gives its slot back.
   */
  lemma UploadCompletes(cfg: Config, s: State, id: Id, path: Path, r: State)
    requires Inv(cfg, s) && s.queue == [] && id !in s.table && path !in s.files && SlotFree(cfg, s)
    requires r == Run(cfg, s, Lifecycle(id, path, s.next + 1))
    ensures id !in r.table && r.table == s.table && r.files == s.files && r.workers == s.workers && r.inFlight == s.inFlight
    ensures s.next in r.sessions && r.sessions[s.next].id == id && r.sessions[s.next].phase.Complete?
  {
    hide Step, Run, Inv, SlotsOk, FilesOk;
    var es := Lifecycle(id, path, s.next + 1);
    Seven(cfg, s, es);
    Admitted(cfg, s, id, path);
    var s2 := Step(cfg, Step(cfg, s, es[0]), es[1]);
    InFlightDone(cfg, s2, id, s.next, s2.sessions[s.next]);
    var s6 := Step(cfg, Step(cfg, Step(cfg, Step(cfg, s2, es[2]), es[3]), es[4]), es[5]);
    ProcessComplete(cfg, s6, id, s.next, s6.sessions[s.next]);
    hide LaunchedFor, Tabled;
    assert s6.table - {id} == s.table && s6.files - {path} == s.files;
  }

  /** A pending session's upload, from its launch to the release of its slot. */
  lemma InFlightDone(cfg: Config, s: State, id: Id, h: nat, x: Session)
    requires SlotsOk(cfg, s) && Tabled(s, id, h, x) && x.phase.Pending? && SlotFree(cfg, s)
    ensures var w := s.next;
            var r := Step(cfg, Step(cfg, Step(cfg, Step(cfg, s, Process(id)), Start(w)), Finish(w, Success)), Release(w));
            r == s.(sessions := s.sessions[h := x.(phase := Complete)], next := r.next)
  {
    hide Step, SlotsOk;
    var w := s.next;
    var s1 := Step(cfg, s, Process(id));
    var s2 := Step(cfg, s1, Start(w));
    var s3 := Step(cfg, s2, Finish(w, Success));
    ProcessPending(cfg, s, id, h, x);
    StartEffect(cfg, s1, w, h);
    FinishEffect(cfg, s2, w, h, Success);
    StepSlots(cfg, s, Process(id));
    StepSlots(cfg, s1, Start(w));
    StepSlots(cfg, s2, Finish(w, Success));
    ReleaseEffect(cfg, s3, w);
    assert s3.workers - {w} == s.workers;
  }

  /** Queued and taken from the queue. */
  lemma Admitted(cfg: Config, s: State, id: Id, path: Path)
    requires Inv(cfg, s) && s.queue == [] && id !in s.table && path !in s.files
    ensures var r := Step(cfg, Step(cfg, s, QueueUpload(id, path)), Enqueue);
            && SlotsOk(cfg, r) && r.next == s.next + 1 && r.workers == s.workers && r.inFlight == s.inFlight
            && r.table == s.table[id := s.next] && r.files == s.files + {path} && s.next in r.sessions
            && r.sessions[s.next] == Session(id, Some(path), Pending, 0, false, s.now, [], false)
  {
  }

  lemma Seven(cfg: Config, s: State, es: seq<Event>)
    requires |es| == 7
    ensures Run(cfg, s, es) ==
            Step(cfg, Step(cfg, Step(cfg, Step(cfg, Step(cfg, Step(cfg, Step(cfg, s, es[0]), es[1]), es[2]), es[3]), es[4]), es[5]), es[6])
  {
    hide Step;
    assert es[..6][..5] == es[..5] && es[..5][..4] == es[..4] && es[..4][..3] == es[..3];
    assert es[..3][..2] == es[..2] && es[..2][..1] == es[..1] && es[..1][..0] == [];
    assert Run(cfg, s, es[..1]) == Step(cfg, s, es[0]);
    assert Run(cfg, s, es[..2]) == Step(cfg, Run(cfg, s, es[..1]), es[1]);
    assert Run(cfg, s, es[..3]) == Step(cfg, Run(cfg, s, es[..2]), es[2]);
    assert Run(cfg, s, es[..4]) == Step(cfg, Run(cfg, s, es[..3]), es[3]);
    assert Run(cfg, s, es[..5]) == Step(cfg, Run(cfg, s, es[..4]), es[4]);
    assert Run(cfg, s, es[..6]) == Step(cfg, Run(cfg, s, es[..5]), es[5]);
  }
}
