/** De-duplication of one uplink frame across server instances (internal/uplink/collect.go).

    The state machine covers one pair of Redis keys: the set of received copies and the lock. A
    process is one call of collectAndCallOnce; its Redis commands are separate steps that interleave
    with those of other processes and with the passing of time (milliseconds). SMEMBERS and DEL are
    two steps, as the source sends them in a plain pipeline.
 */
module Deduplication {
  import opened Options

  datatype Phase =
    | HasPut
    | Leader(lockAt: int)
    | HasRead(lockAt: int, batch: set<int>)
    | Done(lockAt: int, batch: set<int>)
    | Follower

  datatype Process = Process(frame: int, putAt: int, phase: Phase)

  /** intact is history: the processes whose put has not been followed by a DEL. */
  datatype State = State(now: int, members: set<int>, setExpiry: int, lockExpiry: int,
                         procs: map<int, Process>, intact: set<int>)

  /** delay is the de-duplication delay. A process sends its lock command within maxPutToLock of its
      put, and a leader has deleted the set within maxCollect of acquiring the lock. */
  datatype Config = Config(delay: nat, maxPutToLock: nat, maxCollect: nat)

  datatype Event = Tick(d: nat) | Put(p: int, frame: int) | Lock(p: int) | Read(p: int) | Del(p: int)

  function Ttl(c: Config): nat {
    if 2 * c.delay < 200 then 200 else 2 * c.delay
  }

  const INITIAL: State := State(0, {}, 0, 0, map[], {})

  /** An expired key reads as absent. */
  function LiveMembers(s: State): set<int> {
    if s.now < s.setExpiry then s.members else {}
  }

  function SetPhase(s: State, p: int, phase: Phase): State
    requires p in s.procs
  {
    s.(procs := s.procs[p := s.procs[p].(phase := phase)])
  }

  /** One step, None when it is not possible in the state. */
  function Step(c: Config, s: State, e: Event): Option<State> {
    match e
    case Tick(d) =>
      Some(s.(now := s.now + d))
    case Put(p, frame) =>
      if p in s.procs then None
      else Some(s.(members := LiveMembers(s) + {frame}, setExpiry := s.now + Ttl(c),
                   procs := s.procs[p := Process(frame, s.now, HasPut)], intact := s.intact + {p}))
    case Lock(p) =>
      if p !in s.procs || s.procs[p].phase != HasPut then None
      else if s.now < s.lockExpiry then Some(SetPhase(s, p, Follower))
      else Some(SetPhase(s, p, Leader(s.now)).(lockExpiry := s.now + Ttl(c)))
    case Read(p) =>
      if p !in s.procs || !s.procs[p].phase.Leader? || s.now < s.procs[p].phase.lockAt + c.delay then None
      else Some(SetPhase(s, p, HasRead(s.procs[p].phase.lockAt, LiveMembers(s))))
    case Del(p) =>
      if p !in s.procs || !s.procs[p].phase.HasRead? then None
      else Some(SetPhase(s, p, Done(s.procs[p].phase.lockAt, s.procs[p].phase.batch)).(members := {}, intact := {}))
  }

  predicate Collecting(ph: Phase) {
    ph.Leader? || ph.HasRead?
  }

  predicate HasBatch(ph: Phase) {
    ph.HasRead? || ph.Done?
  }

  predicate HasLocked(ph: Phase) {
    Collecting(ph) || ph.Done?
  }

  /** The latest time up to which a process may rest in its phase, when it has such a limit. */
  predicate MayRest(c: Config, proc: Process, until: int) {
    match proc.phase
    case HasPut => until <= proc.putAt + c.maxPutToLock
    case Leader(lockAt) => until <= lockAt + c.maxCollect
    case HasRead(lockAt, _) => until <= lockAt + c.maxCollect
    case _ => true
  }

  /** A step that keeps to the latency limits: time passes only as long as no process overruns. */
  function TimelyStep(c: Config, s: State, e: Event): Option<State> {
    if e.Tick? && exists p :: p in s.procs && !MayRest(c, s.procs[p], s.now + e.d) then None
    else Step(c, s, e)
  }

  function Run(c: Config, timely: bool, s: State, es: seq<Event>): Option<State>
    decreases |es|
  {
    if es == [] then Some(s)
    else
      var next := if timely then TimelyStep(c, s, es[0]) else Step(c, s, es[0]);
      if next.None? then None else Run(c, timely, next.value, es[1..])
  }

  // Lock acquisitions, in every run

  ghost predicate LocksApart(c: Config, s: State) {
    && (forall p :: p in s.procs && HasLocked(s.procs[p].phase) ==>
                      s.procs[p].phase.lockAt <= s.now && s.procs[p].phase.lockAt + Ttl(c) <= s.lockExpiry)
    && (forall p, q | p in s.procs && q in s.procs && p != q ::
          HasLocked(s.procs[p].phase) && HasLocked(s.procs[q].phase) ==>
            || s.procs[p].phase.lockAt + Ttl(c) <= s.procs[q].phase.lockAt
            || s.procs[q].phase.lockAt + Ttl(c) <= s.procs[p].phase.lockAt)
  }

  lemma LocksApartStep(c: Config, s: State, e: Event)
    requires LocksApart(c, s) && Step(c, s, e).Some?
    ensures LocksApart(c, Step(c, s, e).value)
  {
  }

  /** In every run, whatever the latencies, two processes that acquired the lock did so at least
      the lock's time to live apart. */
  lemma {:induction false} LocksAlwaysApart(c: Config, timely: bool, s: State, es: seq<Event>)
    requires LocksApart(c, s) && Run(c, timely, s, es).Some?
    ensures LocksApart(c, Run(c, timely, s, es).value)
    decreases |es|
  {
    if es != [] {
      LocksApartStep(c, s, es[0]);
      LocksAlwaysApart(c, timely, Step(c, s, es[0]).value, es[1..]);
    }
  }

  // What a read returns, in every run

  /** A put is still readable until it expires or a DEL follows it. */
  ghost predicate PutsReadable(c: Config, s: State) {
    && (forall p :: p in s.procs ==> s.procs[p].putAt <= s.now)
    && forall p :: p in s.intact ==>
                     && p in s.procs
                     && (s.now < s.procs[p].putAt + Ttl(c) ==>
                           s.procs[p].frame in s.members && s.procs[p].putAt + Ttl(c) <= s.setExpiry)
  }

  lemma PutsReadableStep(c: Config, s: State, e: Event)
    requires PutsReadable(c, s) && Step(c, s, e).Some?
    ensures PutsReadable(c, Step(c, s, e).value)
  {
  }

  /** The batch of a leader holds every frame put since the last DEL and less than the time to
      live ago, its own or another's. */
  lemma {:induction false} ReadTakesEveryPut(c: Config, timely: bool, es: seq<Event>, p: int, q: int)
    requires Run(c, timely, INITIAL, es).Some?
    requires var s := Run(c, timely, INITIAL, es).value;
             && Step(c, s, Read(p)).Some? && q in s.intact && q in s.procs && s.now < s.procs[q].putAt + Ttl(c)
    ensures var s := Run(c, timely, INITIAL, es).value;
            s.procs[q].frame in Step(c, s, Read(p)).value.procs[p].phase.batch
  {
    PutsAlwaysReadable(c, timely, INITIAL, es);
  }

  lemma {:induction false} PutsAlwaysReadable(c: Config, timely: bool, s: State, es: seq<Event>)
    requires PutsReadable(c, s) && Run(c, timely, s, es).Some?
    ensures PutsReadable(c, Run(c, timely, s, es).value)
    decreases |es|
  {
    if es != [] {
      PutsReadableStep(c, s, es[0]);
      PutsAlwaysReadable(c, timely, Step(c, s, es[0]).value, es[1..]);
    }
  }

  // Which copies reach a batch, in every run

  lemma {:induction false} RunSnoc(c: Config, timely: bool, s: State, es: seq<Event>, e: Event)
    requires Run(c, timely, s, es).Some?
    ensures Run(c, timely, s, es + [e]) == if timely then TimelyStep(c, Run(c, timely, s, es).value, e)
                                           else Step(c, Run(c, timely, s, es).value, e)
    decreases |es|
  {
    if es == [] {
      assert es + [e] == [e];
    } else {
      assert (es + [e])[1..] == es[1..] + [e];
      RunSnoc(c, timely, (if timely then TimelyStep(c, s, es[0]) else Step(c, s, es[0])).value, es[1..], e);
    }
  }

  /** Every prefix of a run is a run. */
  lemma {:induction false} RunPrefix(c: Config, timely: bool, s: State, es: seq<Event>, n: nat)
    requires Run(c, timely, s, es).Some? && n <= |es|
    ensures Run(c, timely, s, es[..n]).Some?
    decreases |es|
  {
    if 0 < n {
      assert es[..n][1..] == es[1..][..n - 1];
      RunPrefix(c, timely, (if timely then TimelyStep(c, s, es[0]) else Step(c, s, es[0])).value, es[1..], n - 1);
    }
  }

  /** The time that has passed since the latest put of any frame. */
  function SinceLastPut(es: seq<Event>): Option<nat> {
    if es == [] then None
    else
      var earlier := SinceLastPut(es[..|es| - 1]);
      match es[|es| - 1]
      case Put(_, _) => Some(0)
      case Tick(d) => if earlier.None? then None else Some(earlier.value + d)
      case _ => earlier
  }

  /** The set of copies has not expired after the first n steps. */
  predicate SetLives(c: Config, es: seq<Event>, n: nat)
    requires n <= |es|
  {
    var t := SinceLastPut(es[..n]);
    t.Some? && t.value < Ttl(c)
  }

  /** The expiry that Redis keeps says the same. */
  lemma {:induction false} ExpiryIs(c: Config, timely: bool, es: seq<Event>)
    requires Run(c, timely, INITIAL, es).Some?
    ensures var s := Run(c, timely, INITIAL, es).value; var t := SinceLastPut(es);
            0 <= s.now && s.setExpiry == if t.None? then 0 else s.now - t.value + Ttl(c)
    ensures var s := Run(c, timely, INITIAL, es).value; s.now < s.setExpiry <==> SetLives(c, es, |es|)
    decreases |es|
  {
    assert es[..|es|] == es;
    if es != [] {
      var n := |es| - 1;
      assert es == es[..n] + [es[n]];
      RunPrefix(c, timely, INITIAL, es, n);
      RunSnoc(c, timely, INITIAL, es[..n], es[n]);
      ExpiryIs(c, timely, es[..n]);
    }
  }

  predicate IsPut(e: Event, frame: int) {
    e.Put? && e.frame == frame
  }

  /** Step i puts the frame, and until step j neither a DEL follows nor a time to live without any put. */
  ghost predicate KeptFrom(c: Config, es: seq<Event>, frame: int, i: nat, j: nat)
    requires j <= |es|
  {
    && i < j && IsPut(es[i], frame)
    && (forall k :: i < k < j ==> !es[k].Del?)
    && (forall k :: i < k <= j ==> SetLives(c, es, k))
  }

  ghost predicate Kept(c: Config, es: seq<Event>, frame: int) {
    exists i: nat :: KeptFrom(c, es, frame, i, |es|)
  }

  lemma KeptFromPrefix(c: Config, es: seq<Event>, frame: int, i: nat, j: nat, n: nat)
    requires j <= n <= |es|
    ensures KeptFrom(c, es[..n], frame, i, j) <==> KeptFrom(c, es, frame, i, j)
  {
    assert forall k :: 0 <= k <= n ==> es[..n][..k] == es[..k];
    forall k | 0 <= k <= n ensures SetLives(c, es[..n], k) <==> SetLives(c, es, k) {
      assert es[..n][..k] == es[..k];
    }
  }

  /** One step: a frame is kept when it just has been put, or when it was and is not deleted or expired. */
  lemma KeptSnoc(c: Config, es: seq<Event>, e: Event, frame: int)
    ensures Kept(c, es + [e], frame) <==>
            SetLives(c, es + [e], |es| + 1) && (IsPut(e, frame) || (Kept(c, es, frame) && !e.Del?))
  {
    var longer, n := es + [e], |es|;
    assert longer[..n] == es;
    hide SetLives;
    if Kept(c, es, frame) {
      var i: nat :| KeptFrom(c, es, frame, i, n);
      KeptFromPrefix(c, longer, frame, i, n, n);
      if SetLives(c, longer, n + 1) && !e.Del? {
        assert KeptFrom(c, longer, frame, i, n + 1);
      }
    }
    if IsPut(e, frame) && SetLives(c, longer, n + 1) {
      assert KeptFrom(c, longer, frame, n, n + 1);
    }
    if Kept(c, longer, frame) {
      var i: nat :| KeptFrom(c, longer, frame, i, n + 1);
      if i < n {
        assert !longer[n].Del?;
        assert KeptFrom(c, longer, frame, i, n);
        KeptFromPrefix(c, longer, frame, i, n, n);
        assert KeptFrom(c, es, frame, i, n);
      } else {
        assert i == n && longer[i] == e;
      }
    }
  }

  /** The set holds exactly the frames of the puts that no DEL and no expiry has followed. */
  lemma {:induction false} MembersIff(c: Config, timely: bool, es: seq<Event>, frame: int)
    requires Run(c, timely, INITIAL, es).Some?
    ensures frame in LiveMembers(Run(c, timely, INITIAL, es).value) <==> Kept(c, es, frame)
    decreases |es|
  {
    if es != [] {
      var n := |es| - 1;
      var before, e := es[..n], es[n];
      assert es == before + [e] && es[..n + 1] == es;
      RunPrefix(c, timely, INITIAL, es, n);
      RunSnoc(c, timely, INITIAL, before, e);
      MembersIff(c, timely, before, frame);
      ExpiryIs(c, timely, before);
      ExpiryIs(c, timely, es);
      KeptSnoc(c, before, e, frame);
    }
  }

  /** A put of the frame is followed by a Read before the next DEL and before the set expires. */
  ghost predicate ReadInTime(c: Config, es: seq<Event>, frame: int) {
    exists i: nat, j: nat :: j < |es| && es[j].Read? && KeptFrom(c, es, frame, i, j)
  }

  lemma ReadInTimeSnoc(c: Config, es: seq<Event>, e: Event, frame: int)
    ensures ReadInTime(c, es + [e], frame) <==> ReadInTime(c, es, frame) || (e.Read? && Kept(c, es, frame))
  {
    var longer, n := es + [e], |es|;
    assert longer[..n] == es;
    hide KeptFrom;
    forall i: nat, j: nat | j <= n ensures KeptFrom(c, es, frame, i, j) <==> KeptFrom(c, longer, frame, i, j) {
      KeptFromPrefix(c, longer, frame, i, j, n);
    }
    if i: nat, j: nat :| j < |longer| && longer[j].Read? && KeptFrom(c, longer, frame, i, j) {
      assert j == n || (es[j].Read? && KeptFrom(c, es, frame, i, j));
    }
    if i: nat, j: nat :| j < |es| && es[j].Read? && KeptFrom(c, es, frame, i, j) {
      assert longer[j].Read? && KeptFrom(c, longer, frame, i, j);
    }
    if i: nat :| KeptFrom(c, es, frame, i, n) {
      assert KeptFrom(c, longer, frame, i, n);
    }
  }

  /** In every run a frame reaches a batch exactly when some copy of it is read in time. A copy that
      arrives between SMEMBERS and DEL, or after the DEL while the lock lives, is not. */
  lemma {:induction false} DeliveredIff(c: Config, timely: bool, es: seq<Event>, frame: int)
    requires Run(c, timely, INITIAL, es).Some?
    ensures Deliverers(Run(c, timely, INITIAL, es).value, frame) != {} <==> ReadInTime(c, es, frame)
    decreases |es|
  {
    if es != [] {
      var n := |es| - 1;
      var before, e := es[..n], es[n];
      assert es == before + [e];
      RunPrefix(c, timely, INITIAL, es, n);
      RunSnoc(c, timely, INITIAL, before, e);
      DeliveredIff(c, timely, before, frame);
      MembersIff(c, timely, before, frame);
      ReadInTimeSnoc(c, before, e, frame);
      hide ReadInTime, Kept;
      DeliversStep(c, Run(c, timely, INITIAL, before).value, e, frame);
    }
  }

  /** A step adds a deliverer exactly when it reads the frame. */
  lemma DeliversStep(c: Config, s: State, e: Event, frame: int)
    requires Step(c, s, e).Some?
    ensures Deliverers(Step(c, s, e).value, frame) ==
            Deliverers(s, frame) + if e.Read? && frame in LiveMembers(s) then {e.p} else {}
  {
  }

  // Runs that keep to the latency limits

  ghost predicate WithinLimits(c: Config, s: State) {
    forall p :: p in s.procs ==> MayRest(c, s.procs[p], s.now)
  }

  /** At most one process is between acquiring the lock and deleting the set. */
  ghost predicate OneCollects(s: State) {
    forall p, q ::
      p in s.procs && q in s.procs && Collecting(s.procs[p].phase) && Collecting(s.procs[q].phase) ==> p == q
  }

  lemma LimitsStep(c: Config, s: State, e: Event)
    requires LocksApart(c, s) && WithinLimits(c, s) && OneCollects(s) && c.maxCollect < Ttl(c)
    requires TimelyStep(c, s, e).Some?
    ensures WithinLimits(c, TimelyStep(c, s, e).value) && OneCollects(TimelyStep(c, s, e).value)
  {
  }

  ghost function Putters(s: State, frame: int): set<int> {
    set p | p in s.procs && s.procs[p].frame == frame
  }

  ghost function Deliverers(s: State, frame: int): set<int> {
    set p | p in s.procs && HasBatch(s.procs[p].phase) && frame in s.procs[p].phase.batch
  }

  ghost predicate BeingRead(s: State, frame: int) {
    exists p :: p in s.procs && s.procs[p].phase.HasRead? && frame in s.procs[p].phase.batch
  }

  /** A frame is in no more batches than it was put, and one put is still unused while the frame
      waits unread in the set. */
  ghost predicate Accounted(s: State, frame: int) {
    |Deliverers(s, frame)| + (if frame in s.members && !BeingRead(s, frame) then 1 else 0) <= |Putters(s, frame)|
  }

  lemma AccountedPut(c: Config, s: State, p: int, f: int, frame: int)
    requires Accounted(s, frame) && Step(c, s, Put(p, f)).Some?
    ensures Accounted(Step(c, s, Put(p, f)).value, frame)
  {
    var t := Step(c, s, Put(p, f)).value;
    assert Deliverers(t, frame) == Deliverers(s, frame);
    assert Putters(t, frame) == if f == frame then Putters(s, frame) + {p} else Putters(s, frame);
    if q :| q in s.procs && s.procs[q].phase.HasRead? && frame in s.procs[q].phase.batch {
      assert t.procs[q] == s.procs[q];
    }
  }

  lemma AccountedRead(c: Config, s: State, p: int, frame: int)
    requires OneCollects(s) && Accounted(s, frame) && Step(c, s, Read(p)).Some?
    ensures Accounted(Step(c, s, Read(p)).value, frame)
  {
    var t := Step(c, s, Read(p)).value;
    var batch := t.procs[p].phase.batch;
    assert Putters(t, frame) == Putters(s, frame);
    assert Deliverers(t, frame) == if frame in batch then Deliverers(s, frame) + {p} else Deliverers(s, frame);
    assert !BeingRead(s, frame);
    if frame in batch {
      assert t.procs[p].phase.HasRead?;
    }
  }

  lemma AccountedLock(c: Config, s: State, p: int, frame: int)
    requires Accounted(s, frame) && Step(c, s, Lock(p)).Some?
    ensures Accounted(Step(c, s, Lock(p)).value, frame)
  {
    var t := Step(c, s, Lock(p)).value;
    assert Putters(t, frame) == Putters(s, frame) && Deliverers(t, frame) == Deliverers(s, frame);
    if q :| q in s.procs && s.procs[q].phase.HasRead? && frame in s.procs[q].phase.batch {
      assert t.procs[q] == s.procs[q];
    }
  }

  lemma AccountedStep(c: Config, s: State, e: Event, frame: int)
    requires OneCollects(s) && Accounted(s, frame) && Step(c, s, e).Some?
    ensures Accounted(Step(c, s, e).value, frame)
  {
    match e {
      case Put(p, f) => AccountedPut(c, s, p, f, frame);
      case Read(p) => AccountedRead(c, s, p, frame);
      case Lock(p) => AccountedLock(c, s, p, frame);
      case Tick(_) =>
        var t := Step(c, s, e).value;
        assert Putters(t, frame) == Putters(s, frame) && Deliverers(t, frame) == Deliverers(s, frame);
      case Del(p) =>
        var t := Step(c, s, e).value;
        assert Putters(t, frame) == Putters(s, frame) && Deliverers(t, frame) == Deliverers(s, frame);
    }
  }

  lemma {:induction false} TimelyRun(c: Config, s: State, es: seq<Event>, frame: int)
    requires c.maxCollect < Ttl(c)
    requires LocksApart(c, s) && WithinLimits(c, s) && OneCollects(s) && Accounted(s, frame)
    requires Run(c, true, s, es).Some?
    ensures OneCollects(Run(c, true, s, es).value) && Accounted(Run(c, true, s, es).value, frame)
    decreases |es|
  {
    if es != [] {
      LocksApartStep(c, s, es[0]);
      LimitsStep(c, s, es[0]);
      AccountedStep(c, s, es[0], frame);
      TimelyRun(c, Step(c, s, es[0]).value, es[1..], frame);
    }
  }

  /** When every leader has collected within the lock's time to live, no two processes ever collect
      at the same time, and a frame is passed to at most as many callbacks as it was put, so to at
      most one when each copy is received once. */
  lemma CollectsOnce(c: Config, es: seq<Event>, frame: int)
    requires c.maxCollect < Ttl(c) && Run(c, true, INITIAL, es).Some?
    ensures OneCollects(Run(c, true, INITIAL, es).value)
    ensures |Deliverers(Run(c, true, INITIAL, es).value, frame)| <= |Putters(Run(c, true, INITIAL, es).value, frame)|
  {
    TimelyRun(c, INITIAL, es, frame);
  }

  /** From here on process p collects: nobody deletes the set, and what is in it does not expire. */
  lemma {:induction false} LeaderKeepsFrame(c: Config, s: State, es: seq<Event>, p: int, frame: int)
    requires c.maxCollect < Ttl(c) && Run(c, true, s, es).Some?
    requires LocksApart(c, s) && WithinLimits(c, s) && OneCollects(s)
    requires p in s.procs && s.procs[p].phase.Leader? && Read(p) !in es
    requires frame in s.members && s.procs[p].phase.lockAt + Ttl(c) <= s.setExpiry
    ensures frame in LiveMembers(Run(c, true, s, es).value)
    decreases |es|
  {
    if es != [] {
      LocksApartStep(c, s, es[0]);
      LimitsStep(c, s, es[0]);
      assert es[0] in es;
      LeaderKeepsFrame(c, Step(c, s, es[0]).value, es[1..], p, frame);
    }
  }

  /** In every run in which leaders collect within the lock's time to live, the batch of a leader
      holds every copy that is put after its lock and before its read. */
  lemma LeaderReadsEveryCopy(c: Config, es: seq<Event>, p: int, q: int, frame: int, later: seq<Event>)
    requires c.maxCollect < Ttl(c) && Read(p) !in later
    requires Run(c, true, INITIAL, es).Some? && Run(c, true, INITIAL, es + [Put(q, frame)] + later + [Read(p)]).Some?
    requires var s := Run(c, true, INITIAL, es).value; p in s.procs && s.procs[p].phase.Leader?
    ensures var t := Run(c, true, INITIAL, es + [Put(q, frame)] + later + [Read(p)]).value;
            p in t.procs && t.procs[p].phase.HasRead? && frame in t.procs[p].phase.batch
  {
    var put := es + [Put(q, frame)];
    var all := put + later + [Read(p)];
    assert all[..|put + later|] == put + later && (put + later)[..|put|] == put;
    RunPrefix(c, true, INITIAL, all, |put + later|);
    RunPrefix(c, true, INITIAL, put + later, |put|);
    RunSnoc(c, true, INITIAL, es, Put(q, frame));
    RunSnoc(c, true, INITIAL, put + later, Read(p));
    LimitsOfRun(c, INITIAL, put);
    var s := Run(c, true, INITIAL, put).value;
    RunAppend(c, INITIAL, put, later);
    LimitsOfRun(c, INITIAL, es);
    LeaderKeepsFrame(c, s, later, p, frame);
  }

  function Elapsed(es: seq<Event>): nat {
    if es == [] then 0 else (if es[0].Tick? then es[0].d else 0) + Elapsed(es[1..])
  }

  /** A process that has acquired the lock keeps the time of it, and time passes with the ticks only. */
  lemma {:induction false} LockStays(c: Config, timely: bool, s: State, es: seq<Event>, p: int)
    requires Run(c, timely, s, es).Some? && p in s.procs && HasLocked(s.procs[p].phase)
    ensures var t := Run(c, timely, s, es).value;
            && t.now == s.now + Elapsed(es)
            && p in t.procs && HasLocked(t.procs[p].phase) && t.procs[p].phase.lockAt == s.procs[p].phase.lockAt
    decreases |es|
  {
    if es != [] {
      LockStays(c, timely, Step(c, s, es[0]).value, es[1..], p);
    }
  }

  /** In every run, between a process acquiring the lock and its read the time that passes is at least
      the de-duplication delay. */
  lemma ReadWaits(c: Config, timely: bool, es: seq<Event>, p: int, later: seq<Event>)
    requires Run(c, timely, INITIAL, es + [Lock(p)]).Some?
    requires var s := Run(c, timely, INITIAL, es + [Lock(p)]).value;
             p in s.procs && s.procs[p].phase.Leader? && Run(c, timely, s, later + [Read(p)]).Some?
    requires Run(c, timely, INITIAL, es).Some?
    ensures c.delay <= Elapsed(later)
  {
    var s := Run(c, timely, INITIAL, es + [Lock(p)]).value;
    RunSnoc(c, timely, INITIAL, es, Lock(p));
    assert s.procs[p].phase.lockAt == s.now;
    assert (later + [Read(p)])[..|later|] == later;
    RunPrefix(c, timely, s, later + [Read(p)], |later|);
    RunSnoc(c, timely, s, later, Read(p));
    LockStays(c, timely, s, later, p);
  }

  /** A leader that collects what is in the set finds the frame, or has not read yet. */
  lemma {:induction false} LeaderFinds(c: Config, s: State, es: seq<Event>, p: int, frame: int)
    requires c.maxCollect < Ttl(c) && Run(c, true, s, es).Some?
    requires LocksApart(c, s) && WithinLimits(c, s) && OneCollects(s)
    requires p in s.procs && s.procs[p].phase.Leader?
    requires frame in s.members && s.procs[p].phase.lockAt + Ttl(c) <= s.setExpiry
    ensures var t := Run(c, true, s, es).value;
            p in t.procs && (HasBatch(t.procs[p].phase) ==> frame in t.procs[p].phase.batch)
    decreases |es|
  {
    if es != [] {
      LocksApartStep(c, s, es[0]);
      LimitsStep(c, s, es[0]);
      var next := Step(c, s, es[0]).value;
      if es[0] == Read(p) {
        BatchStays(c, next, es[1..], p);
      } else {
        LeaderFinds(c, next, es[1..], p, frame);
      }
    }
  }

  lemma {:induction false} BatchStays(c: Config, s: State, es: seq<Event>, p: int)
    requires Run(c, true, s, es).Some? && p in s.procs && HasBatch(s.procs[p].phase)
    ensures var t := Run(c, true, s, es).value;
            p in t.procs && HasBatch(t.procs[p].phase) && t.procs[p].phase.batch == s.procs[p].phase.batch
    decreases |es|
  {
    if es != [] {
      BatchStays(c, Step(c, s, es[0]).value, es[1..], p);
    }
  }

  /** What de-duplication is for: when leaders collect within the lock's time to live, every copy that
      is put less than the de-duplication delay after a leader's lock is in that leader's batch, once
      it has read one. */
  lemma CopiesWithinDelayAreCollected(c: Config, es: seq<Event>, p: int, soon: seq<Event>, q: int, frame: int,
                                      rest: seq<Event>)
    requires c.maxCollect < Ttl(c) && Elapsed(soon) < c.delay
    requires Run(c, true, INITIAL, es).Some? && Run(c, true, INITIAL, es + [Lock(p)]).Some?
    requires var s := Run(c, true, INITIAL, es + [Lock(p)]).value;
             && p in s.procs && s.procs[p].phase.Leader?
             && Run(c, true, s, soon + [Put(q, frame)]).Some?
             && Run(c, true, Run(c, true, s, soon + [Put(q, frame)]).value, rest).Some?
    ensures var s := Run(c, true, INITIAL, es + [Lock(p)]).value;
            var t := Run(c, true, Run(c, true, s, soon + [Put(q, frame)]).value, rest).value;
            p in t.procs && (HasBatch(t.procs[p].phase) ==> frame in t.procs[p].phase.batch)
  {
    var s := Run(c, true, INITIAL, es + [Lock(p)]).value;
    RunSnoc(c, true, INITIAL, es, Lock(p));
    LimitsOfRun(c, INITIAL, es + [Lock(p)]);
    assert s.procs[p].phase.lockAt == s.now;
    assert (soon + [Put(q, frame)])[..|soon|] == soon;
    RunPrefix(c, true, s, soon + [Put(q, frame)], |soon|);
    RunSnoc(c, true, s, soon, Put(q, frame));
    var u := Run(c, true, s, soon).value;
    StillLeader(c, s, soon, p);
    LockStays(c, true, s, soon, p);
    LimitsOfRun(c, s, soon);
    LimitsOfRun(c, s, soon + [Put(q, frame)]);
    LeaderFinds(c, Run(c, true, s, soon + [Put(q, frame)]).value, rest, p, frame);
  }

  lemma {:induction false} StillLeader(c: Config, s: State, es: seq<Event>, p: int)
    requires Run(c, true, s, es).Some? && p in s.procs && s.procs[p].phase.Leader?
    requires s.now + Elapsed(es) < s.procs[p].phase.lockAt + c.delay
    ensures var t := Run(c, true, s, es).value; p in t.procs && t.procs[p].phase.Leader?
    decreases |es|
  {
    if es != [] {
      ElapsedStep(es);
      StillLeader(c, Step(c, s, es[0]).value, es[1..], p);
    }
  }

  lemma ElapsedStep(es: seq<Event>)
    requires es != []
    ensures Elapsed(es) == (if es[0].Tick? then es[0].d else 0) + Elapsed(es[1..])
  {
  }

  /** The time to live leaves a leader at least as much time again as it has to wait. */
  lemma TtlIs(c: Config)
    ensures Ttl(c) >= 200 && Ttl(c) >= c.delay + c.delay
    ensures Ttl(c) == 200 || Ttl(c) == c.delay + c.delay
  {
  }

  lemma {:induction false} RunAppend(c: Config, s: State, es: seq<Event>, later: seq<Event>)
    requires Run(c, true, s, es).Some?
    ensures Run(c, true, s, es + later) == Run(c, true, Run(c, true, s, es).value, later)
    decreases |es|
  {
    if es == [] {
      assert es + later == later;
    } else {
      assert (es + later)[1..] == es[1..] + later;
      RunAppend(c, Step(c, s, es[0]).value, es[1..], later);
    }
  }

  lemma {:induction false} LimitsOfRun(c: Config, s: State, es: seq<Event>)
    requires c.maxCollect < Ttl(c) && LocksApart(c, s) && WithinLimits(c, s) && OneCollects(s)
    requires Run(c, true, s, es).Some?
    ensures var t := Run(c, true, s, es).value; LocksApart(c, t) && WithinLimits(c, t) && OneCollects(t)
    decreases |es|
  {
    if es != [] {
      LocksApartStep(c, s, es[0]);
      LimitsStep(c, s, es[0]);
      LimitsOfRun(c, Step(c, s, es[0]).value, es[1..]);
    }
  }

  /** The bound is exact: a leader that may take as long as the lock lives can meet a second one. */
  lemma NeverTwoCollectIff(c: Config)
    ensures (forall es :: Run(c, true, INITIAL, es).Some? ==> OneCollects(Run(c, true, INITIAL, es).value))
            <==> c.maxCollect < Ttl(c)
  {
    if c.maxCollect < Ttl(c) {
      forall es | Run(c, true, INITIAL, es).Some? ensures OneCollects(Run(c, true, INITIAL, es).value) {
        CollectsOnce(c, es, 0);
      }
    } else {
      var es, s := [], INITIAL;
      es, s := Extend(c, es, s, Put(1, 1));
      es, s := Extend(c, es, s, Lock(1));
      es, s := Extend(c, es, s, Tick(Ttl(c)));
      es, s := Extend(c, es, s, Put(2, 2));
      es, s := Extend(c, es, s, Lock(2));
      assert s.procs[1].phase.Leader? && s.procs[2].phase.Leader?;
    }
  }

  // A leader's own frame

  ghost predicate OwnFrameRead(s: State) {
    forall p :: p in s.procs && HasBatch(s.procs[p].phase) ==> s.procs[p].frame in s.procs[p].phase.batch
  }

  /** While a process may still become leader, either its put is intact or the lock outlasts it. */
  ghost predicate OwnPutKept(c: Config, s: State) {
    && (forall p :: p in s.procs && s.procs[p].phase.HasPut? && p !in s.intact ==>
             s.procs[p].putAt + c.maxPutToLock < s.lockExpiry)
    && (forall p :: p in s.procs && s.procs[p].phase.Leader? ==>
                      p in s.intact && s.procs[p].phase.lockAt <= s.procs[p].putAt + c.maxPutToLock)
  }

  lemma OwnPutStep(c: Config, s: State, e: Event)
    requires c.maxPutToLock + c.maxCollect < Ttl(c)
    requires LocksApart(c, s) && WithinLimits(c, s) && OneCollects(s) && PutsReadable(c, s) && OwnPutKept(c, s)
    requires Step(c, s, e).Some?
    ensures OwnPutKept(c, Step(c, s, e).value)
  {
  }

  lemma OwnReadStep(c: Config, s: State, e: Event)
    requires c.maxPutToLock + c.maxCollect < Ttl(c)
    requires WithinLimits(c, s) && PutsReadable(c, s) && OwnPutKept(c, s) && OwnFrameRead(s) && Step(c, s, e).Some?
    ensures OwnFrameRead(Step(c, s, e).value)
  {
  }

  lemma {:induction false} OwnFrameRun(c: Config, s: State, es: seq<Event>)
    requires c.maxPutToLock + c.maxCollect < Ttl(c)
    requires LocksApart(c, s) && WithinLimits(c, s) && OneCollects(s) && PutsReadable(c, s) && OwnPutKept(c, s)
    requires OwnFrameRead(s)
    requires Run(c, true, s, es).Some?
    ensures OwnFrameRead(Run(c, true, s, es).value)
    decreases |es|
  {
    if es != [] {
      LocksApartStep(c, s, es[0]);
      LimitsStep(c, s, es[0]);
      PutsReadableStep(c, s, es[0]);
      OwnPutStep(c, s, es[0]);
      OwnReadStep(c, s, es[0]);
      OwnFrameRun(c, Step(c, s, es[0]).value, es[1..]);
    }
  }

  /** A run in which process 2 puts its frame between the read and the delete of process 1. */
  lemma PutBetweenReadAndDel(c: Config, b: nat) returns (es: seq<Event>, s: State)
    requires c.delay <= b <= c.maxCollect
    ensures Run(c, true, INITIAL, es) == Some(s)
    ensures s.now == b && s.members == {} && s.lockExpiry == Ttl(c) && s.procs.Keys == {1, 2}
    ensures s.procs[1].phase.Done? && s.procs[1].frame == 1 && 2 !in s.procs[1].phase.batch
    ensures s.procs[2] == Process(2, b, HasPut)
  {
    es, s := [], INITIAL;
    es, s := Extend(c, es, s, Put(1, 1));
    es, s := Extend(c, es, s, Lock(1));
    es, s := Extend(c, es, s, Tick(b));
    es, s := Extend(c, es, s, Read(1));
    es, s := Extend(c, es, s, Put(2, 2));
    es, s := Extend(c, es, s, Del(1));
  }

  /** When process 2 is then slow enough to find the lock expired, it becomes leader of an empty set. */
  lemma OwnFrameLost(c: Config) returns (es: seq<Event>)
    requires c.delay <= c.maxCollect && Ttl(c) <= c.maxPutToLock + c.maxCollect
    ensures Run(c, true, INITIAL, es).Some? && !OwnFrameRead(Run(c, true, INITIAL, es).value)
  {
    var b: nat := if c.delay < Ttl(c) - c.maxPutToLock then Ttl(c) - c.maxPutToLock else c.delay;
    var s;
    es, s := PutBetweenReadAndDel(c, b);
    es, s := Extend(c, es, s, Tick(Ttl(c) - b));
    es, s := Extend(c, es, s, Lock(2));
    es, s := Extend(c, es, s, Tick(c.delay));
    es, s := Extend(c, es, s, Read(2));
    assert s.procs[2].frame !in s.procs[2].phase.batch;
  }

  lemma Extend(c: Config, es: seq<Event>, s: State, e: Event) returns (es': seq<Event>, s': State)
    requires Run(c, true, INITIAL, es) == Some(s) && TimelyStep(c, s, e).Some?
    ensures Run(c, true, INITIAL, es') == Some(s') && s' == TimelyStep(c, s, e).value
  {
    RunSnoc(c, true, INITIAL, es, e);
    es', s' := es + [e], TimelyStep(c, s, e).value;
  }

  /** A leader's batch always holds its own frame exactly when the two latency limits together stay
      below the time to live. */
  lemma OwnFrameAlwaysReadIff(c: Config)
    requires c.delay <= c.maxCollect
    ensures (forall es :: Run(c, true, INITIAL, es).Some? ==> OwnFrameRead(Run(c, true, INITIAL, es).value))
            <==> c.maxPutToLock + c.maxCollect < Ttl(c)
  {
    if c.maxPutToLock + c.maxCollect < Ttl(c) {
      forall es | Run(c, true, INITIAL, es).Some? ensures OwnFrameRead(Run(c, true, INITIAL, es).value) {
        OwnFrameRun(c, INITIAL, es);
      }
    } else {
      var es := OwnFrameLost(c);
    }
  }

  /** Whatever the limits, a copy that arrives between SMEMBERS and DEL reaches no callback: its
      process finds the lock taken and its frame is deleted unread. */
  lemma LateCopyIsLost(c: Config) returns (es: seq<Event>)
    requires c.delay <= c.maxCollect && c.delay < Ttl(c)
    ensures Run(c, true, INITIAL, es).Some?
    ensures var s := Run(c, true, INITIAL, es).value;
            && Putters(s, 2) == {2} && Deliverers(s, 2) == {} && s.members == {}
            && forall p :: p in s.procs ==> s.procs[p].phase.Done? || s.procs[p].phase.Follower?
  {
    var s;
    es, s := PutBetweenReadAndDel(c, c.delay);
    es, s := Extend(c, es, s, Lock(2));
    assert s.procs.Keys == {1, 2};
  }

  /** So does a copy that arrives after the DEL while the lock still lives: it stays in the set with
      nobody left to read it. */
  lemma CopyBehindDelIsLost(c: Config) returns (es: seq<Event>)
    requires c.delay <= c.maxCollect && c.delay < Ttl(c)
    ensures Run(c, true, INITIAL, es).Some?
    ensures var s := Run(c, true, INITIAL, es).value;
            && Putters(s, 2) == {2} && Deliverers(s, 2) == {} && s.members == {2}
            && forall p :: p in s.procs ==> s.procs[p].phase.Done? || s.procs[p].phase.Follower?
  {
    var s := INITIAL;
    es := [];
    es, s := Extend(c, es, s, Put(1, 1));
    es, s := Extend(c, es, s, Lock(1));
    es, s := Extend(c, es, s, Tick(c.delay));
    es, s := Extend(c, es, s, Read(1));
    es, s := Extend(c, es, s, Del(1));
    es, s := Extend(c, es, s, Put(2, 2));
    es, s := Extend(c, es, s, Lock(2));
    assert s.procs.Keys == {1, 2};
  }
}
