/** The worker pool of a search (SearchLogs and scanSearchJob in
    api/search_service.go) as a state machine: every schedule of the feeder,
    the workers and the consumer is a sequence of these steps. */
module SearchPool {
  import opened Bytes
  import opened Seqs

  const CHANNEL_SIZE := 64

  /** A search over the lines of each job's segment, in queue order. */
  datatype Search = Search(jobs: seq<seq<Text>>, hit: Text -> bool, max: nat)

  datatype Found = Found(job: nat, line: Text)

  datatype Worker =
    | Idle
    | Holding(job: nat)
    | Reading(job: nat)
    | Sending(job: nat)
    | Gone

  datatype Consumer = Receiving | Finished(truncated: bool) | Failed

  datatype Pool = Pool(
    next: nat,              // jobs handed out
    progress: seq<nat>,     // lines of each job dealt with
    workers: seq<Worker>,
    feeding: bool,          // jobCh is open
    channel: seq<Found>,    // resultCh
    sent: seq<Found>,       // what the client got
    drained: seq<Found>,    // what was received but not sent
    vanished: set<nat>,     // jobs whose file could not be opened
    stopped: bool,          // stopCh is closed
    cancelled: bool,        // ctx is done
    consumer: Consumer)
  {
    predicate Done() {
      stopped || cancelled
    }

    /** Everything workers ever put in the channel. */
    function Stream(): seq<Found> {
      sent + drained + channel
    }

    /** Every worker has returned, which closes resultCh. */
    predicate AllGone() {
      forall w :: 0 <= w < |workers| ==> workers[w] == Gone
    }

    function Working(w: nat, worker: Worker): Pool
      requires w < |workers|
    {
      this.(workers := workers[w := worker])
    }
  }

  datatype Step =
    | Take(w: nat)
    | Open(w: nat, present: bool)
    | Read(w: nat)
    | Send(w: nat)
    | Abandon(w: nat)
    | Leave(w: nat)
    | StopFeeding
    | Receive(sendOk: bool)
    | End
    | Drain
    | Cancel

  predicate Shaped(z: Search, s: Pool) {
    && |s.progress| == |z.jobs| && |s.workers| >= 1 && s.next <= |z.jobs| && |s.channel| <= CHANNEL_SIZE
    && forall j :: 0 <= j < |z.jobs| ==> s.progress[j] <= |z.jobs[j]|
  }

  function JobOf(w: Worker): (j: int)
    ensures j >= -1
  {
    match w
    case Holding(j) => j
    case Reading(j) => j
    case Sending(j) => j
    case _ => -1
  }

  predicate At(z: Search, s: Pool, w: nat) {
    w < |s.workers| && JobOf(s.workers[w]) < |z.jobs|
  }

  predicate Enabled(z: Search, s: Pool, e: Step)
    requires Shaped(z, s)
  {
    match e
    case Take(w) => At(z, s, w) && s.workers[w].Idle? && s.feeding && s.next < |z.jobs|
    case Open(w, _) => At(z, s, w) && s.workers[w].Holding?
    case Read(w) => At(z, s, w) && s.workers[w].Reading?
    case Send(w) => At(z, s, w) && s.workers[w].Sending? && |s.channel| < CHANNEL_SIZE
                    && s.progress[s.workers[w].job] < |z.jobs[s.workers[w].job]|
    case Abandon(w) => At(z, s, w) && s.workers[w].Sending? && s.Done()
    case Leave(w) => At(z, s, w) && s.workers[w].Idle? && !s.feeding
    case StopFeeding => s.feeding && (s.Done() || s.next == |z.jobs|)
    case Receive(_) => s.consumer.Receiving? && s.channel != []
    case End => s.consumer.Receiving? && s.channel == [] && s.AllGone()
    case Drain => s.consumer.Finished? && s.channel != []
    case Cancel => !s.cancelled
  }

  function After(z: Search, s: Pool, e: Step): Pool
    requires Shaped(z, s) && Enabled(z, s, e)
  {
    match e
    case Take(w) => s.Working(w, Holding(s.next)).(next := s.next + 1)
    case Open(w, present) =>
      var j := s.workers[w].job;
      if s.Done() then s.Working(w, Gone)
      else if present then s.Working(w, Reading(j))
      else s.Working(w, Idle).(vanished := s.vanished + {j})
    case Read(w) =>
      var j := s.workers[w].job;
      var at := s.progress[j];
      if at == |z.jobs[j]| then s.Working(w, Idle)
      else if s.Done() then s.Working(w, Idle)
      else if z.hit(z.jobs[j][at]) then s.Working(w, Sending(j))
      else s.(progress := s.progress[j := at + 1])
    case Send(w) =>
      var j := s.workers[w].job;
      s.Working(w, Reading(j)).(progress := s.progress[j := s.progress[j] + 1],
                                channel := s.channel + [Found(j, z.jobs[j][s.progress[j]])])
    case Abandon(w) => s.Working(w, Idle)
    case Leave(w) => s.Working(w, Gone)
    case StopFeeding => s.(feeding := false)
    case Receive(sendOk) => Received(z, s.(channel := s.channel[1..]), s.channel[0], sendOk)
    case End => s.(consumer := Finished(false))
    case Drain => s.(channel := s.channel[1..], drained := s.drained + [s.channel[0]])
    case Cancel => s.(cancelled := true)
  }

  /** One turn of the consumer's loop. */
  function Received(z: Search, s: Pool, x: Found, sendOk: bool): Pool {
    if s.cancelled || !sendOk then s.(drained := s.drained + [x], stopped := true, consumer := Failed)
    else if |s.sent| + 1 >= z.max then s.(sent := s.sent + [x], stopped := true, consumer := Finished(true))
    else s.(sent := s.sent + [x])
  }

  function Start(z: Search, workers: nat): Pool {
    Pool(0, seq(|z.jobs|, _ => 0), seq(workers, _ => Idle), true, [], [], [], {}, false, false, Receiving)
  }

  // ----- What every step keeps -----

  /** The lines found in one job, in the order they were put in the channel. */
  function Of(found: seq<Found>, job: nat): seq<Text> {
    if found == [] then []
    else
      var before := Of(found[..|found| - 1], job);
      if found[|found| - 1].job == job then before + [found[|found| - 1].line] else before
  }

  function HitsUpTo(z: Search, job: nat, at: nat): seq<Text>
    requires job < |z.jobs| && at <= |z.jobs[job]|
  {
    Filter(z.hit, z.jobs[job][..at])
  }

  /** No two workers hold the same job, and no one holds a job not handed out. */
  ghost predicate Owners(z: Search, s: Pool) {
    && (forall w :: 0 <= w < |s.workers| ==> JobOf(s.workers[w]) < s.next)
    && (forall v, w :: 0 <= v < w < |s.workers| && JobOf(s.workers[v]) >= 0 ==>
          JobOf(s.workers[v]) != JobOf(s.workers[w]))
  }

  ghost predicate SendsHits(z: Search, s: Pool)
    requires |s.progress| == |z.jobs|
  {
    forall w :: 0 <= w < |s.workers| && s.workers[w].Sending? ==>
                  var j := s.workers[w].job;
                  j < |z.jobs| && s.progress[j] < |z.jobs[j]| && z.hit(z.jobs[j][s.progress[j]])
  }

  /** The channel has carried each job's hits up to its progress: all of them,
      once, in line order, and nothing else. */
  ghost predicate Told(z: Search, s: Pool)
    requires Shaped(z, s)
  {
    && (forall j :: 0 <= j < |z.jobs| ==> Of(s.Stream(), j) == HitsUpTo(z, j, s.progress[j]))
    && forall k :: 0 <= k < |s.Stream()| ==> s.Stream()[k].job < s.next
  }

  ghost predicate Owned(workers: seq<Worker>, j: nat) {
    exists w :: 0 <= w < |workers| && JobOf(workers[w]) == j
  }

  /** A job handed out is finished, lost, or in some worker's hands, unless the
      search was stopped. */
  ghost predicate Followed(z: Search, s: Pool)
    requires Shaped(z, s)
  {
    && (forall j :: 0 <= j < s.next && !s.Done() && j !in s.vanished ==>
          s.progress[j] == |z.jobs[j]| || Owned(s.workers, j))
    && (forall j :: s.next <= j < |z.jobs| ==> s.progress[j] == 0)
    && (!s.feeding && !s.Done() ==> s.next == |z.jobs|)
    && (forall w :: 0 <= w < |s.workers| && s.workers[w].Gone? && !s.Done() ==> !s.feeding)
  }

  ghost predicate Counted(z: Search, s: Pool) {
    && (s.drained != [] ==> s.stopped)
    && match s.consumer
       case Receiving => |s.sent| < z.max && !s.stopped
       case Finished(truncated) =>
         if truncated then |s.sent| == z.max && s.stopped
         else |s.sent| < z.max && !s.stopped && s.AllGone() && s.channel == []
       case Failed => |s.sent| < z.max && s.stopped
  }

  ghost predicate Inv(z: Search, s: Pool) {
    Shaped(z, s) && Owners(z, s) && SendsHits(z, s) && Told(z, s) && Followed(z, s) && Counted(z, s)
  }

  lemma StartHolds(z: Search, workers: nat)
    requires workers >= 1 && z.max >= 1
    ensures Inv(z, Start(z, workers))
  {
    var s := Start(z, workers);
    assert s.Stream() == [];
    forall j | 0 <= j < |z.jobs|
      ensures HitsUpTo(z, j, s.progress[j]) == []
    {
      assert z.jobs[j][..0] == [];
      FilterEmpty(z.hit);
    }
  }

  lemma OfStep(found: seq<Found>, x: Found, job: nat)
    ensures Of(found + [x], job) == if x.job == job then Of(found, job) + [x.line] else Of(found, job)
  {
    assert (found + [x])[..|found|] == found;
  }

  lemma HitsStep(z: Search, job: nat, at: nat)
    requires job < |z.jobs| && at < |z.jobs[job]|
    ensures var line := z.jobs[job][at];
            HitsUpTo(z, job, at + 1) == if z.hit(line) then HitsUpTo(z, job, at) + [line] else HitsUpTo(z, job, at)
  {
    assert z.jobs[job][..at + 1] == z.jobs[job][..at] + [z.jobs[job][at]];
    FilterStep(z.hit, z.jobs[job][..at], z.jobs[job][at]);
  }

  // ----- What a step moves -----

  /** The worker a step belongs to. */
  function Mover(e: Step): (w: int)
    ensures w >= -1
  {
    match e
    case Take(w) => w
    case Open(w, _) => w
    case Read(w) => w
    case Send(w) => w
    case Abandon(w) => w
    case Leave(w) => w
    case _ => -1
  }

  lemma WorkersMove(z: Search, s: Pool, e: Step)
    requires Shaped(z, s) && Enabled(z, s, e)
    ensures var t, w := After(z, s, e), Mover(e);
            && t.next == s.next + (if e.Take? then 1 else 0)
            && t.next <= |z.jobs|
            && (w == -1 ==> t.workers == s.workers)
            && (w >= 0 ==> w < |s.workers| && t.workers == s.workers[w := t.workers[w]]
                           && if e.Take? then s.workers[w].Idle? && t.workers[w] == Holding(s.next)
                              else JobOf(t.workers[w]) in {-1, JobOf(s.workers[w])})
  {
  }

  /** The job whose next line this step deals with, if it does. */
  function Advanced(z: Search, s: Pool, e: Step): (j: int)
    requires Shaped(z, s) && Enabled(z, s, e)
    ensures e.Send? ==> j >= 0
    ensures j >= 0 ==> j < |z.jobs| && s.progress[j] < |z.jobs[j]| && Mover(e) >= 0 && JobOf(s.workers[Mover(e)]) == j
  {
    match e
    case Send(w) => s.workers[w].job
    case Read(w) =>
      var j := s.workers[w].job;
      var at := s.progress[j];
      if at < |z.jobs[j]| && !s.Done() && !z.hit(z.jobs[j][at]) then j else -1
    case _ => -1
  }

  lemma ProgressMoves(z: Search, s: Pool, e: Step)
    requires Shaped(z, s) && Enabled(z, s, e)
    ensures var j := Advanced(z, s, e);
            After(z, s, e).progress == if j < 0 then s.progress else s.progress[j := s.progress[j] + 1]
  {
  }

  function Added(z: Search, s: Pool, e: Step): seq<Found>
    requires Shaped(z, s) && Enabled(z, s, e)
  {
    if e.Send? then var j := s.workers[e.w].job; [Found(j, z.jobs[j][s.progress[j]])] else []
  }

  lemma StreamMoves(z: Search, s: Pool, e: Step)
    requires Shaped(z, s) && Enabled(z, s, e) && Counted(z, s)
    ensures After(z, s, e).Stream() == s.Stream() + Added(z, s, e)
    ensures |After(z, s, e).channel| <= CHANNEL_SIZE
  {
    ChannelUse(z, s, e);
    if e.Receive? {
      ReceivedMoves(z, s, e.sendOk);
    } else {
      hide After, Enabled, Shaped, Counted, Added;
      if e.Drain? {
        ChannelMoves(s.sent, s.drained, s.channel);
      } else {
        Associate(s.sent + s.drained, s.channel, Added(z, s, e));
      }
    }
  }

  lemma ChannelUse(z: Search, s: Pool, e: Step)
    requires Shaped(z, s) && Enabled(z, s, e)
    ensures var t := After(z, s, e);
            if e.Receive? then s.channel != [] && s.consumer.Receiving? && Added(z, s, e) == []
            else if e.Drain? then s.channel != [] && t.sent == s.sent && t.drained == s.drained + [s.channel[0]]
                                  && t.channel == s.channel[1..] && Added(z, s, e) == []
            else t.sent == s.sent && t.drained == s.drained && t.channel == s.channel + Added(z, s, e)
                 && |t.channel| <= CHANNEL_SIZE
    ensures |s.channel| <= CHANNEL_SIZE
  {
  }

  lemma ReceivedMoves(z: Search, s: Pool, sendOk: bool)
    requires s.channel != [] && s.drained == []
    ensures var t := Received(z, s.(channel := s.channel[1..]), s.channel[0], sendOk);
            t.Stream() == s.Stream() && t.channel == s.channel[1..]
  {
    ChannelMoves(s.sent, s.drained, s.channel);
    assert [s.channel[0]] == [] + [s.channel[0]];
  }

  lemma ChannelMoves<T>(sent: seq<T>, drained: seq<T>, channel: seq<T>)
    requires channel != []
    ensures sent + (drained + [channel[0]]) + channel[1..] == sent + drained + channel
    ensures drained == [] ==> (sent + [channel[0]]) + drained + channel[1..] == sent + drained + channel
  {
  }

  lemma KeepsShape(z: Search, s: Pool, e: Step)
    requires Shaped(z, s) && Enabled(z, s, e) && Counted(z, s)
    ensures Shaped(z, After(z, s, e))
  {
    hide After, Counted, Enabled;
    WorkersMove(z, s, e);
    ProgressMoves(z, s, e);
    StreamMoves(z, s, e);
  }

  lemma KeepsOwners(z: Search, s: Pool, e: Step)
    requires Shaped(z, s) && Owners(z, s) && Enabled(z, s, e)
    ensures Owners(z, After(z, s, e))
  {
    hide After, Enabled;
    WorkersMove(z, s, e);
  }

  lemma SenderHolds(z: Search, s: Pool, e: Step)
    requires Shaped(z, s) && Enabled(z, s, e) && Mover(e) >= 0 && After(z, s, e).workers[Mover(e)].Sending?
    ensures var j := After(z, s, e).workers[Mover(e)].job;
            j == JobOf(s.workers[Mover(e)]) < |z.jobs| && s.progress[j] < |z.jobs[j]| && z.hit(z.jobs[j][s.progress[j]])
    ensures Advanced(z, s, e) == -1
  {
  }

  lemma KeepsSends(z: Search, s: Pool, e: Step)
    requires Shaped(z, s) && Owners(z, s) && SendsHits(z, s) && Enabled(z, s, e)
    ensures |After(z, s, e).progress| == |z.jobs| && SendsHits(z, After(z, s, e))
  {
    hide After, Enabled;
    WorkersMove(z, s, e);
    ProgressMoves(z, s, e);
    if Mover(e) >= 0 && After(z, s, e).workers[Mover(e)].Sending? {
      SenderHolds(z, s, e);
    }
  }

  lemma AdvanceIsToldOrMissed(z: Search, s: Pool, e: Step)
    requires Shaped(z, s) && Owners(z, s) && SendsHits(z, s) && Enabled(z, s, e) && Advanced(z, s, e) >= 0
    ensures var j := Advanced(z, s, e);
            && j < s.next
            && z.hit(z.jobs[j][s.progress[j]]) == e.Send?
            && (e.Send? ==> Added(z, s, e) == [Found(j, z.jobs[j][s.progress[j]])])
  {
  }

  lemma KeepsTold(z: Search, s: Pool, e: Step)
    requires Inv(z, s) && Enabled(z, s, e)
    ensures Shaped(z, After(z, s, e)) && Told(z, After(z, s, e))
  {
    hide After, Of, HitsUpTo, Followed, Counted, Enabled, Owners, SendsHits;
    var t, job := After(z, s, e), Advanced(z, s, e);
    KeepsShape(z, s, e);
    WorkersMove(z, s, e);
    ProgressMoves(z, s, e);
    StreamMoves(z, s, e);
    assert s.Stream() + [] == s.Stream();
    if job >= 0 {
      AdvanceIsToldOrMissed(z, s, e);
      HitsStep(z, job, s.progress[job]);
      forall j: nat | j < |z.jobs|
        ensures Of(t.Stream(), j) == HitsUpTo(z, j, t.progress[j])
      {
        OfStep(s.Stream(), Found(job, z.jobs[job][s.progress[job]]), j);
      }
    }
  }

  lemma OwnedMoves(z: Search, s: Pool, e: Step, j: nat)
    requires Shaped(z, s) && Enabled(z, s, e) && j < |z.jobs| && Owned(s.workers, j)
    ensures var t := After(z, s, e);
            |t.progress| == |z.jobs|
            && (Owned(t.workers, j) || t.progress[j] == |z.jobs[j]| || j in t.vanished || t.Done())
  {
    hide After, Enabled;
    WorkersMove(z, s, e);
    ProgressMoves(z, s, e);
    var w :| 0 <= w < |s.workers| && JobOf(s.workers[w]) == j;
    if JobOf(After(z, s, e).workers[w]) == j {
    } else {
      Released(z, s, e, j);
    }
  }

  /** When a worker lets go of a job. */
  lemma Released(z: Search, s: Pool, e: Step, j: nat)
    requires Shaped(z, s) && Enabled(z, s, e) && j < |z.jobs| && Mover(e) >= 0
    requires JobOf(s.workers[Mover(e)]) == j != JobOf(After(z, s, e).workers[Mover(e)])
    ensures var t := After(z, s, e);
            |t.progress| == |z.jobs| && (t.progress[j] == |z.jobs[j]| || j in t.vanished || t.Done())
  {
  }

  lemma SignalsMove(z: Search, s: Pool, e: Step)
    requires Shaped(z, s) && Enabled(z, s, e)
    ensures var t := After(z, s, e);
            && (s.Done() ==> t.Done()) && s.vanished <= t.vanished && (t.feeding ==> s.feeding)
            && (s.feeding && !t.feeding && !t.Done() ==> s.next == |z.jobs|)
            && (e.Take? ==> s.feeding && t.feeding)
            && (Mover(e) >= 0 && t.workers[Mover(e)].Gone? && !t.Done() ==> !t.feeding)
  {
  }

  lemma KeepsFollowed(z: Search, s: Pool, e: Step)
    requires Inv(z, s) && Enabled(z, s, e)
    ensures Shaped(z, After(z, s, e)) && Followed(z, After(z, s, e))
  {
    hide After, Told, SendsHits, Enabled, Counted;
    var t := After(z, s, e);
    KeepsShape(z, s, e);
    WorkersMove(z, s, e);
    ProgressMoves(z, s, e);
    SignalsMove(z, s, e);
    forall j: nat | j < t.next && !t.Done() && j !in t.vanished
      ensures t.progress[j] == |z.jobs[j]| || Owned(t.workers, j)
    {
      if j == s.next {
        assert JobOf(t.workers[Mover(e)]) == j;
      } else if Owned(s.workers, j) {
        OwnedMoves(z, s, e, j);
      }
    }
  }

  lemma KeepsCounted(z: Search, s: Pool, e: Step)
    requires Shaped(z, s) && Counted(z, s) && Enabled(z, s, e)
    ensures Counted(z, After(z, s, e))
  {
  }

  /** Every step of every schedule keeps the invariant. */
  lemma StepKeeps(z: Search, s: Pool, e: Step)
    requires Inv(z, s) && Enabled(z, s, e)
    ensures Inv(z, After(z, s, e))
  {
    hide After, Owners, SendsHits, Told, Followed, Counted;
    KeepsOwners(z, s, e);
    KeepsSends(z, s, e);
    KeepsTold(z, s, e);
    KeepsFollowed(z, s, e);
    KeepsCounted(z, s, e);
  }

  // ----- Runs -----

  /** The steps lead from `s` to `t`. */
  ghost predicate Leads(z: Search, s: Pool, steps: seq<Step>, t: Pool)
    decreases |steps|
  {
    if steps == [] then s == t
    else Shaped(z, s) && Enabled(z, s, steps[0]) && Leads(z, After(z, s, steps[0]), steps[1..], t)
  }

  lemma {:induction false} RunKeeps(z: Search, s: Pool, steps: seq<Step>, t: Pool)
    requires Inv(z, s) && Leads(z, s, steps, t)
    ensures Inv(z, t)
    decreases |steps|
  {
    if steps != [] {
      StepKeeps(z, s, steps[0]);
      RunKeeps(z, After(z, s, steps[0]), steps[1..], t);
    }
  }

  lemma {:induction false} OfConcat(a: seq<Found>, b: seq<Found>, job: nat)
    ensures Of(a + b, job) == Of(a, job) + Of(b, job)
  {
    if b == [] {
      assert a + b == a;
    } else {
      var n := |b| - 1;
      assert (a + b)[..|a + b| - 1] == a + b[..n];
      OfConcat(a, b[..n], job);
    }
  }

  lemma HitsSplit(z: Search, job: nat, at: nat)
    requires job < |z.jobs| && at <= |z.jobs[job]|
    ensures Filter(z.hit, z.jobs[job]) == HitsUpTo(z, job, at) + Filter(z.hit, z.jobs[job][at..])
  {
    assert z.jobs[job] == z.jobs[job][..at] + z.jobs[job][at..];
    FilterConcat(z.hit, z.jobs[job][..at], z.jobs[job][at..]);
  }

  /** What the client has, whenever one looks: no more than the limit, and of
      each job a first part of its matches, in line order. */
  lemma SentIsSafe(z: Search, workers: nat, steps: seq<Step>, s: Pool)
    requires workers >= 1 && z.max >= 1 && Leads(z, Start(z, workers), steps, s)
    ensures |s.sent| <= z.max
    ensures forall k :: 0 <= k < |s.sent| ==> s.sent[k].job < s.next <= |z.jobs|
    ensures forall j :: 0 <= j < |z.jobs| ==> Of(s.sent, j) <= Filter(z.hit, z.jobs[j])
    ensures forall j :: s.next <= j < |z.jobs| ==> Of(s.sent, j) == []
  {
    hide Filter, Of, Leads;
    StartHolds(z, workers);
    RunKeeps(z, Start(z, workers), steps, s);
    forall k | 0 <= k < |s.sent|
      ensures s.sent[k].job < s.next <= |z.jobs|
    {
      assert s.sent[k] == s.Stream()[k];
    }
    forall j: nat | j < |z.jobs|
      ensures Of(s.sent, j) <= Filter(z.hit, z.jobs[j])
      ensures s.next <= j ==> Of(s.sent, j) == []
    {
      SentOfJob(z, s, j);
    }
  }

  lemma SentOfJob(z: Search, s: Pool, j: nat)
    requires Inv(z, s) && j < |z.jobs|
    ensures Of(s.sent, j) <= Filter(z.hit, z.jobs[j])
    ensures s.next <= j ==> Of(s.sent, j) == []
    ensures s.sent == s.Stream() ==> Of(s.sent, j) == HitsUpTo(z, j, s.progress[j])
  {
    hide Owners, SendsHits, Counted, Of, Filter;
    HitsSplit(z, j, s.progress[j]);
    OfConcat(s.sent, s.drained + s.channel, j);
    Associate(s.sent, s.drained, s.channel);
    if s.next <= j {
      assert z.jobs[j][..0] == [];
      FilterEmpty(z.hit);
    }
  }

  /** A search that ends by itself short of the limit, without having been
      cancelled, has sent exactly the matches of every segment it could open;
      and it says it is truncated if and only if it sent as many as the limit. */
  lemma EndedIsComplete(z: Search, workers: nat, steps: seq<Step>, s: Pool)
    requires workers >= 1 && z.max >= 1 && Leads(z, Start(z, workers), steps, s)
    ensures s.consumer == Finished(true) <==> |s.sent| == z.max
    ensures s.consumer == Finished(false) && !s.cancelled ==>
              forall j :: 0 <= j < |z.jobs| && j !in s.vanished ==> Of(s.sent, j) == Filter(z.hit, z.jobs[j])
  {
    hide Leads;
    StartHolds(z, workers);
    RunKeeps(z, Start(z, workers), steps, s);
    if s.consumer == Finished(false) && !s.cancelled {
      AllFollowed(z, s);
      hide Inv, Of, Filter;
      forall j: nat | j < |z.jobs| && j !in s.vanished
        ensures Of(s.sent, j) == Filter(z.hit, z.jobs[j])
      {
        SentOfJob(z, s, j);
        assert z.jobs[j][..|z.jobs[j]|] == z.jobs[j];
      }
    }
  }

  // ----- Truncation, in terms of the matches there are -----

  function TotalHits(z: Search, n: nat): nat
    requires n <= |z.jobs|
  {
    if n == 0 then 0 else TotalHits(z, n - 1) + |Filter(z.hit, z.jobs[n - 1])|
  }

  /** How much was found in the first `n` jobs. */
  function Counts(found: seq<Found>, n: nat): nat {
    if n == 0 then 0 else Counts(found, n - 1) + |Of(found, n - 1)|
  }

  lemma {:induction false} CountsStep(found: seq<Found>, x: Found, n: nat)
    ensures Counts(found + [x], n) == Counts(found, n) + if x.job < n then 1 else 0
  {
    hide Of;
    if n > 0 {
      CountsStep(found, x, n - 1);
      OfStep(found, x, n - 1);
    }
  }

  lemma {:induction false} CountsAll(found: seq<Found>, n: nat)
    requires forall k :: 0 <= k < |found| ==> found[k].job < n
    ensures Counts(found, n) == |found|
  {
    if found == [] {
      CountsNothing(n);
    } else {
      var m := |found| - 1;
      assert found == found[..m] + [found[m]];
      CountsAll(found[..m], n);
      CountsStep(found[..m], found[m], n);
    }
  }

  lemma {:induction false} CountsNothing(n: nat)
    ensures Counts([], n) == 0
  {
    if n > 0 {
      CountsNothing(n - 1);
    }
  }

  /** Finding a first part of every job's hits is finding no more than there
      are, and as many only if it is finding all. */
  lemma {:induction false} CountsBounded(z: Search, found: seq<Found>, n: nat)
    requires n <= |z.jobs| && forall j :: 0 <= j < n ==> Of(found, j) <= Filter(z.hit, z.jobs[j])
    ensures Counts(found, n) <= TotalHits(z, n)
    ensures Counts(found, n) == TotalHits(z, n) <==> forall j :: 0 <= j < n ==> Of(found, j) == Filter(z.hit, z.jobs[j])
  {
    hide Of, Filter;
    if n > 0 {
      CountsBounded(z, found, n - 1);
    }
  }

  /** A search that ran to its end, not cancelled and with every file opened,
      reports truncation if and only if there are at least as many matches as
      the limit; and it has left something out exactly when there are more. */
  lemma TruncatedExactly(z: Search, workers: nat, steps: seq<Step>, s: Pool)
    requires workers >= 1 && z.max >= 1 && Leads(z, Start(z, workers), steps, s)
    requires s.consumer.Finished? && !s.cancelled && s.vanished == {}
    ensures s.consumer == Finished(true) <==> z.max <= TotalHits(z, |z.jobs|)
    ensures TotalHits(z, |z.jobs|) <= z.max
       <==> forall j :: 0 <= j < |z.jobs| ==> Of(s.sent, j) == Filter(z.hit, z.jobs[j])
  {
    hide Leads, Of, Filter, Counts, TotalHits;
    SentIsSafe(z, workers, steps, s);
    EndedIsComplete(z, workers, steps, s);
    CountsAll(s.sent, |z.jobs|);
    CountsBounded(z, s.sent, |z.jobs|);
  }

  lemma AllFollowed(z: Search, s: Pool)
    requires Inv(z, s) && s.consumer == Finished(false) && !s.cancelled
    ensures s.sent == s.Stream()
    ensures forall j :: 0 <= j < |z.jobs| && j !in s.vanished ==> s.progress[j] == |z.jobs[j]|
  {
    hide Told, SendsHits, Owners;
    assert s.drained == [];
    assert s.workers[0] == Gone;
    assert s.next == |z.jobs|;
    forall j: nat | j < |z.jobs| && j !in s.vanished
      ensures s.progress[j] == |z.jobs[j]|
    {
      GoneOwnNothing(s, j);
    }
  }

  lemma GoneOwnNothing(s: Pool, j: nat)
    ensures s.AllGone() ==> !Owned(s.workers, j)
  {
  }

  /** A search may say it is truncated when nothing was left out: with exactly
      as many matches as the limit, each one sent. */
  lemma TruncatedWithNothingMissing(z: Search, line: Text) returns (steps: seq<Step>, s: Pool)
    requires z.jobs == [[line]] && z.hit(line) && z.max == 1
    ensures Leads(z, Start(z, 1), steps, s) && s.consumer == Finished(true) && s.sent == [Found(0, line)]
    ensures Of(s.sent, 0) == Filter(z.hit, z.jobs[0]) == [line]
  {
    hide Filter, Of, Leads, Shaped, Enabled, After;
    var end := [Send(0), Receive(true)];
    s := Pool(1, [1], [Reading(0)], true, [], [Found(0, line)], [], {}, true, false, Finished(true));
    var s3 := Pool(1, [0], [Sending(0)], true, [], [], [], {}, false, false, Receiving);
    OneLineSent(z, line, s3, s);
    OneLineFound(z, line, s3);
    steps := [Take(0)] + ([Open(0, true)] + ([Read(0)] + end));
    LeadsMore(z, Pool(1, [0], [Reading(0)], true, [], [], [], {}, false, false, Receiving), Read(0), end, s);
    LeadsMore(z, Pool(1, [0], [Holding(0)], true, [], [], [], {}, false, false, Receiving), Open(0, true),
              [Read(0)] + end, s);
    LeadsMore(z, Start(z, 1), Take(0), [Open(0, true)] + ([Read(0)] + end), s);
    OfStep([], Found(0, line), 0);
    FilterStep(z.hit, [], line);
    OfNothing(0);
    FilterEmpty(z.hit);
    assert [] + [line] == [line] && [] + [Found(0, line)] == [Found(0, line)];
  }

  lemma OfNothing(job: nat)
    ensures Of([], job) == []
  {
  }

  lemma OneLineSent(z: Search, line: Text, s: Pool, t: Pool)
    requires z.jobs == [[line]] && z.max == 1
    requires s == Pool(1, [0], [Sending(0)], true, [], [], [], {}, false, false, Receiving)
    requires t == Pool(1, [1], [Reading(0)], true, [], [Found(0, line)], [], {}, true, false, Finished(true))
    ensures Leads(z, s, [Send(0), Receive(true)], t)
  {
    var told := Pool(1, [1], [Reading(0)], true, [Found(0, line)], [], [], {}, false, false, Receiving);
    assert After(z, s, Send(0)) == told;
    assert After(z, told, Receive(true)) == t;
    LeadsMore(z, told, Receive(true), [], t);
    LeadsMore(z, s, Send(0), [Receive(true)], t);
    assert [Send(0)] + [Receive(true)] == [Send(0), Receive(true)] && [Receive(true)] + [] == [Receive(true)];
  }

  lemma OneLineFound(z: Search, line: Text, s: Pool)
    requires z.jobs == [[line]] && z.hit(line)
    requires s == Pool(1, [0], [Sending(0)], true, [], [], [], {}, false, false, Receiving)
    ensures var held := s.(workers := [Holding(0)]); var read := s.(workers := [Reading(0)]);
            && Shaped(z, Start(z, 1)) && Enabled(z, Start(z, 1), Take(0)) && After(z, Start(z, 1), Take(0)) == held
            && Shaped(z, held) && Enabled(z, held, Open(0, true)) && After(z, held, Open(0, true)) == read
            && Shaped(z, read) && Enabled(z, read, Read(0)) && After(z, read, Read(0)) == s
  {
    assert Start(z, 1) == s.(next := 0, workers := [Idle]);
  }

  lemma LeadsMore(z: Search, s: Pool, e: Step, steps: seq<Step>, t: Pool)
    requires Shaped(z, s) && Enabled(z, s, e) && Leads(z, After(z, s, e), steps, t)
    ensures Leads(z, s, [e] + steps, t)
  {
    hide Shaped, Enabled, After;
    assert ([e] + steps)[1..] == steps;
  }

  // ----- Every schedule ends -----

  function Rank(w: Worker): nat {
    match w
    case Idle => 1
    case Holding(_) => 6
    case Reading(_) => 4
    case Sending(_) => 3
    case Gone => 0
  }

  function Ranks(workers: seq<Worker>): nat {
    if workers == [] then 0 else Rank(workers[0]) + Ranks(workers[1..])
  }

  function Left(jobs: seq<seq<Text>>, progress: seq<nat>): int
    requires |jobs| == |progress|
  {
    if jobs == [] then 0 else |jobs[0]| - progress[0] + Left(jobs[1..], progress[1..])
  }

  lemma {:induction false} RanksUpdate(workers: seq<Worker>, w: nat, x: Worker)
    requires w < |workers|
    ensures Ranks(workers[w := x]) == Ranks(workers) - Rank(workers[w]) + Rank(x)
  {
    if w > 0 {
      RanksUpdate(workers[1..], w - 1, x);
      assert workers[w := x][1..] == workers[1..][w - 1 := x];
    } else {
      assert workers[0 := x][1..] == workers[1..];
    }
  }

  lemma {:induction false} LeftUpdate(jobs: seq<seq<Text>>, progress: seq<nat>, j: nat)
    requires |jobs| == |progress| && j < |jobs|
    ensures Left(jobs, progress[j := progress[j] + 1]) == Left(jobs, progress) - 1
  {
    var p := progress[j := progress[j] + 1];
    if j > 0 {
      LeftUpdate(jobs[1..], progress[1..], j - 1);
      assert p[1..] == progress[1..][j - 1 := progress[1..][j - 1] + 1];
    } else {
      assert p[1..] == progress[1..];
    }
  }

  lemma {:induction false} LeftNotNegative(jobs: seq<seq<Text>>, progress: seq<nat>)
    requires |jobs| == |progress| && forall j :: 0 <= j < |jobs| ==> progress[j] <= |jobs[j]|
    ensures Left(jobs, progress) >= 0
  {
    if jobs != [] {
      LeftNotNegative(jobs[1..], progress[1..]);
    }
  }

  /** How many steps can still be made. */
  function Measure(z: Search, s: Pool): int
    requires Shaped(z, s)
  {
    8 * (|z.jobs| - s.next) + Ranks(s.workers) + 3 * Left(z.jobs, s.progress) + |s.channel| + Signals(s)
  }

  function Signals(s: Pool): nat {
    (if s.feeding then 1 else 0) + (if s.consumer.Receiving? then 1 else 0) + (if s.cancelled then 0 else 1)
  }

  lemma RankMoves(z: Search, s: Pool, e: Step)
    requires Shaped(z, s) && Enabled(z, s, e)
    ensures var t, w := After(z, s, e), Mover(e);
            8 * (s.next - t.next) + (if w >= 0 then Rank(t.workers[w]) - Rank(s.workers[w]) else 0)
            + (if Advanced(z, s, e) >= 0 then -3 else 0) + |t.channel| - |s.channel| + Signals(t) - Signals(s) < 0
  {
    WorkersMove(z, s, e);
  }

  /** Every step brings the end nearer, so no schedule makes more steps than
      the measure of the state it starts in. */
  lemma StepsRunOut(z: Search, s: Pool, e: Step)
    requires Shaped(z, s) && Enabled(z, s, e) && Counted(z, s)
    ensures Shaped(z, After(z, s, e)) && 0 <= Measure(z, After(z, s, e)) < Measure(z, s)
  {
    hide After, Enabled, Rank, Counted, Signals, Advanced;
    var t, w, j := After(z, s, e), Mover(e), Advanced(z, s, e);
    KeepsShape(z, s, e);
    WorkersMove(z, s, e);
    ProgressMoves(z, s, e);
    RankMoves(z, s, e);
    if w >= 0 {
      RanksUpdate(s.workers, w, t.workers[w]);
    }
    if j >= 0 {
      LeftUpdate(z.jobs, s.progress, j);
    }
    LeftNotNegative(z.jobs, t.progress);
  }

  lemma {:induction false} RunsAreBounded(z: Search, s: Pool, steps: seq<Step>, t: Pool)
    requires Inv(z, s) && Leads(z, s, steps, t)
    ensures Inv(z, t) && |steps| + Measure(z, t) <= Measure(z, s) && 0 <= Measure(z, t)
    decreases |steps|
  {
    hide After, Enabled, Owners, SendsHits, Told, Followed, Counted, Measure;
    if steps == [] {
      MeasureNotNegative(z, s);
    } else {
      StepKeeps(z, s, steps[0]);
      StepsRunOut(z, s, steps[0]);
      RunsAreBounded(z, After(z, s, steps[0]), steps[1..], t);
    }
  }

  lemma MeasureNotNegative(z: Search, s: Pool)
    requires Shaped(z, s)
    ensures Measure(z, s) >= 0
  {
    LeftNotNegative(z.jobs, s.progress);
  }

  /** Nothing is left running.  A failed consumer leaves the channel as it is. */
  predicate Settled(s: Pool) {
    s.AllGone() && !s.feeding && !s.consumer.Receiving? && (s.channel == [] || s.consumer.Failed?)
  }

  /** No deadlock: until everything has ended, a step other than cancelling the
      search is always possible. */
  lemma NeverStuck(z: Search, s: Pool) returns (e: Step)
    requires Inv(z, s) && !Settled(s)
    ensures Enabled(z, s, e) && e != Cancel
  {
    hide Told;
    if s.channel != [] && !s.consumer.Failed? {
      e := if s.consumer.Receiving? then Receive(true) else Drain;
    } else if s.AllGone() {
      assert s.workers[0].Gone?;
      e := if s.consumer.Receiving? then End else StopFeeding;
    } else {
      var w: nat :| w < |s.workers| && s.workers[w] != Gone;
      e := match s.workers[w]
        case Idle => if !s.feeding then Leave(w) else if s.next < |z.jobs| then Take(w) else StopFeeding
        case Holding(_) => Open(w, true)
        case Reading(_) => Read(w)
        case Sending(_) => if s.Done() then Abandon(w) else Send(w);
    }
  }
}
