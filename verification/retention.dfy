/** Retention (storage/retention.go): which segments a sweep deletes, and what
    that means for the age of a line over a whole run. */
module Retention {
  import opened Bytes
  import opened Writer

  /** dailySweepDelay: five minutes. */
  const DELAY: Time := 300 * SECOND

  /** nextDailySweep: the first UTC midnight plus the delay after `now`. */
  function NextDailySweep(now: Time): (next: Time)
    ensures now < next && next == TruncateToDay(next) + DELAY
    ensures next % 86_400_000_000_000 == 300_000_000_000
  {
    var next := TruncateToDay(now) + DELAY;
    if next <= now then next + DAY else next
  }

  /** No other midnight plus the delay comes between. */
  lemma NextDailySweepIsFirst(now: Time, day: int)
    requires now < day * DAY + DELAY
    ensures NextDailySweep(now) <= day * DAY + DELAY
  {
    assert DayOf(now) <= day;
    if DayOf(now) == day {
      assert TruncateToDay(now) == day * DAY;
    } else {
      assert TruncateToDay(now) + DAY <= day * DAY;
    }
  }

  /** The first day a sweep at `now` keeps. */
  function Cutoff(now: Time, retentionDays: nat): Time {
    TruncateToDay(now) - retentionDays * DAY
  }

  predicate Expired(dateOf: Text -> Option<Time>, cutoff: Time, p: Path) {
    dateOf(p.segment).Some? && dateOf(p.segment).value < cutoff
  }

  /** The store without the expired files of `listed` that could be removed. */
  function Survivors<V>(files: map<Path, V>, listed: set<Path>, dateOf: Text -> Option<Time>, cutoff: Time,
                        removeOk: Path -> bool): (r: map<Path, V>)
    ensures forall p :: p in r <==> p in files && !(p in listed && Expired(dateOf, cutoff, p) && removeOk(p))
    ensures forall p :: p in r ==> r[p] == files[p]
  {
    map p | p in files && !(p in listed && Expired(dateOf, cutoff, p) && removeOk(p)) :: files[p]
  }

  function Named(listing: seq<Path>): (r: set<Path>)
    ensures forall p :: p in r <==> p in listing
  {
    set p | p in listing
  }

  /** sweepPodDirLocked, for the files of one container directory. */
  method SweepContainer(store: LogStore, segments: seq<Path>, dateOf: Text -> Option<Time>, cutoff: Time,
                        removeOk: Path -> bool) returns (deleted: nat)
    requires forall i, j :: 0 <= i < j < |segments| ==> segments[i] != segments[j]
    requires forall i :: 0 <= i < |segments| ==> segments[i] in store.files
    modifies store`files
    ensures store.files == Survivors(old(store.files), Named(segments), dateOf, cutoff, removeOk)
    ensures deleted == |old(store.files)| - |store.files|
  {
    hide Expired, Survivors;
    deleted := 0;
    for i := 0 to |segments|
      invariant store.files == Survivors(old(store.files), Named(segments[..i]), dateOf, cutoff, removeOk)
      invariant deleted == |old(store.files)| - |store.files|
    {
      var p := segments[i];
      ListedStep(segments, i);
      SurvivorsStep(old(store.files), Named(segments[..i]), p, dateOf, cutoff, removeOk);
      assert Named(segments[..i + 1]) == Named(segments[..i]) + {p};
      if Expired(dateOf, cutoff, p) && removeOk(p) {
        RemoveOne(store.files, p);
        store.files := store.files - {p};
        deleted := deleted + 1;
      }
    }
    assert segments[..|segments|] == segments;
  }

  lemma ListedStep(segments: seq<Path>, i: nat)
    requires i < |segments| && forall i, j :: 0 <= i < j < |segments| ==> segments[i] != segments[j]
    ensures segments[i] !in segments[..i]
    ensures forall p :: p in segments[..i + 1] <==> p in segments[..i] || p == segments[i]
  {
    assert segments[..i + 1] == segments[..i] + [segments[i]];
  }

  lemma SurvivorsStep<V>(files: map<Path, V>, listed: set<Path>, p: Path, dateOf: Text -> Option<Time>, cutoff: Time,
                         removeOk: Path -> bool)
    requires p !in listed && p in files
    ensures var left := Survivors(files, listed, dateOf, cutoff, removeOk);
            && p in left
            && Survivors(files, listed + {p}, dateOf, cutoff, removeOk)
               == if Expired(dateOf, cutoff, p) && removeOk(p) then left - {p} else left
  {
    hide Expired;
  }

  lemma RemoveOne<V>(files: map<Path, V>, p: Path)
    requires p in files
    ensures |files - {p}| == |files| - 1
  {
    assert files == (files - {p})[p := files[p]];
  }

  lemma SurvivorsTwice<V>(files: map<Path, V>, a: set<Path>, b: set<Path>, dateOf: Text -> Option<Time>, cutoff: Time,
                          removeOk: Path -> bool)
    ensures Survivors(Survivors(files, a, dateOf, cutoff, removeOk), b, dateOf, cutoff, removeOk)
         == Survivors(files, a + b, dateOf, cutoff, removeOk)
    ensures Survivors(files, {}, dateOf, cutoff, removeOk) == files
  {
    hide Expired;
  }

  /** sweepSegments, container by container. */
  method SweepSegments(store: LogStore, containers: seq<seq<Path>>, dateOf: Text -> Option<Time>, cutoff: Time,
                       removeOk: Path -> bool) returns (deleted: nat)
    requires Listing(containers, store.files)
    modifies store`files
    ensures store.files == Survivors(old(store.files), AllListed(containers), dateOf, cutoff, removeOk)
    ensures deleted == |old(store.files)| - |store.files|
  {
    hide Expired, Survivors, Listing;
    ghost var files := store.files;
    deleted := 0;
    SurvivorsTwice(files, {}, {}, dateOf, cutoff, removeOk);
    for c := 0 to |containers|
      invariant store.files == Survivors(files, AllListed(containers[..c]), dateOf, cutoff, removeOk)
      invariant deleted == |files| - |store.files|
    {
      assert containers[..c + 1][..c] == containers[..c];
      StillListed(containers, files, c);
      var n := SweepContainer(store, containers[c], dateOf, cutoff, removeOk);
      SurvivorsTwice(files, AllListed(containers[..c]), Named(containers[c]), dateOf, cutoff, removeOk);
      deleted := deleted + n;
    }
    assert containers[..|containers|] == containers;
  }

  function AllListed(containers: seq<seq<Path>>): set<Path> {
    if containers == [] then {}
    else AllListed(containers[..|containers| - 1]) + Named(containers[|containers| - 1])
  }

  /** A listing names every file at most once, and only files there are. */
  ghost predicate Listing<V>(containers: seq<seq<Path>>, files: map<Path, V>) {
    && (forall c, i, j :: 0 <= c < |containers| && 0 <= i < j < |containers[c]| ==>
          containers[c][i] != containers[c][j])
    && (forall c, i :: 0 <= c < |containers| && 0 <= i < |containers[c]| ==> containers[c][i] in files)
    && forall b, c, p :: 0 <= b < c < |containers| && p in containers[b] ==> p !in containers[c]
  }

  /** The files of a container are still there when its turn comes. */
  lemma StillListed<V>(containers: seq<seq<Path>>, files: map<Path, V>, c: nat)
    requires c < |containers| && Listing(containers, files)
    ensures forall i, j :: 0 <= i < j < |containers[c]| ==> containers[c][i] != containers[c][j]
    ensures forall i :: 0 <= i < |containers[c]| ==>
              containers[c][i] in files && containers[c][i] !in AllListed(containers[..c])
  {
    forall i | 0 <= i < |containers[c]|
      ensures containers[c][i] !in AllListed(containers[..c])
    {
      ListedSomewhere(containers[..c], containers[c][i]);
    }
  }

  lemma {:induction false} ListedSomewhere(containers: seq<seq<Path>>, p: Path)
    ensures p in AllListed(containers) <==> exists c :: 0 <= c < |containers| && p in containers[c]
  {
    if containers != [] {
      ListedSomewhere(containers[..|containers| - 1], p);
    }
  }

  // ----- The two sides of one sweep -----

  /** A line in the segment of its own day: a sweep that deletes it finds it
      more than the retention old, and one that finds it a day older than that
      deletes it. */
  lemma SweepSides(dateOf: Text -> Option<Time>, now: Time, retentionDays: nat, p: Path, t: Time)
    requires dateOf(p.segment) == Some(TruncateToDay(t))
    ensures Expired(dateOf, Cutoff(now, retentionDays), p) <==> DayOf(t) + retentionDays < DayOf(now)
    ensures Expired(dateOf, Cutoff(now, retentionDays), p) ==> now - t > retentionDays * DAY
    ensures now - t >= (retentionDays + 1) * DAY ==> Expired(dateOf, Cutoff(now, retentionDays), p)
  {
  }

  // ----- Whole runs -----

  /** The manager's clock and timer, and the times of the lines in each file.
      `stuck` are expired files that could not be removed. */
  datatype Run = Run(now: Time, due: Time, times: map<Path, seq<Time>>, stuck: set<Path>)

  /** The policy: whole days kept, and how late the daily timer may fire. */
  datatype Policy = Policy(retentionDays: nat, late: nat, dateOf: Text -> Option<Time>)

  datatype Event =
    | Wait(span: nat)
    | Arrive(p: Path)              // a line is stored as it arrives
    | Sweep(daily: bool, removeOk: Path -> bool)

  predicate Allowed(k: Policy, s: Run, e: Event) {
    match e
    case Wait(span) => s.now + span <= s.due + k.late
    case Arrive(p) => k.dateOf(p.segment) == Some(TruncateToDay(s.now))
    case Sweep(daily, _) => daily ==> s.due <= s.now
  }

  function Swept(k: Policy, s: Run, removeOk: Path -> bool): Run {
    var cutoff := Cutoff(s.now, k.retentionDays);
    s.(times := Survivors(s.times, s.times.Keys, k.dateOf, cutoff, removeOk),
       stuck := set p | p in s.times && Expired(k.dateOf, cutoff, p) && !removeOk(p))
  }

  function Happens(k: Policy, s: Run, e: Event): Run {
    match e
    case Wait(span) => s.(now := s.now + span)
    case Arrive(p) => s.(times := s.times[p := (if p in s.times then s.times[p] else []) + [s.now]])
    case Sweep(daily, removeOk) =>
      var t := Swept(k, s, removeOk);
      if daily then t.(due := NextDailySweep(s.now)) else t
  }

  /** Every line is in the segment of its own day, and not from the future. */
  ghost predicate InOwnDays(k: Policy, s: Run) {
    forall p :: p in s.times ==>
                  forall t :: t in s.times[p] ==> t <= s.now && k.dateOf(p.segment) == Some(TruncateToDay(t))
  }

  /** The timer is set to the next daily sweep, or is at most `late` behind. */
  ghost predicate OnTime(k: Policy, s: Run) {
    s.due == TruncateToDay(s.due) + DELAY && s.due - DAY <= s.now <= s.due + k.late
  }

  /** No file is left from before the last daily sweep's cutoff. */
  ghost predicate Bounded(k: Policy, s: Run) {
    forall p :: p in s.times && p !in s.stuck && k.dateOf(p.segment).Some? ==>
                  TruncateToDay(s.due) - (k.retentionDays + 1) * DAY <= k.dateOf(p.segment).value
  }

  ghost predicate Inv(k: Policy, s: Run) {
    InOwnDays(k, s) && OnTime(k, s) && Bounded(k, s)
  }

  /** Run starts with a sweep of whatever is there, and sets the timer. */
  function Begin(k: Policy, now: Time, times: map<Path, seq<Time>>, removeOk: Path -> bool): Run {
    Swept(k, Run(now, NextDailySweep(now), times, {}), removeOk)
  }

  lemma TimerReach(now: Time)
    ensures NextDailySweep(now) - DAY <= now
  {
  }

  /** The timer's day is at most the day after the clock's. */
  lemma DayReach(due: Time, now: Time)
    requires due == TruncateToDay(due) + DELAY && due - DAY <= now
    ensures TruncateToDay(due) - DAY <= TruncateToDay(now)
  {
  }

  lemma SweepBounds(k: Policy, s: Run, removeOk: Path -> bool)
    requires InOwnDays(k, s) && TruncateToDay(s.due) - DAY <= TruncateToDay(s.now)
    ensures InOwnDays(k, Swept(k, s, removeOk)) && Bounded(k, Swept(k, s, removeOk))
  {
  }

  lemma SweepKeeps(k: Policy, s: Run, removeOk: Path -> bool)
    requires InOwnDays(k, s) && OnTime(k, s)
    ensures Inv(k, Swept(k, s, removeOk))
  {
    hide Survivors, InOwnDays, Bounded, TruncateToDay;
    DayReach(s.due, s.now);
    SweepBounds(k, s, removeOk);
  }

  lemma BeginHolds(k: Policy, now: Time, times: map<Path, seq<Time>>, removeOk: Path -> bool)
    requires InOwnDays(k, Run(now, NextDailySweep(now), times, {}))
    ensures Inv(k, Begin(k, now, times, removeOk))
  {
    hide InOwnDays, Swept, Bounded;
    TimerReach(now);
    SweepKeeps(k, Run(now, NextDailySweep(now), times, {}), removeOk);
  }

  lemma ArriveKeeps(k: Policy, s: Run, p: Path)
    requires Inv(k, s) && k.dateOf(p.segment) == Some(TruncateToDay(s.now))
    ensures Inv(k, Happens(k, s, Arrive(p)))
  {
    hide TruncateToDay;
    DayReach(s.due, s.now);
  }

  /** Everything that happens keeps the invariant. */
  lemma StepKeeps(k: Policy, s: Run, e: Event)
    requires Inv(k, s) && Allowed(k, s, e)
    ensures Inv(k, Happens(k, s, e))
  {
    match e
    case Wait(_) =>
    case Arrive(p) =>
      ArriveKeeps(k, s, p);
    case Sweep(daily, removeOk) =>
      var set' := if daily then s.(due := NextDailySweep(s.now)) else s;
      TimerReach(s.now);
      hide NextDailySweep, Survivors, TruncateToDay, Bounded;
      SweepKeeps(k, set', removeOk);
  }

  ghost predicate Leads(k: Policy, s: Run, events: seq<Event>, t: Run)
    decreases |events|
  {
    if events == [] then s == t
    else Allowed(k, s, events[0]) && Leads(k, Happens(k, s, events[0]), events[1..], t)
  }

  lemma {:induction false} RunKeeps(k: Policy, s: Run, events: seq<Event>, t: Run)
    requires Inv(k, s) && Leads(k, s, events, t)
    ensures Inv(k, t)
    decreases |events|
  {
    hide Allowed, Happens, Inv;
    if events != [] {
      StepKeeps(k, s, events[0]);
      RunKeeps(k, Happens(k, s, events[0]), events[1..], t);
    }
  }

  /** The upper side: a stored line, of a file whose removal did not fail, is
      never more than the retention, a day, five minutes and the timer's
      lateness old, and is exactly so only at the instant of a sweep. */
  lemma StoredLinesAreYoung(k: Policy, start: Time, times: map<Path, seq<Time>>, removeOk: Path -> bool,
                            events: seq<Event>,
                            s: Run, p: Path, t: Time)
    requires InOwnDays(k, Run(start, NextDailySweep(start), times, {}))
    requires Leads(k, Begin(k, start, times, removeOk), events, s)
    requires p in s.times && p !in s.stuck && t in s.times[p]
    ensures 0 <= s.now - t <= (k.retentionDays + 1) * DAY + DELAY + k.late
    ensures s.now < s.due + k.late ==> s.now - t < (k.retentionDays + 1) * DAY + DELAY + k.late
  {
    hide NextDailySweep, Leads, Begin;
    BeginHolds(k, start, times, removeOk);
    RunKeeps(k, Begin(k, start, times, removeOk), events, s);
  }

  lemma StepLosesNoYoung(k: Policy, s: Run, e: Event, p: Path, t: Time)
    requires Inv(k, s) && Allowed(k, s, e) && p in s.times && t in s.times[p]
    ensures s.now <= Happens(k, s, e).now
    ensures Happens(k, s, e).now - t <= k.retentionDays * DAY ==>
              p in Happens(k, s, e).times && t in Happens(k, s, e).times[p]
  {
    hide NextDailySweep, TruncateToDay, Cutoff;
    match e
    case Wait(_) =>
    case Arrive(_) =>
    case Sweep(_, _) =>
      SweepSides(k.dateOf, s.now, k.retentionDays, p, t);
  }

  lemma {:induction false} TimePasses(k: Policy, s: Run, events: seq<Event>, t: Run)
    requires Leads(k, s, events, t)
    ensures s.now <= t.now
    decreases |events|
  {
    if events != [] {
      TimePasses(k, Happens(k, s, events[0]), events[1..], t);
    }
  }

  /** The lower side: over any run, whatever sweeps there are, a stored line is
      still stored for as long as it is no older than the retention. */
  lemma {:induction false} YoungLinesStay(k: Policy, s: Run, events: seq<Event>, later: Run, p: Path, t: Time)
    requires Inv(k, s) && Leads(k, s, events, later)
    requires p in s.times && t in s.times[p]
    requires later.now - t <= k.retentionDays * DAY
    ensures p in later.times && t in later.times[p]
    decreases |events|
  {
    hide Allowed, Happens, Inv;
    if events != [] {
      var next := Happens(k, s, events[0]);
      StepKeeps(k, s, events[0]);
      TimePasses(k, next, events[1..], later);
      StepLosesNoYoung(k, s, events[0], p, t);
      YoungLinesStay(k, next, events[1..], later, p, t);
    }
  }
}
