// The debounced workspace watcher (apps/cli/src/run/workspace-watcher.ts) as a machine of
// turns: one turn is what runs between two awaits. What a filesystem event, an inspection
// or a listener answers comes with the turn.

module Watcher {
  import opened Wrappers
  import opened Ordering

  const MAX_PENDING_PATHS: nat := 10_000
  const MAX_SAMPLES_PER_PATH: nat := 32
  const MAX_OUTSTANDING_SAMPLES: nat := 64
  const MAX_WATCHER_ERRORS: nat := 100

  datatype WatcherError =
    | NoPath | PendingLimit | SampleLimit | OutstandingLimit | SampleFailed | FlushFailed | ListenerFailed | FromSystem | Omitted

  /** Samples are promises, known here by number. */
  datatype PendingPath = PendingPath(path: string, lastObservedAt: int, samples: seq<nat>)

  /** Paths still to look at, with the candidates found so far; changes still to deliver;
      or over, with `finishFlush` still to run. `checked`: the samples of the first path are
      in, and its inspection is on its way. */
  datatype Flush =
    | Inspecting(batch: seq<PendingPath>, checked: bool, found: nat)
    | Delivering(changes: nat)
    | Settled

  datatype State = State(
    errors: seq<WatcherError>,
    pending: seq<PendingPath>,
    timer: bool,
    activeFlush: Option<Flush>,
    closed: bool,
    aborted: bool,
    outstandingSamples: nat,
    running: set<nat>,
    nextSample: nat,
    pendingLimitReported: bool,
    sampleLimitReported: bool,
    outstandingSampleLimitReported: bool)

  datatype Turn =
    | Observe(filename: Option<string>, excluded: bool, at: int)
    | SystemError
    | SampleSettles(sample: nat, failed: bool)
    | TimerFires
    | SamplesReady
    | Inspected(candidates: nat, changes: nat)
    | InspectionFails
    | ListenerReturns(failed: bool)
    | FlushFinishes
    | Stop
    | Abort
    | Drain

  const START := State([], [], false, None, false, false, 0, {}, 0, false, false, false)

  // ------------------------------------------------------------ the turns

  /** Relative paths below the root, on a system whose separator is the slash. */
  function NormalizeWatchPath(path: string): Option<string> {
    if path == "" || '\0' in path || path == "." || path == ".." || "../" <= path || path[0] == '/' then None else Some(path)
  }

  function Recorded(errors: seq<WatcherError>, e: WatcherError): seq<WatcherError> {
    if |errors| < MAX_WATCHER_ERRORS - 1 then errors + [e]
    else if |errors| == MAX_WATCHER_ERRORS - 1 then errors + [Omitted]
    else errors
  }

  function RecordAll(errors: seq<WatcherError>, reported: seq<WatcherError>): seq<WatcherError>
    decreases |reported|
  {
    if reported == [] then errors
    else Recorded(RecordAll(errors, reported[..|reported| - 1]), reported[|reported| - 1])
  }

  function Find(pending: seq<PendingPath>, path: string): (i: nat)
    ensures i <= |pending|
    ensures i < |pending| ==> pending[i].path == path
    ensures forall j | 0 <= j < i :: pending[j].path != path
  {
    if pending == [] || pending[0].path == path then 0 else 1 + Find(pending[1..], path)
  }

  /** The path an observation is about, when the watcher looks at it at all. */
  function ObservedPath(s: State, t: Turn): Option<string>
    requires t.Observe?
  {
    if s.closed || t.filename.None? || t.excluded then None else NormalizeWatchPath(t.filename.value)
  }

  predicate Refused(s: State, path: string) {
    Find(s.pending, path) == |s.pending| && |s.pending| >= MAX_PENDING_PATHS
  }

  function Samples(s: State, path: string): seq<nat> {
    var i := Find(s.pending, path);
    if i < |s.pending| then s.pending[i].samples else []
  }

  predicate TakesSample(s: State, path: string) {
    |Samples(s, path)| < MAX_SAMPLES_PER_PATH && s.outstandingSamples < MAX_OUTSTANDING_SAMPLES
  }

  function Accept(s: State, path: string, at: int): State {
    var i := Find(s.pending, path);
    var sampled := TakesSample(s, path);
    var entry := PendingPath(path, at, Samples(s, path) + if sampled then [s.nextSample] else []);
    var full := |Samples(s, path)| >= MAX_SAMPLES_PER_PATH;
    s.(
      pending := s.pending[..i] + [entry] + if i < |s.pending| then s.pending[i + 1..] else [],
      timer := true,
      outstandingSamples := s.outstandingSamples + if sampled then 1 else 0,
      running := s.running + if sampled then {s.nextSample} else {},
      nextSample := s.nextSample + if sampled then 1 else 0,
      sampleLimitReported := s.sampleLimitReported || (!sampled && full),
      outstandingSampleLimitReported := s.outstandingSampleLimitReported || (!sampled && OutstandingReported(s, path)))
  }

  /** The second limit is looked at when the first one is not reported just now. */
  predicate OutstandingReported(s: State, path: string) {
    && !(|Samples(s, path)| >= MAX_SAMPLES_PER_PATH && !s.sampleLimitReported)
    && s.outstandingSamples >= MAX_OUTSTANDING_SAMPLES
  }

  function StartFlush(s: State): State {
    if s.activeFlush.Some? then s
    else s.(pending := [], activeFlush := Some(if s.pending == [] then Settled else Inspecting(s.pending, false, 0)))
  }

  function AfterInspection(f: Flush, candidates: nat, changes: nat): Flush
    requires f.Inspecting? && f.batch != []
  {
    if |f.batch| > 1 then Inspecting(f.batch[1..], false, f.found + candidates)
    else if changes == 0 then Settled
    else Delivering(changes)
  }

  /** Whether a turn can come next. A path gives at most two candidates, and pairing renames
      and dropping repetitions never adds any. */
  predicate Enabled(s: State, t: Turn) {
    match t
    case SampleSettles(sample, _) => sample in s.running
    case TimerFires => s.timer
    case SamplesReady =>
      && s.activeFlush.Some? && s.activeFlush.value.Inspecting? && s.activeFlush.value.batch != [] && !s.activeFlush.value.checked
      && forall sample | sample in s.activeFlush.value.batch[0].samples :: sample !in s.running
    case Inspected(candidates, changes) =>
      && s.activeFlush.Some? && s.activeFlush.value.Inspecting? && s.activeFlush.value.batch != [] && s.activeFlush.value.checked
      && candidates <= 2 && changes <= s.activeFlush.value.found + candidates
    case InspectionFails =>
      s.activeFlush.Some? && s.activeFlush.value.Inspecting? && s.activeFlush.value.checked
    case ListenerReturns(_) => s.activeFlush.Some? && s.activeFlush.value.Delivering? && s.activeFlush.value.changes > 0
    case FlushFinishes => s.activeFlush == Some(Settled)
    case Abort => s.closed
    case Drain => s.closed && s.activeFlush.None? && s.pending != []
    case _ => true
  }

  function LimitReports(s: State, path: string): seq<WatcherError> {
    if TakesSample(s, path) then []
    else if |Samples(s, path)| >= MAX_SAMPLES_PER_PATH && !s.sampleLimitReported then [SampleLimit]
    else if s.outstandingSamples >= MAX_OUTSTANDING_SAMPLES && !s.outstandingSampleLimitReported then [OutstandingLimit]
    else []
  }

  /** The errors that a turn reports. */
  function Reports(s: State, t: Turn): seq<WatcherError>
    requires Enabled(s, t)
  {
    match t
    case Observe(filename, _, _) =>
      if filename.None? then [NoPath]
      else
        var path := ObservedPath(s, t);
        if path.None? then []
        else if Refused(s, path.value) then if s.pendingLimitReported then [] else [PendingLimit]
        else LimitReports(s, path.value)
    case SystemError => [FromSystem]
    case SampleSettles(_, failed) => if failed && !s.aborted then [SampleFailed] else []
    case InspectionFails => if s.aborted then [] else [FlushFailed]
    case ListenerReturns(failed) => if failed then [ListenerFailed] else []
    case _ => []
  }

  function Effect(s: State, t: Turn): State
    requires Enabled(s, t)
  {
    match t
    case Observe(_, _, at) =>
      var path := ObservedPath(s, t);
      if path.None? then s
      else if Refused(s, path.value) then s.(pendingLimitReported := true)
      else Accept(s, path.value, at)
    case SampleSettles(sample, _) => s.(outstandingSamples := if s.outstandingSamples == 0 then 0 else s.outstandingSamples - 1, running := s.running - {sample})
    case TimerFires => StartFlush(s.(timer := false))
    case SamplesReady => s.(activeFlush := Some(if s.aborted then Settled else s.activeFlush.value.(checked := true)))
    case Inspected(candidates, changes) => s.(activeFlush := Some(AfterInspection(s.activeFlush.value, candidates, changes)))
    case InspectionFails => s.(activeFlush := Some(Settled))
    case ListenerReturns(_) =>
      var n := s.activeFlush.value.changes - 1;
      s.(activeFlush := Some(if n == 0 then Settled else Delivering(n)))
    case FlushFinishes => s.(activeFlush := None, timer := s.timer || (!s.closed && s.pending != []))
    case Stop => s.(closed := true, timer := false)
    case Abort => s.(aborted := true)
    case Drain => StartFlush(s)
    case SystemError => s
  }

  function Step(s: State, t: Turn): State {
    if !Enabled(s, t) then s else Effect(s, t).(errors := RecordAll(s.errors, Reports(s, t)))
  }

  function Run(s: State, turns: seq<Turn>): State
    decreases |turns|
  {
    if turns == [] then s else Step(Run(s, turns[..|turns| - 1]), turns[|turns| - 1])
  }

  /** Every error reported on the way, whether kept or not. */
  function AllReports(s: State, turns: seq<Turn>): seq<WatcherError>
    decreases |turns|
  {
    if turns == [] then []
    else
      var front, t := turns[..|turns| - 1], turns[|turns| - 1];
      AllReports(s, front) + if Enabled(Run(s, front), t) then Reports(Run(s, front), t) else []
  }

  // ------------------------------------------------------------ what every turn keeps

  ghost predicate DistinctPaths(pending: seq<PendingPath>) {
    forall i, j | 0 <= i < j < |pending| :: pending[i].path != pending[j].path
  }

  /** While open with pending paths, a timer is armed or a flush is active. */
  ghost predicate WakesUp(s: State) {
    && (!s.closed && s.pending != [] ==> s.timer || s.activeFlush.Some?)
    && (s.timer ==> !s.closed && s.pending != [])
  }

  ghost predicate Bounded(s: State) {
    && s.outstandingSamples == |s.running| <= MAX_OUTSTANDING_SAMPLES
    && |s.pending| <= MAX_PENDING_PATHS
    && forall p | p in s.pending :: |p.samples| <= MAX_SAMPLES_PER_PATH
  }

  ghost predicate Shaped(s: State) {
    && DistinctPaths(s.pending)
    && (forall sample | sample in s.running :: sample < s.nextSample)
    && match s.activeFlush
       case Some(Inspecting(batch, _, _)) => batch != [] && DistinctPaths(batch)
       case Some(Delivering(changes)) => changes > 0
       case _ => true
  }

  ghost predicate Valid(s: State) {
    WakesUp(s) && Bounded(s) && Shaped(s)
  }

  lemma AcceptKeepsValid(s: State, path: string, at: int)
    requires Valid(s) && !s.closed && !Refused(s, path)
    ensures Valid(Accept(s, path, at))
  {
    var i := Find(s.pending, path);
    var next := Accept(s, path, at).pending;
    if i < |s.pending| {
      assert s.pending[i] in s.pending;
      assert s.pending == s.pending[..i] + [s.pending[i]] + s.pending[i + 1..];
    }
    forall p | p in next ensures |p.samples| <= MAX_SAMPLES_PER_PATH {
    }
    forall j, k | 0 <= j < k < |next| ensures next[j].path != next[k].path {
    }
  }

  lemma StartFlushKeepsValid(s: State)
    requires Bounded(s) && Shaped(s) && (s.timer ==> !s.closed && s.pending != [])
    requires !s.timer || s.activeFlush.Some?
    ensures Valid(StartFlush(s))
  {
    hide DistinctPaths;
    NoPaths();
  }

  lemma SettledSampleKeepsValid(s: State, sample: nat)
    requires Valid(s) && sample in s.running
    ensures Valid(s.(outstandingSamples := if s.outstandingSamples == 0 then 0 else s.outstandingSamples - 1, running := s.running - {sample}))
  {
    hide DistinctPaths;
  }

  lemma ProgressKeepsValid(s: State, t: Turn)
    requires Valid(s) && Enabled(s, t) && (t.SamplesReady? || t.Inspected? || t.InspectionFails? || t.ListenerReturns? || t.FlushFinishes?)
    ensures Valid(Effect(s, t))
  {
    hide DistinctPaths;
    if t.Inspected? {
      TailDistinct(s.activeFlush.value.batch);
    }
  }

  lemma EffectKeepsValid(s: State, t: Turn)
    requires Valid(s) && Enabled(s, t)
    ensures Valid(Effect(s, t))
  {
    hide Accept, Find, Refused, NormalizeWatchPath, DistinctPaths, Bounded, Shaped, StartFlush;
    match t {
      case Observe(_, _, at) =>
        var path := ObservedPath(s, t);
        if path.Some? && !Refused(s, path.value) {
          AcceptKeepsValid(s, path.value, at);
        } else {
          FlagsKeepValid(s, s.pendingLimitReported || path.Some?);
        }
      case SampleSettles(sample, _) => SettledSampleKeepsValid(s, sample);
      case TimerFires =>
        TimerOff(s);
        StartFlushKeepsValid(s.(timer := false));
      case Stop => TimerOff(s);
      case Drain => StartFlushKeepsValid(s);
      case SystemError =>
      case Abort => Aborted(s);
      case _ => ProgressKeepsValid(s, t);
    }
  }

  lemma FlagsKeepValid(s: State, reported: bool)
    requires Valid(s)
    ensures Valid(s.(pendingLimitReported := reported))
  {
    hide DistinctPaths;
  }

  lemma TimerOff(s: State)
    requires Valid(s)
    ensures Bounded(s.(timer := false)) && Shaped(s.(timer := false))
    ensures Valid(s.(timer := false, closed := true))
  {
    hide DistinctPaths;
  }

  lemma Aborted(s: State)
    requires Valid(s)
    ensures Valid(s.(aborted := true))
  {
    hide DistinctPaths;
  }

  lemma TurnKeepsValid(s: State, t: Turn)
    requires Valid(s)
    ensures Valid(Step(s, t))
  {
    hide Effect, Enabled, Reports, RecordAll, DistinctPaths;
    if Enabled(s, t) {
      EffectKeepsValid(s, t);
    }
  }

  lemma TailDistinct(pending: seq<PendingPath>)
    requires DistinctPaths(pending) && pending != []
    ensures DistinctPaths(pending[1..])
  {
  }

  lemma NoPaths()
    ensures DistinctPaths([])
  {
  }

  /** No run loses a wakeup or outgrows a limit. */
  lemma {:induction false} EveryRunIsValid(turns: seq<Turn>)
    ensures Valid(Run(START, turns))
    decreases |turns|
  {
    hide Step, Valid;
    if turns == [] {
      StartIsValid();
    } else {
      EveryRunIsValid(turns[..|turns| - 1]);
      TurnKeepsValid(Run(START, turns[..|turns| - 1]), turns[|turns| - 1]);
    }
  }

  lemma StartIsValid()
    ensures Valid(START)
  {
  }

  // ------------------------------------------------------------ errors

  /** The first errors up to the limit, and a notice in the last place if there were more. */
  function Kept(reported: seq<WatcherError>): seq<WatcherError> {
    if |reported| < MAX_WATCHER_ERRORS then reported else reported[..MAX_WATCHER_ERRORS - 1] + [Omitted]
  }

  lemma RecordOne(reported: seq<WatcherError>, e: WatcherError)
    ensures Recorded(Kept(reported), e) == Kept(reported + [e])
  {
    if |reported| >= MAX_WATCHER_ERRORS - 1 {
      assert (reported + [e])[..MAX_WATCHER_ERRORS - 1] == reported[..MAX_WATCHER_ERRORS - 1];
    }
  }

  lemma {:induction false} RecordMany(before: seq<WatcherError>, reported: seq<WatcherError>)
    ensures RecordAll(Kept(before), reported) == Kept(before + reported)
    decreases |reported|
  {
    hide Kept, Recorded;
    if reported == [] {
      assert before + reported == before;
    } else {
      var front, e := reported[..|reported| - 1], reported[|reported| - 1];
      RecordMany(before, front);
      RecordOne(before + front, e);
      assert (before + front) + [e] == before + reported;
    }
  }

  /** The watcher's errors are the first ones of all that were reported in the run, with a
      notice in the hundredth place when there were a hundred or more. */
  lemma {:induction false} ErrorsAreKept(turns: seq<Turn>)
    ensures var kept, all := Run(START, turns).errors, AllReports(START, turns);
            if |all| < 100 then kept == all else |kept| == 100 && kept[..99] == all[..99] && kept[99] == Omitted
  {
    hide Run, AllReports;
    KeptInRun(turns);
    var all := AllReports(START, turns);
    if |all| >= 100 {
      assert (all[..99] + [Omitted])[..99] == all[..99];
    }
  }

  lemma {:induction false} KeptInRun(turns: seq<Turn>)
    ensures Run(START, turns).errors == Kept(AllReports(START, turns))
    decreases |turns|
  {
    hide Enabled, Effect, Reports, RecordAll, Kept;
    if turns == [] {
      NothingKept();
    } else {
      var front, t := turns[..|turns| - 1], turns[|turns| - 1];
      KeptInRun(front);
      var s := Run(START, front);
      if Enabled(s, t) {
        RecordMany(AllReports(START, front), Reports(s, t));
      } else {
        assert AllReports(START, turns) == AllReports(START, front);
      }
    }
  }

  lemma NothingKept()
    ensures Kept([]) == []
  {
  }

  // ------------------------------------------------------------ accepted paths are looked at

  ghost predicate Queued(s: State, path: string) {
    exists p | p in s.pending :: p.path == path
  }

  ghost predicate Taken(s: State, path: string) {
    s.activeFlush.Some? && s.activeFlush.value.Inspecting? && exists p | p in s.activeFlush.value.batch :: p.path == path
  }

  /** The turn inspects the path, or the flush that has taken it fails as a whole. */
  ghost predicate Examines(s: State, t: Turn, path: string) {
    && Enabled(s, t) && Taken(s, path)
    && match t
       case Inspected(_, _) => s.activeFlush.value.batch[0].path == path
       case InspectionFails => true
       case SamplesReady => s.aborted
       case _ => false
  }

  ghost predicate Examined(s: State, turns: seq<Turn>, path: string) {
    exists k | 0 <= k < |turns| :: Examines(Run(s, turns[..k]), turns[k], path)
  }

  /** A turn that makes the pending paths the batch of a new flush. */
  ghost predicate Takes(s: State, t: Turn) {
    s.activeFlush.None? && Step(s, t).activeFlush.Some?
  }

  lemma AcceptedIsQueued(s: State, t: Turn)
    requires t.Observe? && ObservedPath(s, t).Some? && !Refused(s, ObservedPath(s, t).value)
    ensures Queued(Step(s, t), ObservedPath(s, t).value)
  {
    hide Refused, NormalizeWatchPath, TakesSample, Samples, OutstandingReported, Reports, RecordAll;
    var path := ObservedPath(s, t).value;
    var i := Find(s.pending, path);
    assert Step(s, t).pending[i] in Step(s, t).pending;
  }

  /** A name in the workspace: not empty, without NUL, relative, and not leading out of the root. */
  predicate Inside(name: string) {
    && name != "" && name != "." && name != ".."
    && (forall i | 0 <= i < |name| :: name[i] != '\0')
    && name[0] != '/'
    && !(|name| >= 3 && name[0] == '.' && name[1] == '.' && name[2] == '/')
  }

  /** Which observations count, and the queue afterwards. Anything else that names a path
      changes nothing at all. */
  lemma ObservationMeaning(s: State, name: string, excluded: bool, at: int)
    ensures var next := Step(s, Observe(Some(name), excluded, at)).pending;
            if s.closed || excluded || !Inside(name) then Step(s, Observe(Some(name), excluded, at)) == s
            else if forall p | p in s.pending :: p.path != name then
              next == if |s.pending| >= 10_000 then s.pending
                      else s.pending + [PendingPath(name, at, if s.outstandingSamples < 64 then [s.nextSample] else [])]
            else
              exists i | 0 <= i < |s.pending| ::
                var taken := s.pending[i].samples;
                && s.pending[i].path == name
                && (|taken| < 32 && s.outstandingSamples < 64 ==>
                      next == s.pending[i := PendingPath(name, at, taken + [s.nextSample])])
                && (|taken| >= 32 || s.outstandingSamples >= 64 ==>
                      next == s.pending[i := PendingPath(name, at, taken)])
  {
    hide Find, NormalizeWatchPath, Inside, Accept;
    InsideIsNormal(name);
    AcceptedEntry(s, name, at);
    var i := Find(s.pending, name);
    if i < |s.pending| {
      assert s.pending[i] in s.pending;
    } else {
      assert forall p | p in s.pending :: p.path != name;
    }
  }

  lemma {:induction false} AcceptedEntry(s: State, path: string, at: int)
    ensures var i := Find(s.pending, path);
            var samples := Samples(s, path) + if TakesSample(s, path) then [s.nextSample] else [];
            Accept(s, path, at).pending ==
            if i < |s.pending| then s.pending[i := PendingPath(path, at, samples)] else s.pending + [PendingPath(path, at, samples)]
    ensures Samples(s, path) + [] == Samples(s, path) && [] + [s.nextSample] == [s.nextSample]
  {
    hide Find;
    var i := Find(s.pending, path);
    var samples := Samples(s, path) + if TakesSample(s, path) then [s.nextSample] else [];
    var e := PendingPath(path, at, samples);
    if i < |s.pending| {
      assert s.pending[..i] + [e] + s.pending[i + 1..] == s.pending[i := e];
    } else {
      assert s.pending[..i] + [e] + [] == s.pending + [e];
    }
  }

  lemma InsideIsNormal(name: string)
    ensures NormalizeWatchPath(name) == if Inside(name) then Some(name) else None
  {
    if |name| >= 3 {
      assert "../" <= name <==> name[..3] == "../";
      assert name[..3] == [name[0], name[1], name[2]];
    }
  }

  /** What an observation reports. The two limits on samples are told once each, and never
      both by one observation. */
  lemma ObservationReports(s: State, filename: Option<string>, excluded: bool, at: int)
    ensures var told := Reports(s, Observe(filename, excluded, at));
            match filename
            case None => told == [NoPath]
            case Some(name) =>
              if s.closed || excluded || !Inside(name) then told == []
              else if forall p | p in s.pending :: p.path != name then
                if |s.pending| >= 10_000 then told == if s.pendingLimitReported then [] else [PendingLimit]
                else told == if s.outstandingSamples < 64 || s.outstandingSampleLimitReported then [] else [OutstandingLimit]
              else
                exists i | 0 <= i < |s.pending| ::
                  && s.pending[i].path == name
                  && var many, full := |s.pending[i].samples| >= 32, s.outstandingSamples >= 64;
                     told == if many && !s.sampleLimitReported then [SampleLimit]
                             else if full && !s.outstandingSampleLimitReported then [OutstandingLimit]
                             else []
  {
    hide Find;
    if filename.Some? {
      var name := filename.value;
      InsideIsNormal(name);
      var i := Find(s.pending, name);
      if i < |s.pending| {
        assert s.pending[i] in s.pending;
      } else {
        assert forall p | p in s.pending :: p.path != name;
      }
    }
  }

  lemma AcceptKeepsQueued(s: State, path: string, at: int, other: string)
    requires Queued(s, other)
    ensures Queued(Accept(s, path, at), other)
  {
    hide TakesSample, Samples, OutstandingReported;
    var i := Find(s.pending, path);
    var p :| p in s.pending && p.path == other;
    var k :| 0 <= k < |s.pending| && s.pending[k] == p;
    var next := Accept(s, path, at).pending;
    assert next[k] in next && next[k].path == other;
  }

  lemma QueuedNext(s: State, t: Turn, path: string)
    requires Queued(s, path)
    ensures Queued(Step(s, t), path) || (Takes(s, t) && Taken(Step(s, t), path))
  {
    hide Accept, Find, Refused, NormalizeWatchPath, Reports, RecordAll;
    if t.Observe? && ObservedPath(s, t).Some? && !Refused(s, ObservedPath(s, t).value) {
      AcceptKeepsQueued(s, ObservedPath(s, t).value, t.at, path);
    }
  }

  lemma TakenNext(s: State, t: Turn, path: string)
    requires Taken(s, path)
    ensures Taken(Step(s, t), path) || Examines(s, t, path)
  {
    hide Find, Refused, NormalizeWatchPath, Reports, RecordAll, TakesSample, Samples, OutstandingReported;
    if Enabled(s, t) && t.Inspected? {
      var batch := s.activeFlush.value.batch;
      var p :| p in batch && p.path == path;
      assert batch == [batch[0]] + batch[1..];
    }
  }

  lemma {:induction false} TakenIsExamined(s: State, turns: seq<Turn>, path: string)
    requires Taken(s, path)
    ensures Taken(Run(s, turns), path) || Examined(s, turns, path)
    decreases |turns|
  {
    hide Step, Taken, Examines;
    if turns != [] {
      var front, t := turns[..|turns| - 1], turns[|turns| - 1];
      TakenIsExamined(s, front, path);
      if Taken(Run(s, front), path) {
        TakenNext(Run(s, front), t, path);
      } else {
        var k :| 0 <= k < |front| && Examines(Run(s, front[..k]), front[k], path);
        assert turns[..k] == front[..k];
      }
    }
  }

  lemma {:induction false} RunJoins(s: State, a: seq<Turn>, b: seq<Turn>)
    ensures Run(s, a + b) == Run(Run(s, a), b)
    decreases |b|
  {
    hide Step;
    if b == [] {
      assert a + b == a;
    } else {
      assert (a + b)[..|a + b| - 1] == a + b[..|b| - 1];
      RunJoins(s, a, b[..|b| - 1]);
    }
  }

  lemma {:induction false} QueuedOrTaken(s: State, turns: seq<Turn>, path: string) returns (i: nat)
    requires Queued(s, path)
    ensures i <= |turns|
    ensures Queued(Run(s, turns), path) || (i > 0 && Takes(Run(s, turns[..i - 1]), turns[i - 1]) && Taken(Run(s, turns[..i]), path))
    decreases |turns|
  {
    hide Step, Queued, Taken, Takes;
    i := 0;
    if turns != [] {
      var front, t := turns[..|turns| - 1], turns[|turns| - 1];
      i := QueuedOrTaken(s, front, path);
      if Queued(Run(s, front), path) {
        QueuedNext(Run(s, front), t, path);
        i := |turns|;
        assert turns[..i] == turns;
      } else {
        assert turns[..i - 1] == front[..i - 1] && turns[..i] == front[..i];
      }
    }
  }

  /** The turn before `i` makes the path part of a new flush. */
  ghost predicate TakenAt(s: State, turns: seq<Turn>, i: nat, path: string)
    requires 0 < i <= |turns|
  {
    Takes(Run(s, turns[..i - 1]), turns[i - 1]) && Taken(Run(s, turns[..i]), path)
  }

  /** A path that was accepted stays queued until a flush takes it, and what is taken is
      inspected unless its flush fails; an inspection that was under way before does not count. */
  lemma {:induction false} AcceptedIsExamined(s: State, turns: seq<Turn>, path: string)
    requires Queued(s, path)
    ensures || Queued(Run(s, turns), path)
            || exists i | 0 < i <= |turns| ::
                 TakenAt(s, turns, i, path) && (Taken(Run(s, turns), path) || Examined(Run(s, turns[..i]), turns[i..], path))
  {
    hide Step, Queued, Taken, Takes, Examined, Run;
    var i := QueuedOrTaken(s, turns, path);
    if !Queued(Run(s, turns), path) {
      assert TakenAt(s, turns, i, path);
      TakenIsExamined(Run(s, turns[..i]), turns[i..], path);
      assert turns == turns[..i] + turns[i..];
      RunJoins(s, turns[..i], turns[i..]);
    }
  }

  // ------------------------------------------------------------ stopping

  predicate Drained(s: State) {
    s.pending == [] && s.activeFlush.None?
  }

  /** Turns that come from promises the watcher is waiting for, or from `drain` itself. */
  predicate Internal(t: Turn) {
    !t.Observe? && !t.SystemError? && !t.TimerFires? && !t.Stop? && !t.Abort?
  }

  function FlushMeasure(f: Option<Flush>): nat {
    match f
    case None => 0
    case Some(Settled) => 1
    case Some(Delivering(changes)) => changes + 1
    case Some(Inspecting(batch, checked, found)) => 4 * |batch| + found + if checked then 0 else 1
  }

  function Measure(s: State): nat {
    |s.running| + 6 * |s.pending| + FlushMeasure(s.activeFlush)
  }

  lemma InternalTurn(s: State, t: Turn)
    requires Valid(s) && s.closed && Internal(t) && Enabled(s, t)
    ensures Effect(s, t).closed && Measure(Effect(s, t)) < Measure(s)
  {
    hide DistinctPaths;
  }

  lemma ExternalTurn(s: State, t: Turn)
    requires Valid(s) && s.closed && !Internal(t) && Enabled(s, t)
    ensures Effect(s, t).closed && Measure(Effect(s, t)) == Measure(s)
  {
    hide DistinctPaths, Bounded, Shaped;
  }

  lemma ClosedTurn(s: State, t: Turn)
    requires Valid(s) && s.closed
    ensures Step(s, t).closed
    ensures Internal(t) && Enabled(s, t) ==> Measure(Step(s, t)) < Measure(s)
    ensures !(Internal(t) && Enabled(s, t)) ==> Measure(Step(s, t)) == Measure(s)
  {
    hide Reports, RecordAll, Valid, Enabled, Effect, Internal;
    if Enabled(s, t) {
      if Internal(t) {
        InternalTurn(s, t);
      } else {
        ExternalTurn(s, t);
      }
    }
  }

  lemma NothingLeft(s: State)
    requires Valid(s) && Measure(s) == 0
    ensures Drained(s)
  {
  }

  /** No wakeup is lost: until everything is drained some internal turn or, while the watcher
      is open, the timer is still to come. */
  lemma Progress(s: State) returns (t: Turn)
    requires Valid(s) && !Drained(s)
    ensures Enabled(s, t) && (Internal(t) || (t.TimerFires? && !s.closed))
  {
    if s.activeFlush.None? {
      t := if s.closed then Drain else TimerFires;
    } else {
      match s.activeFlush.value {
        case Settled => t := FlushFinishes;
        case Delivering(_) => t := ListenerReturns(false);
        case Inspecting(batch, checked, _) =>
          if checked {
            t := Inspected(0, 0);
          } else if sample :| sample in batch[0].samples && sample in s.running {
            t := SampleSettles(sample, false);
          } else {
            t := SamplesReady;
          }
      }
    }
  }

  /** Turns of a run that do internal work. */
  function Work(s: State, turns: seq<Turn>): nat
    decreases |turns|
  {
    if turns == [] then 0
    else
      var front, t := turns[..|turns| - 1], turns[|turns| - 1];
      Work(s, front) + if Internal(t) && Enabled(Run(s, front), t) then 1 else 0
  }

  lemma {:induction false} ClosedRun(s: State, turns: seq<Turn>)
    requires Valid(s) && s.closed
    ensures Valid(Run(s, turns)) && Run(s, turns).closed
    ensures Work(s, turns) + Measure(Run(s, turns)) <= Measure(s)
    decreases |turns|
  {
    hide Step, Valid, Enabled, Measure, Internal;
    if turns != [] {
      var front, t := turns[..|turns| - 1], turns[|turns| - 1];
      ClosedRun(s, front);
      TurnKeepsValid(Run(s, front), t);
      ClosedTurn(Run(s, front), t);
    }
  }

  /** After `stop`, no run, whatever else happens, holds more internal work than `Measure`
      allows for; until the watcher is drained some of it can go on; and once that much is
      done the watcher is drained. */
  lemma {:induction false} StopDrains(s: State, turns: seq<Turn>)
    requires Valid(s) && s.closed
    ensures Work(s, turns) <= Measure(s)
    ensures !Drained(Run(s, turns)) ==> exists t :: Internal(t) && Enabled(Run(s, turns), t)
    ensures Work(s, turns) == Measure(s) ==> Drained(Run(s, turns))
  {
    hide Valid, Enabled, Internal, Run;
    ClosedRun(s, turns);
    if !Drained(Run(s, turns)) {
      var t := Progress(Run(s, turns));
    }
    if Work(s, turns) == Measure(s) {
      NothingLeft(Run(s, turns));
    }
  }

  // ------------------------------------------------------------ the watcher itself

  class DebouncedWorkspaceWatcher {
    var errors: seq<WatcherError>
    var pending: seq<PendingPath>
    var timer: bool
    var activeFlush: Option<Flush>
    var closed: bool
    var aborted: bool
    var outstandingSamples: nat
    var running: set<nat>
    var nextSample: nat
    var pendingLimitReported: bool
    var sampleLimitReported: bool
    var outstandingSampleLimitReported: bool

    ghost function Abstract(): State
      reads this
    {
      State(errors, pending, timer, activeFlush, closed, aborted, outstandingSamples, running, nextSample,
            pendingLimitReported, sampleLimitReported, outstandingSampleLimitReported)
    }

    constructor ()
      ensures Abstract() == START && Valid(Abstract())
    {
      errors, pending, timer, activeFlush, closed, aborted := [], [], false, None, false, false;
      outstandingSamples, running, nextSample := 0, {}, 0;
      pendingLimitReported, sampleLimitReported, outstandingSampleLimitReported := false, false, false;
      new;
      StartIsValid();
    }

    method RecordError(error: WatcherError)
      modifies this`errors
      ensures errors == Recorded(old(errors), error)
    {
      if |errors| < MAX_WATCHER_ERRORS - 1 {
        errors := errors + [error];
      } else if |errors| == MAX_WATCHER_ERRORS - 1 {
        errors := errors + [Omitted];
      }
    }

    method Observed(filename: Option<string>, excluded: bool, at: int)
      requires Valid(Abstract())
      modifies this
      ensures Valid(Abstract()) && Abstract() == Step(old(Abstract()), Observe(filename, excluded, at))
    {
      hide Valid, Find, NormalizeWatchPath, Recorded, RecordAll, Accept, TakesSample, LimitReports;
      TurnKeepsValid(Abstract(), Observe(filename, excluded, at));
      RecordNone(errors);
      if closed || filename.None? {
        if filename.None? {
          RecordSingle(errors, NoPath);
          RecordError(NoPath);
        }
        return;
      }
      var path := NormalizeWatchPath(filename.value);
      if path.None? || excluded {
        return;
      }
      if Find(pending, path.value) == |pending| && |pending| >= MAX_PENDING_PATHS {
        if !pendingLimitReported {
          pendingLimitReported := true;
          RecordSingle(errors, PendingLimit);
          RecordError(PendingLimit);
        }
        return;
      }
      Accepted(path.value, at);
    }

    method Accepted(path: string, at: int)
      modifies this
      ensures Abstract() == Accept(old(Abstract()), path, at).(errors := errors)
      ensures errors == RecordAll(old(errors), LimitReports(old(Abstract()), path))
    {
      hide Find, Recorded, RecordAll, LimitReports, TakesSample, OutstandingReported;
      var i := Find(pending, path);
      var samples := if i < |pending| then pending[i].samples else [];
      samples := Sample(path, samples);
      pending := pending[..i] + [PendingPath(path, at, samples)] + if i < |pending| then pending[i + 1..] else [];
      timer := true;
    }

    /** Starts one more sample of the path, or reports the limit that forbids it. */
    method Sample(path: string, samples: seq<nat>) returns (all: seq<nat>)
      requires samples == Samples(Abstract(), path)
      modifies this`outstandingSamples, this`running, this`nextSample, this`errors
      modifies this`sampleLimitReported, this`outstandingSampleLimitReported
      ensures var s := old(Abstract());
              var sampled := TakesSample(s, path);
              && all == samples + (if sampled then [s.nextSample] else [])
              && outstandingSamples == s.outstandingSamples + (if sampled then 1 else 0)
              && running == s.running + (if sampled then {s.nextSample} else {})
              && nextSample == s.nextSample + (if sampled then 1 else 0)
              && sampleLimitReported == (s.sampleLimitReported || (!sampled && |samples| >= MAX_SAMPLES_PER_PATH))
              && outstandingSampleLimitReported == (s.outstandingSampleLimitReported || (!sampled && OutstandingReported(s, path)))
      ensures errors == RecordAll(old(errors), LimitReports(old(Abstract()), path))
    {
      hide Samples, Recorded, RecordAll;
      RecordNone(errors);
      all := samples;
      if |samples| < MAX_SAMPLES_PER_PATH && outstandingSamples < MAX_OUTSTANDING_SAMPLES {
        outstandingSamples := outstandingSamples + 1;
        all := samples + [nextSample];
        running, nextSample := running + {nextSample}, nextSample + 1;
      } else if |samples| >= MAX_SAMPLES_PER_PATH && !sampleLimitReported {
        sampleLimitReported := true;
        RecordSingle(errors, SampleLimit);
        RecordError(SampleLimit);
      } else if outstandingSamples >= MAX_OUTSTANDING_SAMPLES && !outstandingSampleLimitReported {
        outstandingSampleLimitReported := true;
        RecordSingle(errors, OutstandingLimit);
        RecordError(OutstandingLimit);
      }
    }

    method SampleSettled(sample: nat, failed: bool)
      requires Valid(Abstract()) && sample in running
      modifies this`outstandingSamples, this`running, this`errors
      ensures Valid(Abstract()) && Abstract() == Step(old(Abstract()), SampleSettles(sample, failed))
    {
      hide Valid, Recorded;
      TurnKeepsValid(Abstract(), SampleSettles(sample, failed));
      RecordNone(errors);
      if failed && !aborted {
        RecordSingle(errors, SampleFailed);
        RecordError(SampleFailed);
      }
      running := running - {sample};
      outstandingSamples := if outstandingSamples == 0 then 0 else outstandingSamples - 1;
    }

    method BeginFlush()
      modifies this`pending, this`activeFlush
      ensures Abstract() == StartFlush(old(Abstract()))
    {
      if activeFlush.Some? {
        return;
      }
      var batch := pending;
      pending := [];
      activeFlush := Some(if batch == [] then Settled else Inspecting(batch, false, 0));
    }

    method FireTimer()
      requires Valid(Abstract()) && timer
      modifies this`timer, this`pending, this`activeFlush
      ensures Valid(Abstract()) && Abstract() == Step(old(Abstract()), TimerFires)
    {
      hide Valid;
      TurnKeepsValid(Abstract(), TimerFires);
      RecordNone(errors);
      timer := false;
      BeginFlush();
    }

    /** The samples of the next path are in: its inspection starts, unless the watcher was aborted. */
    method SamplesAreReady()
      requires Valid(Abstract()) && Enabled(Abstract(), SamplesReady)
      modifies this`activeFlush
      ensures Valid(Abstract()) && Abstract() == Step(old(Abstract()), SamplesReady)
    {
      hide Valid;
      TurnKeepsValid(Abstract(), SamplesReady);
      RecordNone(errors);
      var flush := activeFlush.value;
      activeFlush := Some(if aborted then Settled else Inspecting(flush.batch, true, flush.found));
    }

    /** A path is inspected; after the last one the changes found are delivered. */
    method PathInspected(candidates: nat, changes: nat)
      requires Valid(Abstract()) && Enabled(Abstract(), Inspected(candidates, changes))
      modifies this`activeFlush
      ensures Valid(Abstract()) && Abstract() == Step(old(Abstract()), Inspected(candidates, changes))
    {
      hide Valid;
      TurnKeepsValid(Abstract(), Inspected(candidates, changes));
      RecordNone(errors);
      var flush := activeFlush.value;
      if |flush.batch| > 1 {
        activeFlush := Some(Inspecting(flush.batch[1..], false, flush.found + candidates));
      } else {
        activeFlush := Some(if changes == 0 then Settled else Delivering(changes));
      }
    }

    /** A failed inspection ends the flush; the rest of its batch is dropped. */
    method InspectionFailed()
      requires Valid(Abstract()) && Enabled(Abstract(), InspectionFails)
      modifies this`activeFlush, this`errors
      ensures Valid(Abstract()) && Abstract() == Step(old(Abstract()), InspectionFails)
    {
      hide Valid, Recorded;
      TurnKeepsValid(Abstract(), InspectionFails);
      RecordNone(errors);
      if !aborted {
        RecordSingle(errors, FlushFailed);
        RecordError(FlushFailed);
      }
      activeFlush := Some(Settled);
    }

    method ListenerReturned(failed: bool)
      requires Valid(Abstract()) && Enabled(Abstract(), ListenerReturns(failed))
      modifies this`activeFlush, this`errors
      ensures Valid(Abstract()) && Abstract() == Step(old(Abstract()), ListenerReturns(failed))
    {
      hide Valid, Recorded;
      TurnKeepsValid(Abstract(), ListenerReturns(failed));
      RecordNone(errors);
      if failed {
        RecordSingle(errors, ListenerFailed);
        RecordError(ListenerFailed);
      }
      var left := activeFlush.value.changes - 1;
      activeFlush := Some(if left == 0 then Settled else Delivering(left));
    }

    method FinishFlush()
      requires Valid(Abstract()) && activeFlush == Some(Settled)
      modifies this`timer, this`activeFlush
      ensures Valid(Abstract()) && Abstract() == Step(old(Abstract()), FlushFinishes)
    {
      hide Valid;
      TurnKeepsValid(Abstract(), FlushFinishes);
      RecordNone(errors);
      activeFlush := None;
      if !closed && |pending| > 0 && !timer {
        timer := true;
      }
    }

    /** Closes the watcher; `DrainNext` is what then follows until nothing is left. */
    method Close()
      requires Valid(Abstract())
      modifies this`closed, this`timer
      ensures Valid(Abstract()) && Abstract() == Step(old(Abstract()), Stop)
    {
      hide Bounded, Shaped;
      TurnKeepsValid(Abstract(), Stop);
      RecordNone(errors);
      if closed {
        return;
      }
      closed := true;
      timer := false;
    }

    method DrainNext()
      requires Valid(Abstract()) && closed && activeFlush.None? && pending != []
      modifies this`pending, this`activeFlush
      ensures Valid(Abstract()) && Abstract() == Step(old(Abstract()), Drain)
    {
      hide Valid;
      TurnKeepsValid(Abstract(), Drain);
      RecordNone(errors);
      BeginFlush();
    }
  }

  lemma {:induction false} RecordNone(errors: seq<WatcherError>)
    ensures RecordAll(errors, []) == errors
  {
  }

  lemma {:induction false} RecordSingle(errors: seq<WatcherError>, e: WatcherError)
    ensures RecordAll(errors, [e]) == Recorded(errors, e)
  {
    RecordNone(errors);
    assert [e][..0] == [];
  }
}