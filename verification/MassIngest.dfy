/** The bulk ingestion run of rag-mass-inject. */
module MassIngest {
  import opened Options

  /* One producer, a bounded FIFO queue, a fixed set of workers, two stage semaphores, the within-run
     dedup index and the durable job, checkpoint and dead-letter tables.

     A step is the code a coroutine runs between two of its awaits, so a run is any interleaving
     of enabled steps. Loading/parsing and embedding may succeed or fail at will. A crash keeps
     `Durable` and loses everything else. */

  // ----- Configuration and durable tables ------------------------------------------------

  type Hash = string
  type JobId = string

  /** A discovered path with the hash its content parses to. */
  datatype File = File(source: string, content: Hash)

  /** A stage limit of None is a stage without a configured semaphore. */
  datatype Config = Config(
    job: JobId, files: seq<File>, maxWorkers: nat,
    parseLimit: Option<nat>, embedLimit: Option<nat>, resume: bool)

  datatype JobStatus = Queued | Running | Completed
  datatype JobRow = JobRow(status: JobStatus, total: nat, processed: nat)

  /** Checkpoint rows are keyed by (job, hash) and remember the source that came first. */
  datatype Durable = Durable(
    jobs: map<JobId, JobRow>, checkpoints: map<(JobId, Hash), string>,
    deadLetters: seq<(JobId, string)>, indexed: set<Hash>)

  /** INSERT OR IGNORE: the first writer of a key wins. */
  function InsertCheckpoint(d: Durable, job: JobId, source: string, h: Hash): Durable {
    if (job, h) in d.checkpoints then d else d.(checkpoints := d.checkpoints[(job, h) := source])
  }

  // ----- Run state -------------------------------------------------------------------------

  datatype Item = FileItem(index: nat) | Shutdown

  datatype Worker =
    | Waiting                       // at queue.get()
    | NeedParse(file: nat)          // waiting for the parse semaphore
    | Parsing(file: nat)            // inside ingest(), semaphore held
    | NeedResume(file: nat)         // reading the checkpoint table
    | NeedEmbed(file: nat)          // waiting for the embed semaphore
    | Embedding(file: nat)          // inside process(), semaphore held
    | NeedCheckpoint(file: nat)     // writing the checkpoint row
    | NeedDeadLetter(file: nat)     // writing the dead-letter row
    | Reporting(seen: nat)          // writing `seen` as processed_items
    | Returned

  datatype Outcome = Ingested | Duplicate | ResumeSkip | DeadLettered
  datatype Event = Event(file: nat, outcome: Outcome)

  datatype Semaphore = Unbounded | Permits(free: nat)

  /** `events` is the observer's record of finished files; `attempts` lists the hashes handed to
      the embedding pipeline, in order. */
  datatype State = State(
    produced: nat, queue: seq<Item>, workers: seq<Worker>,
    parse: Semaphore, embed: Semaphore, dedup: set<Hash>,
    processed: nat, documents: seq<nat>, events: seq<Event>, attempts: seq<Hash>,
    durable: Durable, done: bool)

  datatype Step =
    | Put
    | Get(w: nat)
    | AcquireParse(w: nat)
    | ParseOk(w: nat)
    | ParseFail(w: nat)
    | CheckResume(w: nat)
    | AcquireEmbed(w: nat)
    | EmbedOk(w: nat)
    | EmbedFail(w: nat)
    | SaveCheckpoint(w: nat)
    | SaveDeadLetter(w: nat)
    | Report(w: nat)
    | Complete

  /** An empty discovery returns before any worker is created. */
  function WorkerCount(c: Config): nat { if c.files == [] then 0 else c.maxWorkers }

  /** What the producer puts on the queue: every file, then one sentinel per worker. */
  function Schedule(c: Config): seq<Item> {
    seq(|c.files|, (i: nat) => FileItem(i)) + seq(WorkerCount(c), _ => Shutdown)
  }

  function NewSemaphore(limit: Option<nat>): Semaphore {
    match limit
    case None => Unbounded
    case Some(n) => Permits(n)
  }

  predicate CanAcquire(s: Semaphore) { s.Permits? ==> s.free > 0 }

  function Acquire(s: Semaphore): Semaphore
    requires CanAcquire(s)
  {
    if s.Permits? then Permits(s.free - 1) else s
  }

  function Release(s: Semaphore): Semaphore {
    if s.Permits? then Permits(s.free + 1) else s
  }

  function Start(c: Config, d: Durable): State {
    State(0, [], seq(WorkerCount(c), _ => Waiting),
          NewSemaphore(c.parseLimit), NewSemaphore(c.embedLimit), {},
          0, [], [], [], d.(jobs := d.jobs[c.job := JobRow(Running, |c.files|, 0)]), false)
  }

  // ----- Steps -------------------------------------------------------------------------------

  predicate IsWorker(s: State, w: nat) { w < |s.workers| }

  /** Worker w is in a state that holds a file of the run. */
  predicate HasFile(c: Config, s: State, w: nat) {
    IsWorker(s, w) && !s.workers[w].Waiting? && !s.workers[w].Reporting? && !s.workers[w].Returned? &&
    s.workers[w].file < |c.files|
  }

  predicate Enabled(c: Config, s: State, step: Step) {
    match step
    case Put => s.produced < |Schedule(c)| && |s.queue| < 2 * c.maxWorkers
    case Get(w) => IsWorker(s, w) && s.workers[w].Waiting? && s.queue != []
    case AcquireParse(w) => HasFile(c, s, w) && s.workers[w].NeedParse? && CanAcquire(s.parse)
    case ParseOk(w) => HasFile(c, s, w) && s.workers[w].Parsing?
    case ParseFail(w) => HasFile(c, s, w) && s.workers[w].Parsing?
    case CheckResume(w) => HasFile(c, s, w) && s.workers[w].NeedResume?
    case AcquireEmbed(w) => HasFile(c, s, w) && s.workers[w].NeedEmbed? && CanAcquire(s.embed)
    case EmbedOk(w) => HasFile(c, s, w) && s.workers[w].Embedding?
    case EmbedFail(w) => HasFile(c, s, w) && s.workers[w].Embedding?
    case SaveCheckpoint(w) => HasFile(c, s, w) && s.workers[w].NeedCheckpoint?
    case SaveDeadLetter(w) => HasFile(c, s, w) && s.workers[w].NeedDeadLetter?
    case Report(w) => IsWorker(s, w) && s.workers[w].Reporting?
    case Complete =>
      && !s.done && s.produced == |Schedule(c)|
      && forall w :: 0 <= w < |s.workers| ==> s.workers[w].Returned?
  }

  function Move(s: State, w: nat, to: Worker): State
    requires IsWorker(s, w)
  {
    s.(workers := s.workers[w := to])
  }

  /** The terminal record of a file and the `finally` block up to its await. */
  function Finish(s: State, w: nat, file: nat, outcome: Outcome): State
    requires IsWorker(s, w)
  {
    Move(s, w, Reporting(s.processed + 1)).(
      processed := s.processed + 1,
      events := s.events + [Event(file, outcome)],
      documents := if outcome.Ingested? then s.documents + [file] else s.documents)
  }

  function SetRow(d: Durable, job: JobId, row: JobRow): Durable { d.(jobs := d.jobs[job := row]) }

  function Row(d: Durable, c: Config): JobRow {
    if c.job in d.jobs then d.jobs[c.job] else JobRow(Queued, 0, 0)
  }

  function Apply(c: Config, s: State, step: Step): State
    requires Enabled(c, s, step)
  {
    match step
    case Put =>
      s.(produced := s.produced + 1, queue := s.queue + [Schedule(c)[s.produced]])
    case Get(w) =>
      Move(s, w, if s.queue[0].Shutdown? then Returned else NeedParse(s.queue[0].index)).(queue := s.queue[1..])
    case AcquireParse(w) =>
      Move(s, w, Parsing(s.workers[w].file)).(parse := Acquire(s.parse))
    case ParseOk(w) =>
      // has/add on the dedup index happen without an await in between
      var file := s.workers[w].file;
      var h := c.files[file].content;
      var t := s.(parse := Release(s.parse));
      if h in s.dedup then Finish(t, w, file, Duplicate)
      else Move(t, w, if c.resume then NeedResume(file) else NeedEmbed(file)).(dedup := s.dedup + {h})
    case ParseFail(w) =>
      Move(s, w, NeedDeadLetter(s.workers[w].file)).(parse := Release(s.parse))
    case CheckResume(w) =>
      var file := s.workers[w].file;
      if (c.job, c.files[file].content) in s.durable.checkpoints then Finish(s, w, file, ResumeSkip)
      else Move(s, w, NeedEmbed(file))
    case AcquireEmbed(w) =>
      var file := s.workers[w].file;
      Move(s, w, Embedding(file)).(embed := Acquire(s.embed), attempts := s.attempts + [c.files[file].content])
    case EmbedOk(w) =>
      var file := s.workers[w].file;
      Move(s, w, NeedCheckpoint(file)).(
        embed := Release(s.embed),
        durable := s.durable.(indexed := s.durable.indexed + {c.files[file].content}))
    case EmbedFail(w) =>
      Move(s, w, NeedDeadLetter(s.workers[w].file)).(embed := Release(s.embed))
    case SaveCheckpoint(w) =>
      var file := s.workers[w].file;
      Finish(s, w, file, Ingested).(
        durable := InsertCheckpoint(s.durable, c.job, c.files[file].source, c.files[file].content))
    case SaveDeadLetter(w) =>
      var file := s.workers[w].file;
      Finish(s, w, file, DeadLettered).(
        durable := s.durable.(deadLetters := s.durable.deadLetters + [(c.job, c.files[file].source)]))
    case Report(w) =>
      Move(s, w, Waiting).(
        durable := SetRow(s.durable, c.job, Row(s.durable, c).(processed := s.workers[w].seen)))
    case Complete =>
      s.(done := true,
         durable := SetRow(s.durable, c.job, Row(s.durable, c).(status := Completed, processed := s.processed)))
  }

  /** A run: a finite sequence of steps, each enabled where it is taken. */
  predicate ValidRun(c: Config, s: State, steps: seq<Step>)
    decreases |steps|
  {
    steps == [] || (Enabled(c, s, steps[0]) && ValidRun(c, Apply(c, s, steps[0]), steps[1..]))
  }

  function After(c: Config, s: State, steps: seq<Step>): State
    requires ValidRun(c, s, steps)
    decreases |steps|
  {
    if steps == [] then s else After(c, Apply(c, s, steps[0]), steps[1..])
  }

  // ----- Sums over workers ---------------------------------------------------------------------

  ghost function Sum(ws: seq<Worker>, f: Worker -> nat): nat {
    if ws == [] then 0 else f(ws[0]) + Sum(ws[1..], f)
  }

  lemma {:induction false} SumUpdate(ws: seq<Worker>, k: nat, x: Worker, f: Worker -> nat)
    requires k < |ws|
    ensures Sum(ws[k := x], f) + f(ws[k]) == Sum(ws, f) + f(x)
    ensures f(ws[k]) <= Sum(ws, f)
  {
    if k == 0 {
      assert ws[k := x][1..] == ws[1..];
    } else {
      assert ws[k := x][1..] == ws[1..][k - 1 := x];
      SumUpdate(ws[1..], k - 1, x, f);
    }
  }

  lemma {:induction false} SumPositive(ws: seq<Worker>, f: Worker -> nat) returns (k: nat)
    requires Sum(ws, f) > 0
    ensures k < |ws| && f(ws[k]) > 0
  {
    if f(ws[0]) > 0 {
      k := 0;
    } else {
      k := SumPositive(ws[1..], f);
      k := k + 1;
    }
  }

  lemma {:induction false} SumConstant(ws: seq<Worker>, f: Worker -> nat, v: nat)
    requires forall k :: 0 <= k < |ws| ==> f(ws[k]) == v
    ensures Sum(ws, f) == v * |ws|
  {
    if ws != [] {
      SumConstant(ws[1..], f, v);
    }
  }

  /** If every worker counts at most one and they count |ws| together, each counts one. */
  lemma {:induction false} SumFull(ws: seq<Worker>, f: Worker -> nat)
    requires forall k :: 0 <= k < |ws| ==> f(ws[k]) <= 1
    ensures Sum(ws, f) <= |ws|
    ensures Sum(ws, f) == |ws| ==> forall k :: 0 <= k < |ws| ==> f(ws[k]) == 1
  {
    if ws != [] {
      SumFull(ws[1..], f);
      assert forall k :: 0 < k < |ws| ==> ws[k] == ws[1..][k - 1];
    }
  }

  /** How often `file` is held by a worker that has taken it and not yet finished it. */
  ghost function InFlight(ws: seq<Worker>, file: nat): nat { Sum(ws, Holds(file)) }

  ghost function Holds(file: nat): Worker -> nat {
    (w: Worker) => if w.Waiting? || w.Reporting? || w.Returned? || w.file != file then 0 else 1
  }

  /** How often `h` is in the dedup index with its embedding not attempted yet. */
  ghost function Claims(c: Config, ws: seq<Worker>, h: Hash): nat { Sum(ws, Claiming(c, h)) }

  ghost function Claiming(c: Config, h: Hash): Worker -> nat {
    (w: Worker) => if (w.NeedResume? || w.NeedEmbed?) && w.file < |c.files| && c.files[w.file].content == h then 1 else 0
  }

  ghost function IsReturned(): Worker -> nat { (w: Worker) => if w.Returned? then 1 else 0 }

  ghost function IsParsing(): Worker -> nat { (w: Worker) => if w.Parsing? then 1 else 0 }

  ghost function IsEmbedding(): Worker -> nat { (w: Worker) => if w.Embedding? then 1 else 0 }

  /** How often `file` has a terminal event. */
  ghost function FinishedTimes(events: seq<Event>, file: nat): nat {
    if events == [] then 0
    else
      var last := events[|events| - 1];
      FinishedTimes(events[..|events| - 1], file) + if last.file == file then 1 else 0
  }

  ghost function IngestedFiles(events: seq<Event>): seq<nat> {
    if events == [] then []
    else
      var last := events[|events| - 1];
      IngestedFiles(events[..|events| - 1]) + if last.outcome.Ingested? then [last.file] else []
  }

  lemma EventAppend(events: seq<Event>, e: Event)
    ensures forall file :: FinishedTimes(events + [e], file) == FinishedTimes(events, file) + if e.file == file then 1 else 0
    ensures IngestedFiles(events + [e]) == IngestedFiles(events) + if e.outcome.Ingested? then [e.file] else []
  {
    assert (events + [e])[..|events|] == events;
  }

  lemma {:induction false} FinishedHasEvent(events: seq<Event>, file: nat) returns (k: nat)
    requires FinishedTimes(events, file) > 0
    ensures k < |events| && events[k].file == file
  {
    if events[|events| - 1].file == file {
      k := |events| - 1;
    } else {
      k := FinishedHasEvent(events[..|events| - 1], file);
    }
  }

  // ----- The invariant ---------------------------------------------------------------------------

  function Min(a: int, b: int): int { if a < b then a else b }

  /** Items handed to workers so far. */
  function Taken(s: State): int { s.produced - |s.queue| }

  function FilesTaken(c: Config, s: State): int { Min(Taken(s), |c.files|) }

  /** The queue is the part of the schedule produced and not taken, and it is bounded. */
  ghost predicate QueueInv(c: Config, s: State) {
    && |s.workers| == WorkerCount(c)
    && |s.queue| <= s.produced <= |Schedule(c)|
    && |s.queue| <= 2 * c.maxWorkers
    && s.queue == Schedule(c)[Taken(s)..s.produced]
  }

  ghost predicate Balanced(ws: seq<Worker>, events: seq<Event>, taken: int, file: nat) {
    InFlight(ws, file) + FinishedTimes(events, file) == if file < taken then 1 else 0
  }

  /** A file taken from the queue is in flight or finished, once. */
  ghost predicate FileInv(c: Config, s: State) {
    && (forall file: nat :: Balanced(s.workers, s.events, FilesTaken(c, s), file))
    && s.processed == |s.events|
    && s.documents == IngestedFiles(s.events)
    && Sum(s.workers, IsReturned()) == Taken(s) - FilesTaken(c, s)
  }

  ghost predicate SemaphoreInv(sem: Semaphore, limit: Option<nat>, holders: nat) {
    match limit
    case None => sem == Unbounded
    case Some(n) => sem.Permits? && sem.free + holders == n
  }

  ghost predicate StageInv(c: Config, s: State) {
    && SemaphoreInv(s.parse, c.parseLimit, Sum(s.workers, IsParsing()))
    && SemaphoreInv(s.embed, c.embedLimit, Sum(s.workers, IsEmbedding()))
  }

  ghost predicate Content(c: Config, w: Worker, h: Hash) {
    !w.Waiting? && !w.Reporting? && !w.Returned? && w.file < |c.files| && c.files[w.file].content == h
  }

  /** The dedup index admits a hash once: claims and attempts together. */
  ghost predicate AtMostOnce(c: Config, s: State, h: Hash) {
    multiset(s.attempts)[h] + Claims(c, s.workers, h) <= if h in s.dedup then 1 else 0
  }

  /** A hash in the dedup index is claimed or attempted at most once. */
  ghost predicate AttemptInv(c: Config, s: State) {
    && (forall h :: AtMostOnce(c, s, h))
    && (forall w, h :: 0 <= w < |s.workers| && Content(c, s.workers[w], h) ==>
          (s.workers[w].NeedCheckpoint? || s.workers[w].Embedding? ==> h in s.attempts))
    && (forall w, h :: 0 <= w < |s.workers| && Content(c, s.workers[w], h) ==>
          (s.workers[w].NeedEmbed? && c.resume ==> (c.job, h) !in s.durable.checkpoints))
  }

  ghost predicate CheckpointsIndexed(d: Durable) {
    forall key :: key in d.checkpoints ==> key.1 in d.indexed
  }

  ghost predicate EventJustified(c: Config, s: State, e: Event) {
    && e.file < |c.files|
    && var h := c.files[e.file].content;
       match e.outcome
       case Ingested => h in s.durable.indexed && (c.job, h) in s.durable.checkpoints
       case Duplicate => h in s.dedup
       case ResumeSkip => c.resume && (c.job, h) in s.durable.checkpoints
       case DeadLettered => (c.job, c.files[e.file].source) in s.durable.deadLetters
  }

  /** Worker w has entered h in the dedup index and is still working on it. */
  ghost predicate Owns(c: Config, w: Worker, h: Hash) {
    Content(c, w, h) && !w.NeedParse? && !w.Parsing?
  }

  ghost predicate DeadWith(c: Config, events: seq<Event>, h: Hash) {
    exists k :: 0 <= k < |events| && events[k].outcome.DeadLettered? &&
                events[k].file < |c.files| && c.files[events[k].file].content == h
  }

  ghost predicate Accounted(c: Config, s: State, h: Hash) {
    || h in s.durable.indexed
    || DeadWith(c, s.events, h)
    || exists w :: 0 <= w < |s.workers| && Owns(c, s.workers[w], h)
  }

  ghost predicate CoverInv(c: Config, s: State) {
    && CheckpointsIndexed(s.durable)
    && (forall w, h :: 0 <= w < |s.workers| && Content(c, s.workers[w], h) ==>
          (s.workers[w].NeedCheckpoint? ==> h in s.durable.indexed))
    && (forall w :: 0 <= w < |s.workers| ==> (s.workers[w].NeedResume? ==> c.resume))
    && (forall k :: 0 <= k < |s.events| ==> EventJustified(c, s, s.events[k]))
    && (forall h :: h in s.dedup ==> Accounted(c, s, h))
  }

  ghost predicate RowInv(c: Config, s: State) {
    && c.job in s.durable.jobs
    && Row(s.durable, c).total == |c.files|
    && (if s.done then
          && Row(s.durable, c) == JobRow(Completed, |c.files|, s.processed)
          && s.produced == |Schedule(c)|
          && forall w :: 0 <= w < |s.workers| ==> s.workers[w].Returned?
        else
          Row(s.durable, c).status == Running)
  }

  ghost predicate Inv(c: Config, s: State) {
    QueueInv(c, s) && FileInv(c, s) && StageInv(c, s) && AttemptInv(c, s) && CoverInv(c, s) && RowInv(c, s)
  }

  lemma StartInv(c: Config, d: Durable)
    requires CheckpointsIndexed(d)
    ensures Inv(c, Start(c, d))
  {
    var s := Start(c, d);
    forall file: nat ensures Balanced(s.workers, s.events, FilesTaken(c, s), file) {
      SumConstant(s.workers, Holds(file), 0);
    }
    forall h ensures AtMostOnce(c, s, h) {
      SumConstant(s.workers, Claiming(c, h), 0);
    }
    SumConstant(s.workers, IsReturned(), 0);
    SumConstant(s.workers, IsParsing(), 0);
    SumConstant(s.workers, IsEmbedding(), 0);
  }

  /** The worker a step moves, when it moves one. */
  function Mover(step: Step): Option<nat> {
    match step
    case Put => None
    case Complete => None
    case _ => Some(step.w)
  }

  lemma QueueKept(c: Config, s: State, step: Step)
    requires QueueInv(c, s) && Enabled(c, s, step)
    ensures QueueInv(c, Apply(c, s, step))
  {
  }

  /** The next item is a file exactly while files remain. */
  lemma FrontOfQueue(c: Config, s: State)
    requires QueueInv(c, s) && s.queue != []
    ensures s.queue[0] == if Taken(s) < |c.files| then FileItem(Taken(s)) else Shutdown
  {
  }

  /** A semaphore changes together with the number of its holders. */
  ghost predicate InStep(before: Semaphore, after: Semaphore, was: nat, now: nat) {
    || (after == before && now == was)
    || (CanAcquire(before) && after == Acquire(before) && was == 0 && now == 1)
    || (after == Release(before) && was == 1 && now == 0)
  }

  lemma StagesInStep(c: Config, s: State, step: Step)
    requires Enabled(c, s, step)
    ensures var t := Apply(c, s, step);
            if Mover(step).None? then t.workers == s.workers && t.parse == s.parse && t.embed == s.embed
            else
              var w := step.w;
              && t.workers == s.workers[w := t.workers[w]]
              && InStep(s.parse, t.parse, IsParsing()(s.workers[w]), IsParsing()(t.workers[w]))
              && InStep(s.embed, t.embed, IsEmbedding()(s.workers[w]), IsEmbedding()(t.workers[w]))
  {
  }

  lemma SemaphoreKept(before: Semaphore, after: Semaphore, limit: Option<nat>, ws: seq<Worker>, w: nat, x: Worker,
      f: Worker -> nat)
    requires w < |ws| && SemaphoreInv(before, limit, Sum(ws, f)) && InStep(before, after, f(ws[w]), f(x))
    ensures SemaphoreInv(after, limit, Sum(ws[w := x], f))
  {
    SumUpdate(ws, w, x, f);
  }

  lemma StagesKept(c: Config, s: State, step: Step)
    requires StageInv(c, s) && Enabled(c, s, step)
    ensures StageInv(c, Apply(c, s, step))
  {
    StagesInStep(c, s, step);
    var t := Apply(c, s, step);
    if Mover(step).Some? {
      SemaphoreKept(s.parse, t.parse, c.parseLimit, s.workers, step.w, t.workers[step.w], IsParsing());
      SemaphoreKept(s.embed, t.embed, c.embedLimit, s.workers, step.w, t.workers[step.w], IsEmbedding());
    }
  }

  /** Worker w keeps its file, or finishes it with one more event. */
  ghost predicate FileMoved(c: Config, s: State, t: State, w: nat)
    requires HasFile(c, s, w)
  {
    var file := s.workers[w].file;
    && |t.workers| == |s.workers| && t.workers == s.workers[w := t.workers[w]]
    && t.produced == s.produced && t.queue == s.queue
    && (|| (t.events == s.events && t.documents == s.documents && t.processed == s.processed
            && Content(c, t.workers[w], c.files[file].content) && t.workers[w].file == file)
        || (|t.events| == |s.events| + 1 && t.events == s.events + [t.events[|s.events|]]
            && t.events[|s.events|].file == file && t.processed == s.processed + 1
            && t.workers[w] == Reporting(t.processed)
            && t.documents == s.documents + if t.events[|s.events|].outcome.Ingested? then [file] else []))
  }

  lemma FileStep(c: Config, s: State, step: Step)
    requires Enabled(c, s, step) && Mover(step).Some? && !step.Get? && !step.Report?
    ensures FileMoved(c, s, Apply(c, s, step), step.w)
  {
  }

  lemma FilesKept(c: Config, s: State, step: Step)
    requires QueueInv(c, s) && FileInv(c, s) && Enabled(c, s, step)
    ensures FileInv(c, Apply(c, s, step))
  {
    var t := Apply(c, s, step);
    if step.Put? || step.Complete? {
    } else if step.Get? {
      GetKeepsFiles(c, s, step.w);
    } else if step.Report? {
      ReportKeepsFiles(c, s, step.w);
    } else {
      FileStep(c, s, step);
      MoveKeepsFiles(c, s, t, step.w);
    }
  }

  lemma GetKeepsFiles(c: Config, s: State, w: nat)
    requires QueueInv(c, s) && FileInv(c, s) && Enabled(c, s, Get(w))
    ensures FileInv(c, Apply(c, s, Get(w)))
  {
    FrontOfQueue(c, s);
    var t := Apply(c, s, Get(w));
    forall file: nat ensures Balanced(t.workers, t.events, FilesTaken(c, t), file) {
      assert Balanced(s.workers, s.events, FilesTaken(c, s), file);
      SumUpdate(s.workers, w, t.workers[w], Holds(file));
    }
    SumUpdate(s.workers, w, t.workers[w], IsReturned());
  }

  lemma ReportKeepsFiles(c: Config, s: State, w: nat)
    requires FileInv(c, s) && Enabled(c, s, Report(w))
    ensures FileInv(c, Apply(c, s, Report(w)))
  {
    var ws := s.workers[w := Waiting];
    forall file: nat ensures Balanced(ws, s.events, FilesTaken(c, s), file) {
      assert Balanced(s.workers, s.events, FilesTaken(c, s), file);
      SumUpdate(s.workers, w, Waiting, Holds(file));
    }
    SumUpdate(s.workers, w, Waiting, IsReturned());
  }

  lemma MoveKeepsFiles(c: Config, s: State, t: State, w: nat)
    requires FileInv(c, s) && HasFile(c, s, w) && FileMoved(c, s, t, w)
    ensures FileInv(c, t)
  {
    if |t.events| > |s.events| {
      EventAppend(s.events, t.events[|s.events|]);
    }
    forall file: nat ensures Balanced(t.workers, t.events, FilesTaken(c, t), file) {
      assert Balanced(s.workers, s.events, FilesTaken(c, s), file);
      SumUpdate(s.workers, w, t.workers[w], Holds(file));
    }
    SumUpdate(s.workers, w, t.workers[w], IsReturned());
  }

  /** A claiming worker's hash is in the dedup index and has not been attempted. */
  lemma ClaimIsFresh(c: Config, s: State, w: nat, h: Hash)
    requires AttemptInv(c, s)
    requires w < |s.workers| && Content(c, s.workers[w], h) && (s.workers[w].NeedEmbed? || s.workers[w].NeedResume?)
    ensures h !in s.attempts && h in s.dedup
  {
    SumUpdate(s.workers, w, Waiting, Claiming(c, h));
    assert AtMostOnce(c, s, h);
  }

  /** A step that neither claims nor attempts. */
  lemma QuietKeepsAttempts(c: Config, s: State, t: State, w: nat)
    requires AttemptInv(c, s) && w < |s.workers| == |t.workers|
    requires t.workers == s.workers[w := t.workers[w]]
    requires t.attempts == s.attempts && t.dedup == s.dedup && t.durable.checkpoints == s.durable.checkpoints
    requires !t.workers[w].NeedResume? && !t.workers[w].NeedEmbed? && !t.workers[w].Embedding?
    requires t.workers[w].NeedCheckpoint? ==> s.workers[w].Embedding? && t.workers[w].file == s.workers[w].file
    ensures AttemptInv(c, t)
  {
    forall h ensures AtMostOnce(c, t, h) {
      assert AtMostOnce(c, s, h);
      SumUpdate(s.workers, w, t.workers[w], Claiming(c, h));
    }
    forall v, h | 0 <= v < |t.workers| && Content(c, t.workers[v], h)
      ensures Content(c, s.workers[v], h) || (v == w && !t.workers[w].NeedCheckpoint?)
    {
    }
  }

  lemma ParseOkKeepsAttempts(c: Config, s: State, w: nat)
    requires AttemptInv(c, s) && Enabled(c, s, ParseOk(w))
    ensures AttemptInv(c, Apply(c, s, ParseOk(w)))
  {
    var t := Apply(c, s, ParseOk(w));
    if c.files[s.workers[w].file].content in s.dedup {
      QuietKeepsAttempts(c, s, t, w);
    } else {
      forall h ensures AtMostOnce(c, t, h) {
        assert AtMostOnce(c, s, h);
        SumUpdate(s.workers, w, t.workers[w], Claiming(c, h));
      }
      assert forall v :: 0 <= v < |t.workers| && v != w ==> t.workers[v] == s.workers[v];
    }
  }

  lemma CheckResumeKeepsAttempts(c: Config, s: State, w: nat)
    requires AttemptInv(c, s) && Enabled(c, s, CheckResume(w))
    ensures AttemptInv(c, Apply(c, s, CheckResume(w)))
  {
    var t := Apply(c, s, CheckResume(w));
    if (c.job, c.files[s.workers[w].file].content) in s.durable.checkpoints {
      QuietKeepsAttempts(c, s, t, w);
    } else {
      forall h ensures AtMostOnce(c, t, h) {
        assert AtMostOnce(c, s, h);
        SumUpdate(s.workers, w, t.workers[w], Claiming(c, h));
      }
      assert forall v :: 0 <= v < |t.workers| && v != w ==> t.workers[v] == s.workers[v];
    }
  }

  lemma AcquireEmbedKeepsAttempts(c: Config, s: State, w: nat)
    requires AttemptInv(c, s) && Enabled(c, s, AcquireEmbed(w))
    ensures AttemptInv(c, Apply(c, s, AcquireEmbed(w)))
  {
    var t := Apply(c, s, AcquireEmbed(w));
    forall h ensures AtMostOnce(c, t, h) {
      assert AtMostOnce(c, s, h);
      SumUpdate(s.workers, w, t.workers[w], Claiming(c, h));
    }
    assert forall v :: 0 <= v < |t.workers| && v != w ==> t.workers[v] == s.workers[v];
  }

  /** The new checkpoint is of an attempted hash, so no waiting claim has it. */
  lemma SaveCheckpointKeepsAttempts(c: Config, s: State, w: nat)
    requires AttemptInv(c, s) && Enabled(c, s, SaveCheckpoint(w))
    ensures AttemptInv(c, Apply(c, s, SaveCheckpoint(w)))
  {
    var t := Apply(c, s, SaveCheckpoint(w));
    var own := c.files[s.workers[w].file].content;
    assert Content(c, s.workers[w], own);
    forall h ensures AtMostOnce(c, t, h) {
      assert AtMostOnce(c, s, h);
      SumUpdate(s.workers, w, t.workers[w], Claiming(c, h));
    }
    forall v, h | 0 <= v < |t.workers| && Content(c, t.workers[v], h) && t.workers[v].NeedEmbed? && c.resume
      ensures (c.job, h) !in t.durable.checkpoints
    {
      assert t.workers[v] == s.workers[v];
      ClaimIsFresh(c, s, v, h);
    }
    assert forall v :: 0 <= v < |t.workers| && v != w ==> t.workers[v] == s.workers[v];
  }

  lemma AttemptsKept(c: Config, s: State, step: Step)
    requires AttemptInv(c, s) && Enabled(c, s, step)
    ensures AttemptInv(c, Apply(c, s, step))
  {
    match step
    case Put =>
      assert forall h :: AtMostOnce(c, s, h) ==> AtMostOnce(c, Apply(c, s, step), h);
    case Complete =>
      assert forall h :: AtMostOnce(c, s, h) ==> AtMostOnce(c, Apply(c, s, step), h);
    case ParseOk(w) => ParseOkKeepsAttempts(c, s, w);
    case CheckResume(w) => CheckResumeKeepsAttempts(c, s, w);
    case AcquireEmbed(w) => AcquireEmbedKeepsAttempts(c, s, w);
    case SaveCheckpoint(w) => SaveCheckpointKeepsAttempts(c, s, w);
    case _ => QuietKeepsAttempts(c, s, Apply(c, s, step), step.w);
  }

  /** Records only grow. */
  ghost predicate Grows(s: State, t: State) {
    && s.dedup <= t.dedup && s.durable.indexed <= t.durable.indexed
    && s.durable.checkpoints.Keys <= t.durable.checkpoints.Keys
    && s.durable.deadLetters <= t.durable.deadLetters
    && s.events <= t.events
  }

  lemma JustifiedStays(c: Config, s: State, t: State, e: Event)
    requires Grows(s, t) && EventJustified(c, s, e)
    ensures EventJustified(c, t, e)
  {
  }

  lemma AccountedStays(c: Config, s: State, t: State, w: nat, h: Hash)
    requires Grows(s, t) && w < |s.workers| == |t.workers| && t.workers == s.workers[w := t.workers[w]]
    requires Owns(c, s.workers[w], h) ==> Accounted(c, t, h)
    requires Accounted(c, s, h)
    ensures Accounted(c, t, h)
  {
    if h in s.durable.indexed {
    } else if DeadWith(c, s.events, h) {
      var k :| 0 <= k < |s.events| && s.events[k].outcome.DeadLettered? &&
               s.events[k].file < |c.files| && c.files[s.events[k].file].content == h;
      assert t.events[k] == s.events[k];
    } else {
      var v :| 0 <= v < |s.workers| && Owns(c, s.workers[v], h);
      if v != w {
        assert Owns(c, t.workers[v], h);
      }
    }
  }

  lemma MoveKeepsCover(c: Config, s: State, t: State, w: nat)
    requires CoverInv(c, s) && Grows(s, t)
    requires w < |s.workers| == |t.workers| && t.workers == s.workers[w := t.workers[w]]
    requires forall key :: key in t.durable.checkpoints ==> key in s.durable.checkpoints || key.1 in t.durable.indexed
    requires forall h :: h in t.dedup ==> h in s.dedup || Owns(c, t.workers[w], h)
    requires forall h :: Content(c, t.workers[w], h) && t.workers[w].NeedCheckpoint? ==> h in t.durable.indexed
    requires t.workers[w].NeedResume? ==> c.resume
    requires forall h :: Owns(c, s.workers[w], h) ==> Accounted(c, t, h)
    requires t.events == s.events || (|t.events| == |s.events| + 1 && EventJustified(c, t, t.events[|s.events|]))
    ensures CoverInv(c, t)
  {
    forall k | 0 <= k < |t.events| ensures EventJustified(c, t, t.events[k]) {
      if k < |s.events| {
        JustifiedStays(c, s, t, s.events[k]);
      }
    }
    forall h | h in t.dedup ensures Accounted(c, t, h) {
      if h in s.dedup {
        AccountedStays(c, s, t, w, h);
      } else {
        assert Owns(c, t.workers[w], h);
      }
    }
    assert forall v :: 0 <= v < |t.workers| && v != w ==> t.workers[v] == s.workers[v];
  }

  /** A recorded event tells the truth about the tables at that moment. */
  lemma NewEventJustified(c: Config, s: State, step: Step)
    requires CoverInv(c, s) && Enabled(c, s, step)
    ensures var t := Apply(c, s, step);
            t.events == s.events || (|t.events| == |s.events| + 1 && EventJustified(c, t, t.events[|s.events|]))
  {
    var t := Apply(c, s, step);
    if t.events != s.events {
      var file := s.workers[step.w].file;
      assert Content(c, s.workers[step.w], c.files[file].content);
      assert t.events[|s.events|].file == file;
    }
  }

  lemma IdleKeepsCover(c: Config, s: State, step: Step)
    requires CoverInv(c, s) && Enabled(c, s, step) && Mover(step).None?
    ensures CoverInv(c, Apply(c, s, step))
  {
    var t := Apply(c, s, step);
    forall h | h in t.dedup ensures Accounted(c, t, h) {
      assert Accounted(c, s, h);
    }
    forall k | 0 <= k < |t.events| ensures EventJustified(c, t, t.events[k]) {
      JustifiedStays(c, s, t, s.events[k]);
    }
  }

  /** The moving worker passes its hash on: it still owns it, or has indexed or dead-lettered it. */
  lemma OwnedStaysAccounted(c: Config, s: State, step: Step, h: Hash)
    requires CoverInv(c, s) && Enabled(c, s, step) && Mover(step).Some? && Owns(c, s.workers[step.w], h)
    ensures Accounted(c, Apply(c, s, step), h)
  {
    var t := Apply(c, s, step);
    if step.SaveDeadLetter? {
      assert t.events[|s.events|] == Event(s.workers[step.w].file, DeadLettered);
    } else if h !in t.durable.indexed {
      assert Owns(c, t.workers[step.w], h);
    }
  }

  /** The other facts about the moving worker. */
  lemma MoverFacts(c: Config, s: State, step: Step)
    requires CoverInv(c, s) && Enabled(c, s, step) && Mover(step).Some?
    ensures var t := Apply(c, s, step); var w := step.w;
            && Grows(s, t) && |s.workers| == |t.workers| && t.workers == s.workers[w := t.workers[w]]
            && (forall key :: key in t.durable.checkpoints ==> key in s.durable.checkpoints || key.1 in t.durable.indexed)
            && (forall h :: h in t.dedup ==> h in s.dedup || Owns(c, t.workers[w], h))
            && (forall h :: Content(c, t.workers[w], h) && t.workers[w].NeedCheckpoint? ==> h in t.durable.indexed)
            && (t.workers[w].NeedResume? ==> c.resume)
  {
    var t := Apply(c, s, step);
    if step.SaveCheckpoint? {
      assert Content(c, s.workers[step.w], c.files[s.workers[step.w].file].content);
    }
    assert forall h :: h in t.dedup ==> h in s.dedup || Content(c, t.workers[step.w], h);
  }

  lemma CoverKept(c: Config, s: State, step: Step)
    requires CoverInv(c, s) && Enabled(c, s, step)
    ensures CoverInv(c, Apply(c, s, step))
  {
    if Mover(step).None? {
      IdleKeepsCover(c, s, step);
    } else {
      forall h | Owns(c, s.workers[step.w], h) ensures Accounted(c, Apply(c, s, step), h) {
        OwnedStaysAccounted(c, s, step, h);
      }
      MoverFacts(c, s, step);
      NewEventJustified(c, s, step);
      MoveKeepsCover(c, s, Apply(c, s, step), step.w);
    }
  }

  lemma RowKept(c: Config, s: State, step: Step)
    requires RowInv(c, s) && QueueInv(c, s) && FileInv(c, s) && Enabled(c, s, step)
    ensures RowInv(c, Apply(c, s, step))
  {
    if step.Complete? {
      AllReturned(c, s);
    } else if s.done {
      AllReturned(c, s);
    }
  }

  /** Once everything is produced and every worker has returned, the queue is empty and each
      file has one terminal event. */
  lemma AllReturned(c: Config, s: State)
    requires QueueInv(c, s) && FileInv(c, s) && s.produced == |Schedule(c)|
    requires forall w :: 0 <= w < |s.workers| ==> s.workers[w].Returned?
    ensures s.queue == [] && FilesTaken(c, s) == |c.files|
    ensures forall file: nat :: FinishedTimes(s.events, file) == if file < |c.files| then 1 else 0
    ensures s.processed == |c.files|
  {
    SumConstant(s.workers, IsReturned(), 1);
    forall file: nat ensures FinishedTimes(s.events, file) == if file < |c.files| then 1 else 0 {
      SumConstant(s.workers, Holds(file), 0);
      assert Balanced(s.workers, s.events, FilesTaken(c, s), file);
    }
    EachOnce(s.events, |c.files|);
  }

  ghost function Remove(events: seq<Event>, k: nat): seq<Event>
    requires k < |events|
  {
    events[..k] + events[k + 1..]
  }

  lemma {:induction false} RemoveCount(events: seq<Event>, k: nat, file: nat)
    requires k < |events|
    ensures FinishedTimes(Remove(events, k), file) + (if events[k].file == file then 1 else 0) == FinishedTimes(events, file)
  {
    var n := |events| - 1;
    if k == n {
      assert Remove(events, k) == events[..n];
    } else {
      RemoveCount(events[..n], k, file);
      assert Remove(events, k)[..n - 1] == Remove(events[..n], k);
    }
  }

  lemma LastCounts(events: seq<Event>)
    requires events != []
    ensures FinishedTimes(events, events[|events| - 1].file) > 0
  {
  }

  /** If each of 0..n-1 occurs once and nothing else does, there are n events. */
  lemma {:induction false} EachOnce(events: seq<Event>, n: nat)
    requires forall file: nat :: FinishedTimes(events, file) == if file < n then 1 else 0
    ensures |events| == n
  {
    if n == 0 {
      if events != [] {
        LastCounts(events);
      }
    } else {
      var k := FinishedHasEvent(events, n - 1);
      forall file: nat ensures FinishedTimes(Remove(events, k), file) == if file < n - 1 then 1 else 0 {
        RemoveCount(events, k, file);
      }
      EachOnce(Remove(events, k), n - 1);
    }
  }

  // ----- Safety over every run ---------------------------------------------------------------------

  lemma InvKept(c: Config, s: State, step: Step)
    requires Inv(c, s) && Enabled(c, s, step)
    ensures Inv(c, Apply(c, s, step))
  {
    QueueKept(c, s, step);
    FilesKept(c, s, step);
    StagesKept(c, s, step);
    AttemptsKept(c, s, step);
    CoverKept(c, s, step);
    RowKept(c, s, step);
  }

  lemma {:induction false} InvAlways(c: Config, s: State, steps: seq<Step>)
    requires Inv(c, s) && ValidRun(c, s, steps)
    ensures Inv(c, After(c, s, steps))
    decreases |steps|
  {
    if steps != [] {
      InvKept(c, s, steps[0]);
      InvAlways(c, Apply(c, s, steps[0]), steps[1..]);
    }
  }

  lemma RunInv(c: Config, d: Durable, steps: seq<Step>)
    requires CheckpointsIndexed(d) && ValidRun(c, Start(c, d), steps)
    ensures Inv(c, After(c, Start(c, d), steps))
  {
    StartInv(c, d);
    InvAlways(c, Start(c, d), steps);
  }

  /** At every moment of every interleaving: no hash has been handed to the embedder twice, no
      file has two terminal records, stage limits and the queue bound hold, and the processed
      counter counts the terminal records. */
  lemma SafeAtEveryMoment(c: Config, d: Durable, steps: seq<Step>)
    requires CheckpointsIndexed(d) && ValidRun(c, Start(c, d), steps)
    ensures var s := After(c, Start(c, d), steps);
            && (forall i, j :: 0 <= i < j < |s.attempts| ==> s.attempts[i] != s.attempts[j])
            && (forall file: nat :: FinishedTimes(s.events, file) <= if file < |c.files| then 1 else 0)
            && (c.parseLimit.Some? ==> Sum(s.workers, IsParsing()) <= c.parseLimit.value)
            && (c.embedLimit.Some? ==> Sum(s.workers, IsEmbedding()) <= c.embedLimit.value)
            && |s.queue| <= 2 * c.maxWorkers
            && s.processed == |s.events|
            && s.documents == IngestedFiles(s.events)
  {
    RunInv(c, d, steps);
    var s := After(c, Start(c, d), steps);
    forall i, j | 0 <= i < j < |s.attempts| ensures s.attempts[i] != s.attempts[j] {
      assert AtMostOnce(c, s, s.attempts[i]);
      if s.attempts[i] == s.attempts[j] {
        TwiceInMultiset(s.attempts, i, j);
      }
    }
    forall file: nat ensures FinishedTimes(s.events, file) <= if file < |c.files| then 1 else 0 {
      assert Balanced(s.workers, s.events, FilesTaken(c, s), file);
    }
  }

  lemma TwiceInMultiset<T>(xs: seq<T>, i: nat, j: nat)
    requires i < j < |xs| && xs[i] == xs[j]
    ensures multiset(xs)[xs[i]] >= 2
  {
    assert xs == xs[..j] + xs[j..];
    assert xs[i] in xs[..j] && xs[j] in xs[j..];
    assert multiset(xs) == multiset(xs[..j]) + multiset(xs[j..]);
  }

  // ----- What a run writes -------------------------------------------------------------------------

  /** The dead-letter rows of the files dead-lettered, in the order of their events. */
  function DeadRows(c: Config, events: seq<Event>): seq<(JobId, string)> {
    if events == [] then []
    else
      var last := events[|events| - 1];
      DeadRows(c, events[..|events| - 1]) +
      if last.outcome.DeadLettered? && last.file < |c.files| then [(c.job, c.files[last.file].source)] else []
  }

  lemma DeadRowsSnoc(c: Config, events: seq<Event>, e: Event)
    ensures DeadRows(c, events + [e]) == DeadRows(c, events) +
            if e.outcome.DeadLettered? && e.file < |c.files| then [(c.job, c.files[e.file].source)] else []
  {
    assert (events + [e])[..|events|] == events;
  }

  /** The row was written for file k of the run, which has been ingested. */
  ghost predicate WrittenFor(c: Config, events: seq<Event>, key: (JobId, Hash), source: string, k: nat) {
    && k < |events| && events[k].outcome.Ingested? && events[k].file < |c.files|
    && key == (c.job, c.files[events[k].file].content) && source == c.files[events[k].file].source
  }

  /** A checkpoint was there before, unchanged, or was written by this run for an ingested file. */
  ghost predicate CheckpointOrigin(c: Config, d: Durable, s: State, key: (JobId, Hash))
    requires key in s.durable.checkpoints
  {
    if key in d.checkpoints then s.durable.checkpoints[key] == d.checkpoints[key]
    else exists k: nat :: WrittenFor(c, s.events, key, s.durable.checkpoints[key], k)
  }

  ghost predicate AboutToCheckpoint(c: Config, s: State, h: Hash) {
    exists w :: 0 <= w < |s.workers| && s.workers[w].NeedCheckpoint? && Content(c, s.workers[w], h)
  }

  /** An indexed hash was so before, or has a checkpoint of this job, or is about to get it. */
  ghost predicate IndexOrigin(c: Config, d: Durable, s: State, h: Hash) {
    h in d.indexed || (c.job, h) in s.durable.checkpoints || AboutToCheckpoint(c, s, h)
  }

  /** Everything in the tables is from before the run or accounted for by its events and attempts. */
  ghost predicate Written(c: Config, d: Durable, s: State) {
    && s.durable.deadLetters == d.deadLetters + DeadRows(c, s.events)
    && d.checkpoints.Keys <= s.durable.checkpoints.Keys
    && (forall key :: key in s.durable.checkpoints ==> CheckpointOrigin(c, d, s, key))
    && d.indexed <= s.durable.indexed && (forall h :: h in s.durable.indexed ==> IndexOrigin(c, d, s, h))
    && s.durable.jobs - {c.job} == d.jobs - {c.job}
  }

  /** Saving a dead letter adds its row and its event; no other step touches the table. */
  lemma DeadLetterStep(c: Config, s: State, step: Step)
    requires Enabled(c, s, step)
    ensures var t := Apply(c, s, step);
            if step.SaveDeadLetter? then
              var file := s.workers[step.w].file;
              t.events == s.events + [Event(file, DeadLettered)]
              && t.durable.deadLetters == s.durable.deadLetters + [(c.job, c.files[file].source)]
            else
              t.durable.deadLetters == s.durable.deadLetters
              && (t.events == s.events || exists e: Event :: t.events == s.events + [e] && !e.outcome.DeadLettered?)
  {
    var t := Apply(c, s, step);
    if t.events != s.events {
      assert t.events == s.events + [t.events[|s.events|]];
    }
  }

  lemma DeadLettersKept(c: Config, d: Durable, s: State, step: Step)
    requires s.durable.deadLetters == d.deadLetters + DeadRows(c, s.events) && Enabled(c, s, step)
    ensures var t := Apply(c, s, step); t.durable.deadLetters == d.deadLetters + DeadRows(c, t.events)
  {
    DeadLetterStep(c, s, step);
    if step.SaveDeadLetter? {
      DeadRowsSnoc(c, s.events, Event(s.workers[step.w].file, DeadLettered));
    } else if Apply(c, s, step).events != s.events {
      var e: Event :| Apply(c, s, step).events == s.events + [e] && !e.outcome.DeadLettered?;
      DeadRowsSnoc(c, s.events, e);
    }
  }

  lemma OriginStays(c: Config, d: Durable, s: State, t: State, key: (JobId, Hash))
    requires key in s.durable.checkpoints && CheckpointOrigin(c, d, s, key)
    requires key in t.durable.checkpoints && t.durable.checkpoints[key] == s.durable.checkpoints[key]
    requires s.events <= t.events
    ensures CheckpointOrigin(c, d, t, key)
  {
    if key !in d.checkpoints {
      var k: nat :| WrittenFor(c, s.events, key, s.durable.checkpoints[key], k);
      assert WrittenFor(c, t.events, key, t.durable.checkpoints[key], k);
    }
  }

  lemma CheckpointsKept(c: Config, d: Durable, s: State, step: Step)
    requires Written(c, d, s) && Enabled(c, s, step)
    ensures var t := Apply(c, s, step);
            d.checkpoints.Keys <= t.durable.checkpoints.Keys
            && forall key :: key in t.durable.checkpoints ==> CheckpointOrigin(c, d, t, key)
  {
    var t := Apply(c, s, step);
    forall key | key in t.durable.checkpoints ensures CheckpointOrigin(c, d, t, key) {
      if key in s.durable.checkpoints {
        OriginStays(c, d, s, t, key);
      } else {
        assert WrittenFor(c, t.events, key, t.durable.checkpoints[key], |s.events|);
      }
    }
  }

  lemma StillAboutTo(c: Config, s: State, step: Step, h: Hash)
    requires Enabled(c, s, step) && AboutToCheckpoint(c, s, h)
    ensures AboutToCheckpoint(c, Apply(c, s, step), h) || (c.job, h) in Apply(c, s, step).durable.checkpoints
  {
    var w :| 0 <= w < |s.workers| && s.workers[w].NeedCheckpoint? && Content(c, s.workers[w], h);
    var t := Apply(c, s, step);
    if !(step.SaveCheckpoint? && step.w == w) {
      assert t.workers[w] == s.workers[w];
    }
  }

  /** Only a successful embedding indexes a hash, and its worker goes on to the checkpoint. */
  lemma NewlyIndexed(c: Config, s: State, step: Step, h: Hash)
    requires Enabled(c, s, step) && h in Apply(c, s, step).durable.indexed && h !in s.durable.indexed
    ensures step.EmbedOk? && AboutToCheckpoint(c, Apply(c, s, step), h)
  {
    assert Content(c, Apply(c, s, step).workers[step.w], h);
  }

  lemma IndexedKept(c: Config, d: Durable, s: State, step: Step)
    requires Written(c, d, s) && Enabled(c, s, step)
    ensures var t := Apply(c, s, step);
            d.indexed <= t.durable.indexed && forall h :: h in t.durable.indexed ==> IndexOrigin(c, d, t, h)
  {
    var t := Apply(c, s, step);
    StepExtends(c, s, step);
    forall h | h in t.durable.indexed ensures IndexOrigin(c, d, t, h) {
      if h !in s.durable.indexed {
        NewlyIndexed(c, s, step, h);
      } else if AboutToCheckpoint(c, s, h) {
        StillAboutTo(c, s, step, h);
      }
    }
  }

  lemma OtherJobsKept(c: Config, s: State, step: Step)
    requires Enabled(c, s, step)
    ensures Apply(c, s, step).durable.jobs - {c.job} == s.durable.jobs - {c.job}
  {
  }

  lemma WrittenKept(c: Config, d: Durable, s: State, step: Step)
    requires Written(c, d, s) && Enabled(c, s, step)
    ensures Written(c, d, Apply(c, s, step))
  {
    DeadLettersKept(c, d, s, step);
    CheckpointsKept(c, d, s, step);
    IndexedKept(c, d, s, step);
    OtherJobsKept(c, s, step);
  }

  lemma {:induction false} WrittenAlways(c: Config, d: Durable, s: State, steps: seq<Step>)
    requires Written(c, d, s) && ValidRun(c, s, steps)
    ensures Written(c, d, After(c, s, steps))
    decreases |steps|
  {
    if steps != [] {
      WrittenKept(c, d, s, steps[0]);
      WrittenAlways(c, d, Apply(c, s, steps[0]), steps[1..]);
    }
  }

  /** At every moment of every run: the dead-letter table has grown by the files dead-lettered, in
      that order, and by nothing else; a new checkpoint is that of an ingested file, with its
      source, and old ones are unchanged; a hash newly indexed has its checkpoint or is about to get
      it; and no row of another job was touched. */
  lemma WritesOnlyOutcomes(c: Config, d: Durable, steps: seq<Step>)
    requires ValidRun(c, Start(c, d), steps)
    ensures Written(c, d, After(c, Start(c, d), steps))
  {
    WrittenAlways(c, d, Start(c, d), steps);
  }

  function Failures(steps: seq<Step>): nat {
    if steps == [] then 0 else (if steps[0].ParseFail? || steps[0].EmbedFail? then 1 else 0) + Failures(steps[1..])
  }

  function Embeddings(steps: seq<Step>): nat {
    if steps == [] then 0 else (if steps[0].EmbedOk? then 1 else 0) + Embeddings(steps[1..])
  }

  ghost function IsFailing(): Worker -> nat { (w: Worker) => if w.NeedDeadLetter? then 1 else 0 }

  ghost function IsSaving(): Worker -> nat { (w: Worker) => if w.NeedCheckpoint? then 1 else 0 }

  /** How many files have this outcome. */
  ghost function Outcomes(events: seq<Event>, outcome: Outcome): nat {
    if events == [] then 0
    else Outcomes(events[..|events| - 1], outcome) + if events[|events| - 1].outcome == outcome then 1 else 0
  }

  lemma OutcomesSnoc(events: seq<Event>, e: Event, outcome: Outcome)
    ensures Outcomes(events + [e], outcome) == Outcomes(events, outcome) + if e.outcome == outcome then 1 else 0
  {
    assert (events + [e])[..|events|] == events;
  }

  /** The moving worker and the event it may record. */
  lemma OutcomeStep(c: Config, s: State, step: Step)
    requires Enabled(c, s, step) && Mover(step).Some?
    ensures var t := Apply(c, s, step); var w := step.w;
            && t.workers == s.workers[w := t.workers[w]]
            && (IsFailing()(t.workers[w]) == if step.ParseFail? || step.EmbedFail? then 1 else 0)
            && (IsFailing()(s.workers[w]) == if step.SaveDeadLetter? then 1 else 0)
            && (IsSaving()(t.workers[w]) == if step.EmbedOk? then 1 else 0)
            && (IsSaving()(s.workers[w]) == if step.SaveCheckpoint? then 1 else 0)
            && (|| (t.events == s.events && !step.SaveDeadLetter? && !step.SaveCheckpoint?)
                || (|t.events| == |s.events| + 1 && t.events == s.events + [t.events[|s.events|]]
                    && (t.events[|s.events|].outcome.DeadLettered? <==> step.SaveDeadLetter?)
                    && (t.events[|s.events|].outcome.Ingested? <==> step.SaveCheckpoint?)))
  {
  }

  lemma OutcomesMove(c: Config, s: State, step: Step)
    requires Enabled(c, s, step)
    ensures var t := Apply(c, s, step);
            && Sum(t.workers, IsFailing()) + Outcomes(t.events, DeadLettered)
               == Sum(s.workers, IsFailing()) + Outcomes(s.events, DeadLettered) + Failures([step])
            && Sum(t.workers, IsSaving()) + Outcomes(t.events, Ingested)
               == Sum(s.workers, IsSaving()) + Outcomes(s.events, Ingested) + Embeddings([step])
  {
    var t := Apply(c, s, step);
    if Mover(step).Some? {
      OutcomeStep(c, s, step);
      SumUpdate(s.workers, step.w, t.workers[step.w], IsFailing());
      SumUpdate(s.workers, step.w, t.workers[step.w], IsSaving());
      if t.events != s.events {
        OutcomesSnoc(s.events, t.events[|s.events|], DeadLettered);
        OutcomesSnoc(s.events, t.events[|s.events|], Ingested);
      }
    }
  }

  lemma {:induction false} OutcomesAdd(c: Config, s: State, steps: seq<Step>)
    requires ValidRun(c, s, steps)
    ensures var t := After(c, s, steps);
            && Sum(t.workers, IsFailing()) + Outcomes(t.events, DeadLettered)
               == Sum(s.workers, IsFailing()) + Outcomes(s.events, DeadLettered) + Failures(steps)
            && Sum(t.workers, IsSaving()) + Outcomes(t.events, Ingested)
               == Sum(s.workers, IsSaving()) + Outcomes(s.events, Ingested) + Embeddings(steps)
    decreases |steps|
  {
    if steps != [] {
      OutcomesMove(c, s, steps[0]);
      assert [steps[0]][1..] == [];
      OutcomesAdd(c, Apply(c, s, steps[0]), steps[1..]);
    }
  }

  /** Every failed parse or embedding ends in a dead letter and nothing else does, and every successful
      embedding ends in an ingested file and nothing else does; at any moment the difference is what
      the workers are about to write. */
  lemma OutcomesAreCaused(c: Config, d: Durable, steps: seq<Step>)
    requires ValidRun(c, Start(c, d), steps)
    ensures var s := After(c, Start(c, d), steps);
            && Failures(steps) == Sum(s.workers, IsFailing()) + Outcomes(s.events, DeadLettered)
            && Embeddings(steps) == Sum(s.workers, IsSaving()) + Outcomes(s.events, Ingested)
  {
    OutcomesAdd(c, Start(c, d), steps);
    SumConstant(Start(c, d).workers, IsFailing(), 0);
    SumConstant(Start(c, d).workers, IsSaving(), 0);
  }

  /** The job row never runs ahead of the files finished. */
  ghost predicate NotAhead(c: Config, s: State) {
    && c.job in s.durable.jobs && s.durable.jobs[c.job].processed <= s.processed
    && (forall w :: 0 <= w < |s.workers| && s.workers[w].Reporting? ==> s.workers[w].seen <= s.processed)
  }

  /** A lone worker is about to write the number of files finished, or the row has it. */
  ghost predicate UpToDate(c: Config, s: State) {
    && c.job in s.durable.jobs
    && (s.workers == [] ==> s.processed == 0 && s.durable.jobs[c.job].processed == 0)
    && (|s.workers| == 1 ==>
          s.processed == if s.workers[0].Reporting? then s.workers[0].seen else s.durable.jobs[c.job].processed)
  }

  lemma NotAheadKept(c: Config, s: State, step: Step)
    requires NotAhead(c, s) && Enabled(c, s, step)
    ensures NotAhead(c, Apply(c, s, step))
  {
  }

  lemma UpToDateKept(c: Config, s: State, step: Step)
    requires UpToDate(c, s) && Enabled(c, s, step)
    ensures UpToDate(c, Apply(c, s, step))
  {
  }

  lemma {:induction false} ReportedAlways(c: Config, s: State, steps: seq<Step>)
    requires NotAhead(c, s) && UpToDate(c, s) && ValidRun(c, s, steps)
    ensures NotAhead(c, After(c, s, steps)) && UpToDate(c, After(c, s, steps))
    decreases |steps|
  {
    if steps != [] {
      NotAheadKept(c, s, steps[0]);
      UpToDateKept(c, s, steps[0]);
      ReportedAlways(c, Apply(c, s, steps[0]), steps[1..]);
    }
  }

  /** The `processed_items` of the job row are never more than the files finished, and with one worker
      they are exactly those whenever it is not about to write. */
  lemma ReportsProgress(c: Config, d: Durable, steps: seq<Step>)
    requires ValidRun(c, Start(c, d), steps)
    ensures NotAhead(c, After(c, Start(c, d), steps)) && UpToDate(c, After(c, Start(c, d), steps))
  {
    ReportedAlways(c, Start(c, d), steps);
  }

  /** A run marked completed: every file has exactly one outcome, the outcome matches the tables,
      the dead-letter table has grown by the files dead-lettered alone,
      the job row shows `total` processed items although the workers' own row writes may land out
      of order, every worker has returned and the queue is empty. */
  lemma CompletedRun(c: Config, d: Durable, steps: seq<Step>)
    requires CheckpointsIndexed(d) && ValidRun(c, Start(c, d), steps)
    requires After(c, Start(c, d), steps).done
    ensures var s := After(c, Start(c, d), steps);
            && (forall file: nat :: FinishedTimes(s.events, file) == if file < |c.files| then 1 else 0)
            && |s.events| == s.processed == |c.files|
            && (forall k :: 0 <= k < |s.events| ==> EventJustified(c, s, s.events[k]))
            && c.job in s.durable.jobs
            && s.durable.jobs[c.job] == JobRow(Completed, |c.files|, |c.files|)
            && s.durable.deadLetters == d.deadLetters + DeadRows(c, s.events)
            && s.queue == []
            && forall w :: 0 <= w < |s.workers| ==> s.workers[w].Returned?
  {
    RunInv(c, d, steps);
    WritesOnlyOutcomes(c, d, steps);
    AllReturned(c, After(c, Start(c, d), steps));
  }

  // ----- Progress --------------------------------------------------------------------------------

  /** Nobody waits for a stage that lets nobody in. */
  ghost predicate Unblocked(c: Config, s: State) {
    forall w :: 0 <= w < |s.workers| ==>
      && (s.workers[w].NeedParse? ==> c.parseLimit != Some(0))
      && (s.workers[w].NeedEmbed? ==> c.embedLimit != Some(0))
  }

  lemma HeldFile(c: Config, s: State, w: nat)
    requires FileInv(c, s) && w < |s.workers|
    requires !s.workers[w].Waiting? && !s.workers[w].Reporting? && !s.workers[w].Returned?
    ensures HasFile(c, s, w)
  {
    var file := s.workers[w].file;
    SumUpdate(s.workers, w, Waiting, Holds(file));
    assert Balanced(s.workers, s.events, FilesTaken(c, s), file);
  }

  /** A worker that is neither idle nor gone can move, or the holder of the semaphore it waits for can. */
  lemma BusyCanMove(c: Config, s: State, w: nat) returns (step: Step)
    requires Unblocked(c, s) && FileInv(c, s) && StageInv(c, s) && w < |s.workers|
    requires !s.workers[w].Waiting? && !s.workers[w].Returned?
    ensures Enabled(c, s, step)
  {
    if !s.workers[w].Reporting? {
      HeldFile(c, s, w);
    }
    match s.workers[w]
    case NeedParse(_) =>
      if CanAcquire(s.parse) {
        step := AcquireParse(w);
      } else {
        var v := SumPositive(s.workers, IsParsing());
        HeldFile(c, s, v);
        step := ParseOk(v);
      }
    case NeedEmbed(_) =>
      if CanAcquire(s.embed) {
        step := AcquireEmbed(w);
      } else {
        var v := SumPositive(s.workers, IsEmbedding());
        HeldFile(c, s, v);
        step := EmbedOk(v);
      }
    case Parsing(_) => step := ParseOk(w);
    case NeedResume(_) => step := CheckResume(w);
    case Embedding(_) => step := EmbedOk(w);
    case NeedCheckpoint(_) => step := SaveCheckpoint(w);
    case NeedDeadLetter(_) => step := SaveDeadLetter(w);
    case Reporting(_) => step := Report(w);
  }

  /** Until a run is marked completed some step is enabled, unless somebody waits for a closed stage. */
  lemma NeverStuck(c: Config, s: State) returns (step: Step)
    requires c.maxWorkers >= 1 && Unblocked(c, s) && Inv(c, s) && !s.done
    ensures Enabled(c, s, step)
  {
    if w :| 0 <= w < |s.workers| && !s.workers[w].Waiting? && !s.workers[w].Returned? {
      step := BusyCanMove(c, s, w);
    } else if s.queue == [] && s.produced < |Schedule(c)| {
      step := Put;
    } else if w :| 0 <= w < |s.workers| && s.workers[w].Waiting? && s.queue != [] {
      step := Get(w);
    } else {
      SentinelsLeft(c, s);
      step := Complete;
    }
  }

  /** With everybody idle or gone and nothing to hand out, each worker has its sentinel. */
  lemma SentinelsLeft(c: Config, s: State)
    requires QueueInv(c, s) && FileInv(c, s)
    requires forall w :: 0 <= w < |s.workers| ==> s.workers[w].Waiting? || s.workers[w].Returned?
    requires s.queue == [] ==> s.produced == |Schedule(c)|
    requires s.queue != [] ==> forall w :: 0 <= w < |s.workers| ==> s.workers[w].Returned?
    ensures s.produced == |Schedule(c)|
    ensures forall w :: 0 <= w < |s.workers| ==> s.workers[w].Returned?
  {
    SumFull(s.workers, IsReturned());
    if s.queue == [] {
      assert Sum(s.workers, IsReturned()) == |s.workers|;
      forall w | 0 <= w < |s.workers| ensures s.workers[w].Returned? {
        assert IsReturned()(s.workers[w]) == 1;
      }
    } else {
      SumConstant(s.workers, IsReturned(), 1);
    }
  }

  ghost function Rank(): Worker -> nat {
    (w: Worker) =>
      match w
      case Returned => 0
      case Waiting => 1
      case Reporting(_) => 2
      case NeedDeadLetter(_) => 3
      case NeedCheckpoint(_) => 3
      case Embedding(_) => 4
      case NeedEmbed(_) => 5
      case NeedResume(_) => 6
      case Parsing(_) => 7
      case NeedParse(_) => 8
  }

  ghost function Measure(c: Config, s: State): int {
    20 * (|Schedule(c)| - s.produced) + 12 * |s.queue| + Sum(s.workers, Rank()) + if s.done then 0 else 1
  }

  lemma StepsDecrease(c: Config, s: State, step: Step)
    requires Enabled(c, s, step)
    ensures Measure(c, Apply(c, s, step)) < Measure(c, s)
  {
    var t := Apply(c, s, step);
    if Mover(step).Some? {
      SumUpdate(s.workers, step.w, t.workers[step.w], Rank());
      RankDrops(c, s, step);
    }
  }

  /** A worker's rank falls with every move, except by seven when it takes an item. */
  lemma RankDrops(c: Config, s: State, step: Step)
    requires Enabled(c, s, step) && Mover(step).Some?
    ensures var t := Apply(c, s, step); var w := step.w;
            && t.workers == s.workers[w := t.workers[w]] && t.produced == s.produced && t.done == s.done
            && |t.queue| == |s.queue| - (if step.Get? then 1 else 0)
            && Rank()(t.workers[w]) < Rank()(s.workers[w]) + if step.Get? then 8 else 0
  {
  }

  lemma {:induction false} RunLength(c: Config, s: State, steps: seq<Step>)
    requires ValidRun(c, s, steps)
    ensures Measure(c, After(c, s, steps)) + |steps| <= Measure(c, s)
    decreases |steps|
  {
    if steps != [] {
      StepsDecrease(c, s, steps[0]);
      RunLength(c, Apply(c, s, steps[0]), steps[1..]);
    }
  }

  ghost predicate Stuck(c: Config, s: State) { forall step :: !Enabled(c, s, step) }

  /** What the limits must let through: every file into the parser, and every file that is not
      skipped into the embedder. A stage limit of 0, which nothing in the configuration rejects, is
      harmless only where nobody has to pass. */
  ghost predicate LetsThrough(c: Config, d: Durable) {
    || c.files == []
    || (c.parseLimit != Some(0)
        && (c.embedLimit == Some(0) ==>
              c.resume && forall f :: 0 <= f < |c.files| ==> (c.job, c.files[f].content) in d.checkpoints))
  }

  /** Every interleaving ends, within 20 steps an item and one more for each worker and the job,
      and where it cannot be extended the job is marked completed. */
  lemma EveryRunCompletes(c: Config, d: Durable, steps: seq<Step>)
    requires c.maxWorkers >= 1 && LetsThrough(c, d) && CheckpointsIndexed(d) && ValidRun(c, Start(c, d), steps)
    ensures |steps| <= 20 * (|c.files| + c.maxWorkers) + c.maxWorkers + 1
    ensures var s := After(c, Start(c, d), steps); s.done <==> Stuck(c, s)
  {
    RunIsBounded(c, d, steps);
    DoneIsStuck(c, d, steps);
  }

  lemma RunIsBounded(c: Config, d: Durable, steps: seq<Step>)
    requires CheckpointsIndexed(d) && ValidRun(c, Start(c, d), steps)
    ensures |steps| <= 20 * (|c.files| + c.maxWorkers) + c.maxWorkers + 1
  {
    RunLength(c, Start(c, d), steps);
    SumConstant(Start(c, d).workers, Rank(), 1);
    RunInv(c, d, steps);
    FinalMeasure(c, After(c, Start(c, d), steps));
  }

  /** With every file checkpointed a resuming run brings nobody to the embedder. */
  lemma RunIsUnblocked(c: Config, d: Durable, steps: seq<Step>)
    requires LetsThrough(c, d) && CheckpointsIndexed(d) && ValidRun(c, Start(c, d), steps)
    ensures Unblocked(c, After(c, Start(c, d), steps))
  {
    var s := After(c, Start(c, d), steps);
    RunInv(c, d, steps);
    StartInv(c, d);
    RunExtends(c, d, Start(c, d), steps);
    forall w | 0 <= w < |s.workers| && s.workers[w].NeedEmbed? ensures c.embedLimit != Some(0) {
      HeldFile(c, s, w);
      assert Content(c, s.workers[w], c.files[s.workers[w].file].content);
    }
  }

  lemma DoneIsStuck(c: Config, d: Durable, steps: seq<Step>)
    requires c.maxWorkers >= 1 && LetsThrough(c, d) && CheckpointsIndexed(d) && ValidRun(c, Start(c, d), steps)
    ensures var s := After(c, Start(c, d), steps); s.done <==> Stuck(c, s)
  {
    var s := After(c, Start(c, d), steps);
    RunInv(c, d, steps);
    RunIsUnblocked(c, d, steps);
    if !s.done {
      var step := NeverStuck(c, s);
    } else {
      AllReturned(c, s);
    }
  }

  lemma FinalMeasure(c: Config, s: State)
    requires QueueInv(c, s)
    ensures Measure(c, s) >= 0
  {
  }

  /** With a parse limit of 0 no run over at least one file is ever marked completed. */
  lemma ParseLimitZeroNeverCompletes(c: Config, d: Durable, steps: seq<Step>)
    requires c.parseLimit == Some(0) && c.files != []
    requires CheckpointsIndexed(d) && ValidRun(c, Start(c, d), steps)
    ensures !After(c, Start(c, d), steps).done
  {
    NothingParses(c, Start(c, d), steps);
    if After(c, Start(c, d), steps).done {
      CompletedRun(c, d, steps);
    }
  }

  lemma {:induction false} NothingParses(c: Config, s: State, steps: seq<Step>)
    requires c.parseLimit == Some(0) && ValidRun(c, s, steps) && s.parse == Permits(0)
    requires forall w :: 0 <= w < |s.workers| ==> s.workers[w].Waiting? || s.workers[w].NeedParse? || s.workers[w].Returned?
    requires s.events == [] && s.processed == 0
    ensures After(c, s, steps).processed == 0
    decreases |steps|
  {
    if steps != [] {
      NothingParses(c, Apply(c, s, steps[0]), steps[1..]);
    }
  }

  /** Worker w has claimed h and not embedded it. */
  ghost predicate ClaimedBy(c: Config, s: State, w: nat, h: Hash) {
    w < |s.workers| && (s.workers[w].NeedResume? || s.workers[w].NeedEmbed?) && Content(c, s.workers[w], h)
  }

  /** Under an embed limit of 0: the embedder is empty, the checkpoints are those of the start, and
      a hash without one is, once admitted, in the hands of a waiting worker. */
  ghost predicate Parked(c: Config, d: Durable, s: State, h: Hash) {
    && s.embed == Permits(0) && s.durable.checkpoints == d.checkpoints
    && (forall w :: 0 <= w < |s.workers| ==> !s.workers[w].Embedding? && !s.workers[w].NeedCheckpoint?)
    && (forall w :: 0 <= w < |s.workers| ==> (s.workers[w].NeedResume? ==> c.resume))
    && (h in s.dedup ==> exists w: nat :: ClaimedBy(c, s, w, h))
  }

  /** Only its own worker could give a claim up, and that one has no checkpoint to skip by. */
  lemma ClaimStays(c: Config, d: Durable, s: State, step: Step, w: nat, h: Hash)
    requires Parked(c, d, s, h) && Enabled(c, s, step) && (c.resume ==> (c.job, h) !in d.checkpoints)
    requires ClaimedBy(c, s, w, h)
    ensures ClaimedBy(c, Apply(c, s, step), w, h)
  {
  }

  lemma ClaimAppears(c: Config, s: State, step: Step, h: Hash)
    requires Enabled(c, s, step) && h !in s.dedup && h in Apply(c, s, step).dedup
    ensures step.ParseOk? && ClaimedBy(c, Apply(c, s, step), step.w, h)
  {
  }

  lemma NobodyEmbeds(c: Config, d: Durable, s: State, step: Step, h: Hash)
    requires Parked(c, d, s, h) && Enabled(c, s, step)
    ensures var t := Apply(c, s, step);
            && t.embed == s.embed && t.durable.checkpoints == s.durable.checkpoints
            && |t.workers| == |s.workers|
            && (forall w :: 0 <= w < |t.workers| ==> !t.workers[w].Embedding? && !t.workers[w].NeedCheckpoint?)
            && (forall w :: 0 <= w < |t.workers| ==> (t.workers[w].NeedResume? ==> c.resume))
  {
  }

  lemma ParkedKept(c: Config, d: Durable, s: State, step: Step, h: Hash)
    requires Parked(c, d, s, h) && Enabled(c, s, step) && (c.resume ==> (c.job, h) !in d.checkpoints)
    ensures Parked(c, d, Apply(c, s, step), h)
  {
    NobodyEmbeds(c, d, s, step, h);
    if h in s.dedup {
      var w: nat :| ClaimedBy(c, s, w, h);
      ClaimStays(c, d, s, step, w, h);
    } else if h in Apply(c, s, step).dedup {
      ClaimAppears(c, s, step, h);
    }
  }

  lemma {:induction false} StaysParked(c: Config, d: Durable, s: State, steps: seq<Step>, h: Hash)
    requires Parked(c, d, s, h) && ValidRun(c, s, steps) && (c.resume ==> (c.job, h) !in d.checkpoints)
    ensures Parked(c, d, After(c, s, steps), h)
    decreases |steps|
  {
    if steps != [] {
      ParkedKept(c, d, s, steps[0], h);
      StaysParked(c, d, Apply(c, s, steps[0]), steps[1..], h);
    }
  }

  /** With an embed limit of 0 a run that has admitted a hash without a checkpoint (any hash, if it
      does not resume) is never marked completed. */
  lemma EmbedLimitZeroBlocks(c: Config, d: Durable, steps: seq<Step>, h: Hash)
    requires c.embedLimit == Some(0) && (c.resume ==> (c.job, h) !in d.checkpoints)
    requires CheckpointsIndexed(d) && ValidRun(c, Start(c, d), steps)
    ensures h in After(c, Start(c, d), steps).dedup ==> !After(c, Start(c, d), steps).done
  {
    StaysParked(c, d, Start(c, d), steps, h);
    RunInv(c, d, steps);
  }

  /** No parse fails. */
  predicate Parses(steps: seq<Step>) { forall i :: 0 <= i < |steps| ==> !steps[i].ParseFail? }

  /** Every state has a continuation that cannot be extended and in which no parse fails. */
  lemma {:induction false} Exhaust(c: Config, s: State) returns (steps: seq<Step>)
    requires Inv(c, s)
    ensures ValidRun(c, s, steps) && Parses(steps) && Stuck(c, After(c, s, steps))
    decreases Measure(c, s)
  {
    FinalMeasure(c, s);
    if Stuck(c, s) {
      steps := [];
    } else {
      var step :| Enabled(c, s, step);
      if step.ParseFail? {
        step := ParseOk(step.w);
      }
      StepsDecrease(c, s, step);
      InvKept(c, s, step);
      FinalMeasure(c, Apply(c, s, step));
      var rest := Exhaust(c, Apply(c, s, step));
      steps := [step] + rest;
      assert steps[1..] == rest;
    }
  }

  /** Without a failed parse and with nothing embedded, files are only ever skipped. */
  ghost predicate OnlySkips(s: State) {
    && (forall w :: 0 <= w < |s.workers| ==> !s.workers[w].NeedDeadLetter?)
    && (forall k :: 0 <= k < |s.events| ==> s.events[k].outcome.Duplicate? || s.events[k].outcome.ResumeSkip?)
  }

  lemma {:induction false} StaysOnlySkips(c: Config, d: Durable, s: State, steps: seq<Step>, h: Hash)
    requires Parked(c, d, s, h) && OnlySkips(s) && ValidRun(c, s, steps) && Parses(steps)
    requires c.resume ==> (c.job, h) !in d.checkpoints
    ensures OnlySkips(After(c, s, steps))
    decreases |steps|
  {
    if steps != [] {
      ParkedKept(c, d, s, steps[0], h);
      StaysOnlySkips(c, d, Apply(c, s, steps[0]), steps[1..], h);
    }
  }

  /** A hash of the run without a checkpoint, and no way into the embedder: a run without failed
      parses is not marked completed. */
  lemma FileBlocks(c: Config, d: Durable, steps: seq<Step>, f: nat)
    requires c.embedLimit == Some(0) && f < |c.files| && Parses(steps)
    requires c.resume ==> (c.job, c.files[f].content) !in d.checkpoints
    requires CheckpointsIndexed(d) && ValidRun(c, Start(c, d), steps)
    ensures !After(c, Start(c, d), steps).done
  {
    var s, h := After(c, Start(c, d), steps), c.files[f].content;
    if s.done {
      CompletedRun(c, d, steps);
      EmbedLimitZeroBlocks(c, d, steps, h);
      StaysParked(c, d, Start(c, d), steps, h);
      StaysOnlySkips(c, d, Start(c, d), steps, h);
      var k := FinishedHasEvent(s.events, f);
    }
  }

  ghost predicate CompletesIfStuck(c: Config, d: Durable, steps: seq<Step>) {
    ValidRun(c, Start(c, d), steps) && Stuck(c, After(c, Start(c, d), steps)) ==> After(c, Start(c, d), steps).done
  }

  /** A closed stage that somebody has to pass leaves a run stuck before it is completed. */
  lemma SomeRunBlocks(c: Config, d: Durable) returns (steps: seq<Step>)
    requires CheckpointsIndexed(d) && !LetsThrough(c, d)
    ensures !CompletesIfStuck(c, d, steps)
  {
    StartInv(c, d);
    steps := Exhaust(c, Start(c, d));
    if c.parseLimit == Some(0) {
      ParseLimitZeroNeverCompletes(c, d, steps);
    } else {
      var f: nat :| f < |c.files| && (c.resume ==> (c.job, c.files[f].content) !in d.checkpoints);
      FileBlocks(c, d, steps, f);
    }
  }

  /** When a run completes: every interleaving that cannot be extended is marked completed exactly
      when the limits let through whatever has to pass. */
  lemma CompletesExactly(c: Config, d: Durable)
    requires c.maxWorkers >= 1 && CheckpointsIndexed(d)
    ensures (forall steps :: CompletesIfStuck(c, d, steps)) <==> LetsThrough(c, d)
  {
    if LetsThrough(c, d) {
      forall steps ensures CompletesIfStuck(c, d, steps) {
        if ValidRun(c, Start(c, d), steps) {
          DoneIsStuck(c, d, steps);
        }
      }
    } else {
      var steps := SomeRunBlocks(c, d);
    }
  }

  // ----- Crash and resume ----------------------------------------------------------------------------

  /** One attempt at a job: some steps, then a crash, or completion. */
  datatype Epoch = Epoch(config: Config, steps: seq<Step>)

  /** Epochs follow one another on the same tables; only `Durable` survives from one to the next. */
  predicate ValidHistory(d: Durable, epochs: seq<Epoch>)
    decreases |epochs|
  {
    epochs == [] ||
    var e := epochs[0];
    ValidRun(e.config, Start(e.config, d), e.steps) &&
    ValidHistory(After(e.config, Start(e.config, d), e.steps).durable, epochs[1..])
  }

  function DurableAfter(d: Durable, epochs: seq<Epoch>): Durable
    requires ValidHistory(d, epochs)
    decreases |epochs|
  {
    if epochs == [] then d
    else
      var e := epochs[0];
      DurableAfter(After(e.config, Start(e.config, d), e.steps).durable, epochs[1..])
  }

  ghost predicate Extends(d: Durable, e: Durable) {
    d.checkpoints.Keys <= e.checkpoints.Keys && d.indexed <= e.indexed && d.deadLetters <= e.deadLetters
  }

  lemma StepExtends(c: Config, s: State, step: Step)
    requires Enabled(c, s, step)
    ensures Extends(s.durable, Apply(c, s, step).durable)
  {
  }

  /** While a run resumes, it embeds only hashes without a checkpoint, old or new. */
  lemma EmbedsOnlyUncheckpointed(c: Config, s: State, step: Step)
    requires c.resume && AttemptInv(c, s) && Enabled(c, s, step)
    ensures var t := Apply(c, s, step);
            t.attempts == s.attempts
            || exists h :: t.attempts == s.attempts + [h] && (c.job, h) !in s.durable.checkpoints
  {
    if step.AcquireEmbed? {
      assert Content(c, s.workers[step.w], c.files[s.workers[step.w].file].content);
    }
  }

  lemma {:induction false} RunExtends(c: Config, d: Durable, s: State, steps: seq<Step>)
    requires Inv(c, s) && ValidRun(c, s, steps) && Extends(d, s.durable)
    requires c.resume ==> forall h :: h in s.attempts ==> (c.job, h) !in d.checkpoints
    ensures var t := After(c, s, steps);
            Extends(d, t.durable) && (c.resume ==> forall h :: h in t.attempts ==> (c.job, h) !in d.checkpoints)
    decreases |steps|
  {
    if steps != [] {
      var t := Apply(c, s, steps[0]);
      StepExtends(c, s, steps[0]);
      if c.resume {
        EmbedsOnlyUncheckpointed(c, s, steps[0]);
        forall h | h in t.attempts ensures (c.job, h) !in d.checkpoints {
        }
      }
      InvKept(c, s, steps[0]);
      RunExtends(c, d, t, steps[1..]);
    }
  }

  lemma {:induction false} HistoryExtends(d: Durable, epochs: seq<Epoch>)
    requires CheckpointsIndexed(d) && ValidHistory(d, epochs)
    ensures CheckpointsIndexed(DurableAfter(d, epochs))
    ensures Extends(d, DurableAfter(d, epochs))
    decreases |epochs|
  {
    if epochs != [] {
      var e := epochs[0];
      RunInv(e.config, d, e.steps);
      StartInv(e.config, d);
      RunExtends(e.config, d, Start(e.config, d), e.steps);
      HistoryExtends(After(e.config, Start(e.config, d), e.steps).durable, epochs[1..]);
    }
  }

  /** After any crashes and re-runs (`before` and `between` are any epochs, of this job or others):
      a checkpoint once written is never lost and means the hash is indexed; a resuming run never
      embeds a hash checkpointed for its job; and a run that completes leaves the content of every
      file indexed, unless a file of that content was dead-lettered in this very run. */
  lemma CrashAndResume(d: Durable, before: seq<Epoch>, between: seq<Epoch>, c: Config, steps: seq<Step>)
    requires CheckpointsIndexed(d) && ValidHistory(d, before)
    requires ValidHistory(DurableAfter(d, before), between)
    requires ValidRun(c, Start(c, DurableAfter(DurableAfter(d, before), between)), steps)
    ensures var early := DurableAfter(d, before);
            var s := After(c, Start(c, DurableAfter(early, between)), steps);
            && CheckpointsIndexed(s.durable)
            && Extends(early, s.durable)
            && (c.resume ==> forall h :: h in s.attempts ==> (c.job, h) !in early.checkpoints)
            && (s.done ==> forall f :: 0 <= f < |c.files| ==>
                  c.files[f].content in s.durable.indexed || DeadWith(c, s.events, c.files[f].content))
  {
    var early := DurableAfter(d, before);
    var late := DurableAfter(early, between);
    HistoryExtends(d, before);
    HistoryExtends(early, between);
    StartInv(c, late);
    RunExtends(c, late, Start(c, late), steps);
    RunInv(c, late, steps);
    var s := After(c, Start(c, late), steps);
    if s.done {
      AllReturned(c, s);
      forall f | 0 <= f < |c.files|
        ensures c.files[f].content in s.durable.indexed || DeadWith(c, s.events, c.files[f].content)
      {
        FileIsCovered(c, s, f);
      }
    }
  }

  lemma FileIsCovered(c: Config, s: State, f: nat)
    requires CoverInv(c, s) && f < |c.files| && FinishedTimes(s.events, f) == 1
    requires forall w :: 0 <= w < |s.workers| ==> s.workers[w].Returned?
    ensures c.files[f].content in s.durable.indexed || DeadWith(c, s.events, c.files[f].content)
  {
    var k := FinishedHasEvent(s.events, f);
    assert EventJustified(c, s, s.events[k]);
    if s.events[k].outcome.Duplicate? {
      assert Accounted(c, s, c.files[f].content);
    }
  }
}
