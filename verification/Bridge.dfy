/** The bridge to an external streaming runtime: a feeder goroutine, the job's
    process behind two pipes, and a reader goroutine that pairs the job's output
    with source timestamps through a FIFO. The system is a set of steps, one per
    channel operation, pipe operation or cancellation, taken in any order. */
module Bridge {
  import opened Records

  const TS_CAPACITY := 1024
  const RESULTS_CAPACITY := 64

  /** A line the job writes: a number, or anything ParseFloat refuses. */
  datatype Line = Num(v: real) | Noise

  /** Where the feeder is: waiting for a record, about to queue its timestamp, or
      about to write its value. */
  datatype Feeder = Selecting | Stamping(x: Instant) | Writing(x: Instant) | FeederDone

  /** Where the reader is: scanning for a line, waiting for a timestamp, or about
      to send an event. */
  datatype Reader = Scanning | Holding(v: real) | Pairing(t: string, v: real) | ReaderDone

  /** The job, with the values it has read and not yet written a line for. */
  datatype Job = Alive(inside: seq<real>) | Gone

  datatype System = System(
    source: seq<Instant>, sourceOpen: bool,
    feeder: Feeder, ts: seq<string>,
    stdin: seq<real>, stdinOpen: bool, job: Job, stdout: seq<Line>,
    reader: Reader, results: seq<Event>, status: Status,
    cancelled: bool, crashed: bool,
    // history: the records received, how many were stamped and written, how many
    // values the reader parsed and paired, and the events the subscriber has taken
    fed: seq<Instant>, stamped: nat, written: nat, drawn: nat, paired: nat, taken: seq<Event>)

  datatype Step =
    | SourceSends(x: Instant) | SourceCloses | Cancel
    | FeedTake | FeedEnd | FeedCancel | FeedStamp | FeedWrite | FeedBroken
    | JobRead | JobWrite | JobNoise | JobExit | JobDies
    | ReadLine | ReadEnd | ReadPair | ReadEmit | ReadCancel
    | Consume

  /** The operation the job computes, the capacity of a pipe in lines, and how many
      values the job may hold at a time. */
  datatype Setting = Setting(f: real -> real, pipe: nat, depth: nat)

  function Init(): System {
    System([], true, Selecting, [], [], true, Alive([]), [], Scanning, [], Running, false, false, [], 0, 0, 0, 0, [])
  }

  predicate Enabled(s: System, step: Step, env: Setting) {
    match step
    case SourceSends(_) => s.sourceOpen
    case SourceCloses => s.sourceOpen
    case Cancel => true
    case FeedTake => s.feeder.Selecting? && s.source != []
    case FeedEnd => s.feeder.Selecting? && s.source == [] && !s.sourceOpen
    case FeedCancel => (s.feeder.Selecting? || s.feeder.Stamping?) && s.cancelled
    case FeedStamp => s.feeder.Stamping? && |s.ts| < TS_CAPACITY
    case FeedWrite => s.feeder.Writing? && !s.job.Gone? && |s.stdin| < env.pipe
    case FeedBroken => s.feeder.Writing? && s.job.Gone?
    case JobRead => s.job.Alive? && s.stdin != [] && |s.job.inside| < env.depth
    case JobWrite => s.job.Alive? && s.job.inside != [] && |s.stdout| < env.pipe
    case JobNoise => !s.job.Gone? && |s.stdout| < env.pipe
    case JobExit => s.job == Alive([]) && s.stdin == [] && !s.stdinOpen
    case JobDies => !s.job.Gone?
    case ReadLine => s.reader.Scanning? && s.stdout != []
    case ReadEnd => s.reader.Scanning? && s.stdout == [] && s.job.Gone?
    case ReadPair => s.reader.Holding? && s.ts != []
    case ReadEmit => s.reader.Pairing? && |s.results| < RESULTS_CAPACITY
    case ReadCancel => (s.reader.Holding? || s.reader.Pairing?) && s.cancelled
    case Consume => s.results != []
  }

  function Apply(s: System, step: Step, env: Setting): System
    requires Enabled(s, step, env)
  {
    match step
    case SourceSends(x) => s.(source := s.source + [x])
    case SourceCloses => s.(sourceOpen := false)
    case Cancel => s.(cancelled := true)
    case FeedTake => s.(source := s.source[1..], feeder := Stamping(s.source[0]), fed := s.fed + [s.source[0]])
    case FeedEnd => s.(feeder := FeederDone, stdinOpen := false)
    case FeedCancel => s.(feeder := FeederDone, stdinOpen := false)
    case FeedStamp => s.(feeder := Writing(s.feeder.x), ts := s.ts + [s.feeder.x.text], stamped := s.stamped + 1)
    case FeedWrite => s.(feeder := Selecting, stdin := s.stdin + [s.feeder.x.v], written := s.written + 1)
    case FeedBroken => s.(feeder := FeederDone, stdinOpen := false)
    case JobRead => s.(job := Alive(s.job.inside + [s.stdin[0]]), stdin := s.stdin[1..])
    case JobWrite => s.(job := Alive(s.job.inside[1..]), stdout := s.stdout + [Num(env.f(s.job.inside[0]))])
    case JobNoise => s.(stdout := s.stdout + [Noise])
    case JobExit => s.(job := Gone)
    case JobDies => s.(job := Gone, stdin := [], crashed := true)
    case ReadLine =>
      if s.stdout[0].Num? then s.(stdout := s.stdout[1..], reader := Holding(s.stdout[0].v), drawn := s.drawn + 1)
      else s.(stdout := s.stdout[1..])
    case ReadEnd => s.(reader := ReaderDone, status := Stopped)
    case ReadPair => s.(reader := Pairing(s.ts[0], s.reader.v), ts := s.ts[1..], paired := s.paired + 1)
    case ReadEmit => s.(reader := Scanning, results := s.results + [InstantEvent(s.reader.t, s.reader.v)])
    case ReadCancel => s.(reader := ReaderDone, status := Stopped)
    case Consume => s.(results := s.results[1..], taken := s.taken + [s.results[0]])
  }

  /** Every event the reader has sent, taken by the subscriber or not. */
  function Emitted(s: System): seq<Event> {
    s.taken + s.results
  }

  predicate Legal(steps: seq<Step>, env: Setting)
    decreases |steps|, 0
  {
    steps == []
    || (Legal(steps[..|steps| - 1], env) && Enabled(Run(steps[..|steps| - 1], env), steps[|steps| - 1], env))
  }

  function Run(steps: seq<Step>, env: Setting): System
    requires Legal(steps, env)
    decreases |steps|, 1
  {
    if steps == [] then Init() else Apply(Run(steps[..|steps| - 1], env), steps[|steps| - 1], env)
  }

  /** The numbers among the lines. */
  function Numbers(lines: seq<Line>): seq<real> {
    if lines == [] then []
    else Numbers(lines[..|lines| - 1]) + if lines[|lines| - 1].Num? then [lines[|lines| - 1].v] else []
  }

  lemma NumbersSnoc(lines: seq<Line>, l: Line)
    ensures Numbers(lines + [l]) == Numbers(lines) + if l.Num? then [l.v] else []
  {
    assert (lines + [l])[..|lines|] == lines;
  }

  lemma {:induction false} NumbersCons(l: Line, lines: seq<Line>)
    ensures Numbers([l] + lines) == (if l.Num? then [l.v] else []) + Numbers(lines)
  {
    if lines == [] {
      assert [l] + lines == [] + [l];
      NumbersSnoc([], l);
    } else {
      var front, last := lines[..|lines| - 1], lines[|lines| - 1];
      NumbersCons(l, front);
      assert [l] + lines == ([l] + front) + [last];
      NumbersSnoc([l] + front, last);
    }
  }

  // The invariant.

  /** The feeder is at most one record ahead with the timestamp, never behind. */
  ghost predicate FeederInv(s: System) {
    && s.written <= s.stamped <= |s.fed|
    && (s.feeder.Selecting? ==> s.written == |s.fed|)
    && (s.feeder.Stamping? ==> s.written == s.stamped == |s.fed| - 1 && s.feeder.x == s.fed[|s.fed| - 1])
    && (s.feeder.Writing? ==> s.written == |s.fed| - 1 && s.stamped == |s.fed| && s.feeder.x == s.fed[|s.fed| - 1])
    && (s.stdinOpen <==> !s.feeder.FeederDone?)
  }

  /** The FIFO holds the timestamps stamped and not yet paired. */
  ghost predicate FifoOf(ts: seq<string>, paired: nat, stamped: nat, fed: seq<Instant>) {
    && paired <= stamped <= |fed|
    && |ts| == stamped - paired <= TS_CAPACITY
    && forall j :: 0 <= j < |ts| ==> ts[j] == fed[paired + j].text
  }

  ghost predicate FifoInv(s: System) {
    FifoOf(s.ts, s.paired, s.stamped, s.fed)
  }

  /** The numbers on the job's output are values of consecutive records. */
  ghost predicate OutputIs(nums: seq<real>, fed: seq<Instant>, from: nat, f: real -> real) {
    from + |nums| <= |fed| && forall j :: 0 <= j < |nums| ==> nums[j] == f(fed[from + j].v)
  }

  /** The values the job has read or is to read, in that order. */
  function Queue(stdin: seq<real>, job: Job): seq<real> {
    if job.Gone? then stdin else job.inside + stdin
  }

  /** The values are those of consecutive records. */
  ghost predicate ValuesAre(queue: seq<real>, fed: seq<Instant>, from: nat) {
    from + |queue| <= |fed| && forall j :: 0 <= j < |queue| ==> queue[j] == fed[from + j].v
  }

  /** The values on the way through the job are those written and not yet drawn, in
      order; a job that died may have lost the later ones. */
  ghost predicate PipeOf(queue: seq<real>, nums: seq<real>, drawn: nat, written: nat, crashed: bool,
                         fed: seq<Instant>, f: real -> real) {
    && drawn + |nums| + |queue| <= written <= |fed|
    && (!crashed ==> drawn + |nums| + |queue| == written)
    && OutputIs(nums, fed, drawn, f)
    && ValuesAre(queue, fed, drawn + |nums|)
  }

  ghost predicate PipeInv(s: System, f: real -> real) {
    && PipeOf(Queue(s.stdin, s.job), Numbers(s.stdout), s.drawn, s.written, s.crashed, s.fed, f)
    && (s.crashed ==> s.job.Gone?)
    && (s.job.Gone? ==> s.crashed || s.stdin == [])
    && (s.crashed ==> s.stdin == [])
  }

  /** Every event sent pairs a record's timestamp with its own value. */
  ghost predicate ReaderInv(s: System, f: real -> real) {
    var k := |Emitted(s)|;
    && k <= s.drawn <= |s.fed| && k <= s.paired
    && Emitted(s) == Transformed(s.fed[..k], f)
    && (s.reader.Scanning? ==> s.drawn == s.paired == k)
    && (s.reader.Holding? ==> s.drawn == k + 1 && s.paired == k && s.reader.v == f(s.fed[k].v))
    && (s.reader.Pairing? ==>
          s.drawn == s.paired == k + 1 && s.reader.t == s.fed[k].text && s.reader.v == f(s.fed[k].v))
    && |s.results| <= RESULTS_CAPACITY
  }

  ghost predicate Inv(s: System, f: real -> real) {
    FeederInv(s) && FifoInv(s) && PipeInv(s, f) && ReaderInv(s, f)
  }

  lemma TransformedGrows(xs: seq<Instant>, k: nat, x: Instant, f: real -> real)
    requires k <= |xs|
    ensures (xs + [x])[..k] == xs[..k]
  {}

  /** A part's invariant survives what it does not see. */
  lemma Unseen(s: System, t: System, f: real -> real)
    requires s.stdin == t.stdin && s.job == t.job && s.stdinOpen == t.stdinOpen
    requires s.fed == t.fed && s.feeder == t.feeder && s.stamped == t.stamped && s.written == t.written
    ensures FeederInv(s) ==> FeederInv(t)
    ensures s.ts == t.ts && s.paired == t.paired && FifoInv(s) ==> FifoInv(t)
    ensures s.stdout == t.stdout && s.drawn == t.drawn && s.crashed == t.crashed && PipeInv(s, f) ==> PipeInv(t, f)
  {}

  lemma SourceStep(s: System, step: Step, env: Setting)
    requires Inv(s, env.f) && Enabled(s, step, env)
    requires step.SourceSends? || step.SourceCloses? || step.Cancel?
    ensures Inv(Apply(s, step, env), env.f)
  {
    hide Transformed, PipeOf, FifoOf;
    assert Emitted(Apply(s, step, env)) == Emitted(s);
  }

  lemma FeederStep(s: System, step: Step, env: Setting)
    requires Inv(s, env.f) && Enabled(s, step, env)
    requires step.FeedEnd? || step.FeedCancel? || step.FeedBroken?
    ensures Inv(Apply(s, step, env), env.f)
  {
    hide Transformed, PipeOf, FifoOf;
    assert Emitted(Apply(s, step, env)) == Emitted(s);
  }

  lemma FeedStampStep(s: System, env: Setting)
    requires Inv(s, env.f) && Enabled(s, FeedStamp, env)
    ensures Inv(Apply(s, FeedStamp, env), env.f)
  {
    hide Transformed, PipeOf;
    assert Emitted(Apply(s, FeedStamp, env)) == Emitted(s);
  }

  lemma FeedWriteStep(s: System, env: Setting)
    requires Inv(s, env.f) && Enabled(s, FeedWrite, env)
    ensures Inv(Apply(s, FeedWrite, env), env.f)
  {
    hide Transformed, Numbers, OutputIs, FifoOf;
    assert Emitted(Apply(s, FeedWrite, env)) == Emitted(s);
    assert Queue(s.stdin + [s.feeder.x.v], s.job) == Queue(s.stdin, s.job) + [s.feeder.x.v];
  }

  lemma FeedTakeStep(s: System, env: Setting)
    requires Inv(s, env.f) && Enabled(s, FeedTake, env)
    ensures Inv(Apply(s, FeedTake, env), env.f)
  {
    hide Transformed, Numbers;
    assert Emitted(Apply(s, FeedTake, env)) == Emitted(s);
    TransformedGrows(s.fed, |Emitted(s)|, s.source[0], env.f);
  }

  lemma JobReadStep(s: System, env: Setting)
    requires Inv(s, env.f) && Enabled(s, JobRead, env)
    ensures Inv(Apply(s, JobRead, env), env.f)
  {
    hide Transformed, PipeOf, FifoOf;
    assert Emitted(Apply(s, JobRead, env)) == Emitted(s);
    var next := Apply(s, JobRead, env);
    assert Queue(next.stdin, next.job) == Queue(s.stdin, s.job);
  }

  /** The job's next line is the value of the record that heads the queue. */
  lemma PipeWrite(queue: seq<real>, nums: seq<real>, drawn: nat, written: nat, crashed: bool, fed: seq<Instant>,
                  f: real -> real)
    requires queue != [] && PipeOf(queue, nums, drawn, written, crashed, fed, f)
    ensures PipeOf(queue[1..], nums + [f(queue[0])], drawn, written, crashed, fed, f)
  {}

  lemma JobWriteStep(s: System, env: Setting)
    requires Inv(s, env.f) && Enabled(s, JobWrite, env)
    ensures Inv(Apply(s, JobWrite, env), env.f)
  {
    NumbersSnoc(s.stdout, Num(env.f(s.job.inside[0])));
    PipeWrite(Queue(s.stdin, s.job), Numbers(s.stdout), s.drawn, s.written, s.crashed, s.fed, env.f);
    hide PipeOf, FifoOf, Transformed, Numbers;
    var next := Apply(s, JobWrite, env);
    assert Emitted(next) == Emitted(s);
    assert Queue(next.stdin, next.job) == Queue(s.stdin, s.job)[1..];
  }

  lemma JobNoiseStep(s: System, env: Setting)
    requires Inv(s, env.f) && Enabled(s, JobNoise, env)
    ensures Inv(Apply(s, JobNoise, env), env.f)
  {
    NumbersSnoc(s.stdout, Noise);
    assert Numbers(s.stdout) + [] == Numbers(s.stdout);
    hide PipeOf, FifoOf, Transformed, Numbers;
    assert Emitted(Apply(s, JobNoise, env)) == Emitted(s);
  }

  lemma JobEndStep(s: System, step: Step, env: Setting)
    requires Inv(s, env.f) && Enabled(s, step, env) && (step.JobExit? || step.JobDies?)
    ensures Inv(Apply(s, step, env), env.f)
  {
    hide Transformed, Numbers, OutputIs, FifoOf;
    assert Emitted(Apply(s, step, env)) == Emitted(s);
  }

  lemma FirstNumber(lines: seq<Line>)
    requires lines != []
    ensures lines[0].Num? ==> Numbers(lines) == [lines[0].v] + Numbers(lines[1..])
    ensures lines[0].Noise? ==> Numbers(lines) == Numbers(lines[1..])
  {
    assert lines == [lines[0]] + lines[1..];
    NumbersCons(lines[0], lines[1..]);
  }

  /** The next number on the job's output is the value of the next record. */
  lemma PipeRead(queue: seq<real>, v: real, nums: seq<real>, drawn: nat, written: nat, crashed: bool,
                 fed: seq<Instant>, f: real -> real)
    requires PipeOf(queue, [v] + nums, drawn, written, crashed, fed, f)
    ensures PipeOf(queue, nums, drawn + 1, written, crashed, fed, f)
    ensures drawn < |fed| && v == f(fed[drawn].v)
  {
    var all := [v] + nums;
    assert all[0] == v && forall j :: 0 <= j < |nums| ==> nums[j] == all[j + 1];
  }

  lemma ReadLinePipe(s: System, env: Setting)
    requires PipeInv(s, env.f) && Enabled(s, ReadLine, env)
    ensures PipeInv(Apply(s, ReadLine, env), env.f)
    ensures s.stdout[0].Num? ==> s.drawn < |s.fed| && s.stdout[0].v == env.f(s.fed[s.drawn].v)
  {
    hide PipeOf, Numbers, Queue, OutputIs, ValuesAre;
    FirstNumber(s.stdout);
    if s.stdout[0].Num? {
      PipeRead(Queue(s.stdin, s.job), s.stdout[0].v, Numbers(s.stdout[1..]), s.drawn, s.written, s.crashed, s.fed,
               env.f);
    }
  }

  lemma ReadLineStep(s: System, env: Setting)
    requires Inv(s, env.f) && Enabled(s, ReadLine, env)
    ensures Inv(Apply(s, ReadLine, env), env.f)
  {
    var next := Apply(s, ReadLine, env);
    ReadLinePipe(s, env);
    Unseen(s, next, env.f);
    hide PipeInv, FifoInv, FeederInv, Transformed;
    assert Emitted(next) == Emitted(s);
  }

  lemma ReaderStep(s: System, step: Step, env: Setting)
    requires Inv(s, env.f) && Enabled(s, step, env)
    requires step.ReadEnd? || step.ReadPair? || step.ReadCancel?
    ensures Inv(Apply(s, step, env), env.f)
  {
    var next := Apply(s, step, env);
    Unseen(s, next, env.f);
    hide Transformed, PipeInv, FeederInv;
    assert Emitted(next) == Emitted(s);
  }

  lemma TransformedSnoc(xs: seq<Instant>, k: nat, f: real -> real)
    requires k < |xs|
    ensures Transformed(xs[..k + 1], f) == Transformed(xs[..k], f) + [InstantEvent(xs[k].text, f(xs[k].v))]
  {}

  lemma ReadEmitStep(s: System, env: Setting)
    requires Inv(s, env.f) && Enabled(s, ReadEmit, env)
    ensures Inv(Apply(s, ReadEmit, env), env.f)
  {
    var next := Apply(s, ReadEmit, env);
    Unseen(s, next, env.f);
    hide PipeInv, FifoInv, FeederInv;
    var k := |Emitted(s)|;
    TransformedSnoc(s.fed, k, env.f);
    assert Emitted(next) == Emitted(s) + [InstantEvent(s.fed[k].text, env.f(s.fed[k].v))];
    hide Transformed;
  }

  lemma ConsumeStep(s: System, env: Setting)
    requires Inv(s, env.f) && Enabled(s, Consume, env)
    ensures Inv(Apply(s, Consume, env), env.f)
  {
    var next := Apply(s, Consume, env);
    Unseen(s, next, env.f);
    hide Transformed, PipeInv, FifoInv, FeederInv;
    assert s.results == [s.results[0]] + s.results[1..];
    assert Emitted(next) == Emitted(s);
  }

  lemma InvStep(s: System, step: Step, env: Setting)
    requires Inv(s, env.f) && Enabled(s, step, env)
    ensures Inv(Apply(s, step, env), env.f)
  {
    hide Inv, Apply, Enabled;
    match step
    case SourceSends(_) => SourceStep(s, step, env);
    case SourceCloses => SourceStep(s, step, env);
    case Cancel => SourceStep(s, step, env);
    case FeedTake => FeedTakeStep(s, env);
    case FeedEnd => FeederStep(s, step, env);
    case FeedCancel => FeederStep(s, step, env);
    case FeedStamp => FeedStampStep(s, env);
    case FeedWrite => FeedWriteStep(s, env);
    case FeedBroken => FeederStep(s, step, env);
    case JobRead => JobReadStep(s, env);
    case JobWrite => JobWriteStep(s, env);
    case JobNoise => JobNoiseStep(s, env);
    case JobExit => JobEndStep(s, step, env);
    case JobDies => JobEndStep(s, step, env);
    case ReadLine => ReadLineStep(s, env);
    case ReadEnd => ReaderStep(s, step, env);
    case ReadPair => ReaderStep(s, step, env);
    case ReadCancel => ReaderStep(s, step, env);
    case ReadEmit => ReadEmitStep(s, env);
    case Consume => ConsumeStep(s, env);
  }

  lemma {:induction false} AlwaysInv(steps: seq<Step>, env: Setting)
    requires Legal(steps, env)
    ensures Inv(Run(steps, env), env.f)
  {
    hide Inv, Apply;
    if steps == [] {
      InvInit(env);
    } else {
      AlwaysInv(steps[..|steps| - 1], env);
      InvStep(Run(steps[..|steps| - 1], env), steps[|steps| - 1], env);
    }
  }

  lemma InvInit(env: Setting)
    ensures Inv(Init(), env.f)
  {}

  /** Under every interleaving, cancellation and crash included, the events sent
      are the first records received, each with its own timestamp and the job's
      value for it. */
  lemma EventsArePaired(steps: seq<Step>, env: Setting)
    requires Legal(steps, env)
    ensures var s := Run(steps, env); Emitted(s) <= Transformed(s.fed, env.f)
  {
    AlwaysInv(steps, env);
  }

  /** A reader that holds a value finds the FIFO holding its timestamp: it never
      waits there. */
  lemma TimestampIsThere(steps: seq<Step>, env: Setting)
    requires Legal(steps, env)
    ensures var s := Run(steps, env);
            s.reader.Holding? ==> s.ts != [] && |Emitted(s)| < |s.fed| && s.ts[0] == s.fed[|Emitted(s)|].text
  {
    AlwaysInv(steps, env);
  }

  // Progress.

  /** How the parts end: the job, unless it crashed, after its input; the feeder,
      unless something failed, after the source; the reader, unless cancelled, when
      the job is gone and its output read. */
  ghost predicate LifeInv(s: System) {
    && (s.job.Gone? && !s.crashed ==> s.stdin == [] && !s.stdinOpen)
    && (s.stdinOpen <==> !s.feeder.FeederDone?)
    && (s.feeder.FeederDone? && !s.cancelled && !s.crashed ==>
          s.source == [] && !s.sourceOpen && s.written == |s.fed|)
    && (s.feeder.Selecting? ==> s.written == |s.fed|)
    && (s.reader.Scanning? ==> s.drawn == |s.taken| + |s.results|)
    && (s.reader.ReaderDone? && !s.cancelled ==>
          s.job.Gone? && s.stdout == [] && s.drawn == |s.taken| + |s.results|)
    && (s.status == if s.reader.ReaderDone? then Stopped else Running)
  }

  predicate OfFeeder(step: Step) {
    step.FeedTake? || step.FeedEnd? || step.FeedCancel? || step.FeedStamp? || step.FeedWrite? || step.FeedBroken?
  }

  predicate Outside(step: Step) {
    step.SourceSends? || step.SourceCloses? || step.Cancel? || step.Consume? || step.JobNoise? || step.JobWrite?
  }

  lemma LifeStep(s: System, step: Step, env: Setting)
    requires LifeInv(s) && Inv(s, env.f) && Enabled(s, step, env)
    ensures LifeInv(Apply(s, step, env))
  {
    hide PipeInv, FifoInv, Transformed, Emitted, LifeInv, Apply, Enabled, Inv;
    if Outside(step) {
      LifeOutside(s, step, env);
    } else if OfFeeder(step) {
      LifeFeeder(s, step, env);
    } else if step.JobRead? || step.JobExit? || step.JobDies? {
      LifeJob(s, step, env);
    } else {
      LifeReader(s, step, env);
    }
  }

  lemma LifeOutside(s: System, step: Step, env: Setting)
    requires LifeInv(s) && Inv(s, env.f) && Enabled(s, step, env)
    requires Outside(step)
    ensures LifeInv(Apply(s, step, env))
  {
    hide PipeInv, FifoInv, Transformed, Emitted;
  }

  lemma LifeFeeder(s: System, step: Step, env: Setting)
    requires LifeInv(s) && Inv(s, env.f) && Enabled(s, step, env)
    requires OfFeeder(step)
    ensures LifeInv(Apply(s, step, env))
  {
    hide PipeInv, FifoInv, ReaderInv, Emitted;
  }

  lemma LifeJob(s: System, step: Step, env: Setting)
    requires LifeInv(s) && Inv(s, env.f) && Enabled(s, step, env)
    requires step.JobRead? || step.JobExit? || step.JobDies?
    ensures LifeInv(Apply(s, step, env))
  {
    hide PipeInv, FifoInv, ReaderInv, Emitted;
  }

  lemma LifeReader(s: System, step: Step, env: Setting)
    requires LifeInv(s) && Inv(s, env.f) && Enabled(s, step, env)
    requires step.ReadLine? || step.ReadEnd? || step.ReadPair? || step.ReadEmit? || step.ReadCancel?
    ensures LifeInv(Apply(s, step, env))
  {
    hide PipeInv, FifoInv, FeederInv, Transformed;
  }

  lemma {:induction false} AlwaysLife(steps: seq<Step>, env: Setting)
    requires Legal(steps, env)
    ensures LifeInv(Run(steps, env))
  {
    hide Inv, Apply, LifeInv;
    if steps == [] {
      LifeInit();
    } else {
      AlwaysLife(steps[..|steps| - 1], env);
      AlwaysInv(steps[..|steps| - 1], env);
      LifeStep(Run(steps[..|steps| - 1], env), steps[|steps| - 1], env);
    }
  }

  lemma LifeInit()
    ensures LifeInv(Init())
  {}

  /** A step of the feeder, the job or the reader; the rest is up to the source,
      the subscriber, the canceller, and a job that crashes or chatters. */
  predicate Internal(step: Step) {
    !(step.SourceSends? || step.SourceCloses? || step.Cancel? || step.JobNoise? || step.JobDies? || step.Consume?)
  }

  ghost predicate Quiet(s: System, env: Setting) {
    forall step :: Internal(step) ==> !Enabled(s, step, env)
  }

  lemma QuietMeans(s: System, step: Step, env: Setting)
    requires Quiet(s, env) && Internal(step)
    ensures !Enabled(s, step, env)
  {}

  /** A reader that cannot move waits for the subscriber, or has nothing to read. */
  lemma QuietReader(s: System, env: Setting)
    requires Inv(s, env.f) && LifeInv(s) && Quiet(s, env) && !s.cancelled
    ensures (s.reader.Pairing? && |s.results| == RESULTS_CAPACITY)
         || (s.stdout == [] && s.drawn == |Emitted(s)| && (s.job.Gone? <==> s.reader.ReaderDone?) && !s.reader.Holding?)
  {
    QuietMeans(s, ReadLine, env);
    QuietMeans(s, ReadEnd, env);
    QuietMeans(s, ReadPair, env);
    QuietMeans(s, ReadEmit, env);
    hide Transformed, Quiet, PipeInv, Numbers;
  }

  /** With the output read, a job that cannot move has nothing inside. */
  lemma QuietJob(s: System, env: Setting)
    requires Inv(s, env.f) && LifeInv(s) && env.pipe > 0 && env.depth > 0
    requires Quiet(s, env) && !s.crashed && s.stdout == []
    ensures s.stdin == [] && s.drawn == s.written && (s.job.Gone? <==> !s.stdinOpen)
  {
    QuietMeans(s, JobRead, env);
    QuietMeans(s, JobWrite, env);
    QuietMeans(s, JobExit, env);
    assert Numbers(s.stdout) == [];
    hide Transformed, Quiet, Numbers, FifoInv, ReaderInv;
  }

  /** With the pipes empty, a feeder that cannot move waits for the source. */
  lemma QuietFeeder(s: System, env: Setting)
    requires Inv(s, env.f) && LifeInv(s) && env.pipe > 0 && Quiet(s, env) && !s.crashed && !s.cancelled
    requires s.stdin == [] && s.written == s.drawn == |Emitted(s)| && (s.job.Gone? <==> !s.stdinOpen)
    ensures s.written == |s.fed| && s.source == []
    ensures if s.sourceOpen then s.feeder.Selecting? else s.feeder.FeederDone?
  {
    QuietMeans(s, FeedTake, env);
    QuietMeans(s, FeedEnd, env);
    QuietMeans(s, FeedStamp, env);
    QuietMeans(s, FeedWrite, env);
    hide Transformed, Quiet, Numbers, PipeInv;
  }

  /** Without cancellation or a crash the system cannot deadlock. When no part of
      it can move, either the subscriber has let the result queue fill up, or every
      record received has been emitted and the system waits for the source - or,
      the source having closed, has ended. */
  lemma NoDeadlock(steps: seq<Step>, env: Setting)
    requires Legal(steps, env) && env.pipe > 0 && env.depth > 0
    requires var s := Run(steps, env); Quiet(s, env) && !s.cancelled && !s.crashed
    ensures var s := Run(steps, env);
            || (s.reader.Pairing? && |s.results| == RESULTS_CAPACITY)
            || (&& Emitted(s) == Transformed(s.fed, env.f) && s.source == []
                && if s.sourceOpen then s.feeder.Selecting? else s.reader.ReaderDone? && s.status == Stopped)
  {
    hide Inv, LifeInv, Quiet, Transformed, Apply, Enabled, Emitted;
    var s := Run(steps, env);
    AlwaysInv(steps, env);
    AlwaysLife(steps, env);
    LifeStatus(s);
    QuietReader(s, env);
    if s.stdout == [] && s.drawn == |Emitted(s)| {
      QuietJob(s, env);
      QuietFeeder(s, env);
      EverythingEmitted(s, env.f);
    }
  }

  lemma LifeStatus(s: System)
    requires LifeInv(s)
    ensures s.status == if s.reader.ReaderDone? then Stopped else Running
    ensures s.stdinOpen <==> !s.feeder.FeederDone?
  {}

  lemma EverythingEmitted(s: System, f: real -> real)
    requires Inv(s, f) && |Emitted(s)| == |s.fed|
    ensures Emitted(s) == Transformed(s.fed, f)
  {
    assert s.fed[..|s.fed|] == s.fed;
  }

  /** A run that ended by itself emitted everything the source sent. */
  lemma EndsComplete(steps: seq<Step>, env: Setting)
    requires Legal(steps, env)
    requires var s := Run(steps, env); s.reader.ReaderDone? && !s.cancelled && !s.crashed
    ensures var s := Run(steps, env);
            Emitted(s) == Transformed(s.fed, env.f) && s.source == [] && !s.sourceOpen
  {
    var s := Run(steps, env);
    AlwaysInv(steps, env);
    AlwaysLife(steps, env);
    assert Numbers(s.stdout) == [];
    assert s.fed[..|s.fed|] == s.fed;
  }

  // Termination.

  function LineWork(lines: seq<Line>): nat {
    if lines == [] then 0 else LineWork(lines[..|lines| - 1]) + if lines[|lines| - 1].Num? then 7 else 1
  }

  lemma LineWorkSnoc(lines: seq<Line>, l: Line)
    ensures LineWork(lines + [l]) == LineWork(lines) + if l.Num? then 7 else 1
  {
    assert (lines + [l])[..|lines|] == lines;
  }

  lemma {:induction false} LineWorkCons(l: Line, lines: seq<Line>)
    ensures LineWork([l] + lines) == LineWork(lines) + if l.Num? then 7 else 1
  {
    if lines == [] {
      assert [l] + lines == [] + [l];
      LineWorkSnoc([], l);
    } else {
      var front, last := lines[..|lines| - 1], lines[|lines| - 1];
      LineWorkCons(l, front);
      assert [l] + lines == ([l] + front) + [last];
      LineWorkSnoc([l] + front, last);
    }
  }

  /** How many steps what is in the system can still take. */
  function Work(s: System): nat {
    12 * |s.source|
    + (match s.feeder case Selecting => 1 case Stamping(_) => 12 case Writing(_) => 11 case FeederDone => 0)
    + 9 * |s.stdin|
    + (match s.job case Alive(inside) => 1 + 8 * |inside| case Gone => 0)
    + LineWork(s.stdout)
    + (match s.reader case Scanning => 1 case Holding(_) => 7 case Pairing(_, _) => 6 case ReaderDone => 0)
    + 3 * |s.results|
  }

  /** Only a record from the source or a line of noise adds work. */
  function Added(step: Step): nat {
    match step
    case SourceSends(_) => 12
    case JobNoise => 1
    case _ => 0
  }

  predicate Moves(step: Step) {
    Internal(step) || step.JobDies? || step.Consume?
  }

  lemma FeederWork(s: System, step: Step, env: Setting)
    requires Enabled(s, step, env)
    requires step.SourceSends? || step.SourceCloses? || step.Cancel?
          || step.FeedTake? || step.FeedEnd? || step.FeedCancel?
    ensures Work(Apply(s, step, env)) + (if Moves(step) then 1 else 0) <= Work(s) + Added(step)
  {
    LineWorkStep(s, step, env);
    hide LineWork;
  }

  lemma FeederWrites(s: System, step: Step, env: Setting)
    requires Enabled(s, step, env)
    requires step.FeedStamp? || step.FeedWrite? || step.FeedBroken?
    ensures Work(Apply(s, step, env)) + (if Moves(step) then 1 else 0) <= Work(s) + Added(step)
  {
    LineWorkStep(s, step, env);
    hide LineWork;
  }

  lemma JobWork(s: System, step: Step, env: Setting)
    requires Enabled(s, step, env)
    requires step.JobRead? || step.JobWrite? || step.JobNoise? || step.JobExit? || step.JobDies?
    ensures Work(Apply(s, step, env)) + (if Moves(step) then 1 else 0) <= Work(s) + Added(step)
  {
    LineWorkStep(s, step, env);
    hide LineWork;
  }

  lemma ReaderWork(s: System, step: Step, env: Setting)
    requires Enabled(s, step, env)
    requires step.ReadLine? || step.ReadEnd? || step.ReadPair? || step.ReadEmit? || step.ReadCancel? || step.Consume?
    ensures Work(Apply(s, step, env)) + (if Moves(step) then 1 else 0) <= Work(s) + Added(step)
  {
    LineWorkStep(s, step, env);
    hide LineWork;
  }

  lemma WorkStep(s: System, step: Step, env: Setting)
    requires Enabled(s, step, env)
    ensures Work(Apply(s, step, env)) + (if Moves(step) then 1 else 0) <= Work(s) + Added(step)
  {
    hide Work, Apply, Enabled, Moves, Added;
    if step.SourceSends? || step.SourceCloses? || step.Cancel? || step.FeedTake? || step.FeedEnd? || step.FeedCancel? {
      FeederWork(s, step, env);
    } else if step.FeedStamp? || step.FeedWrite? || step.FeedBroken? {
      FeederWrites(s, step, env);
    } else if step.JobRead? || step.JobWrite? || step.JobNoise? || step.JobExit? || step.JobDies? {
      JobWork(s, step, env);
    } else {
      ReaderWork(s, step, env);
    }
  }

  lemma LineWorkStep(s: System, step: Step, env: Setting)
    requires Enabled(s, step, env)
    ensures LineWork(Apply(s, step, env).stdout) == match step
      case JobWrite => LineWork(s.stdout) + 7
      case JobNoise => LineWork(s.stdout) + 1
      case ReadLine => LineWork(s.stdout) - (if s.stdout[0].Num? then 7 else 1)
      case _ => LineWork(s.stdout)
  {
    if step.JobWrite? {
      LineWorkSnoc(s.stdout, Num(env.f(s.job.inside[0])));
    } else if step.JobNoise? {
      LineWorkSnoc(s.stdout, Noise);
    } else if step.ReadLine? {
      assert s.stdout == [s.stdout[0]] + s.stdout[1..];
      LineWorkCons(s.stdout[0], s.stdout[1..]);
    }
  }

  function Moved(steps: seq<Step>): nat {
    if steps == [] then 0 else Moved(steps[..|steps| - 1]) + if Moves(steps[|steps| - 1]) then 1 else 0
  }

  function Supplied(steps: seq<Step>): nat {
    if steps == [] then 0 else Supplied(steps[..|steps| - 1]) + Added(steps[|steps| - 1])
  }

  /** The system cannot run on by itself: the number of steps it takes is bounded by
      the records the source has sent and the noise the job has made. */
  lemma {:induction false} BoundedWork(steps: seq<Step>, env: Setting)
    requires Legal(steps, env)
    ensures Moved(steps) + Work(Run(steps, env)) <= Supplied(steps) + 3
  {
    if steps != [] {
      hide Work, Apply, Enabled;
      BoundedWork(steps[..|steps| - 1], env);
      WorkStep(Run(steps[..|steps| - 1], env), steps[|steps| - 1], env);
    }
  }

  // Completion.

  /** A step of the feeder, the job, the reader or the subscriber. */
  predicate Proceeds(step: Step) {
    Internal(step) || step.Consume?
  }

  ghost predicate AllProceed(more: seq<Step>) {
    forall k :: 0 <= k < |more| ==> Proceeds(more[k])
  }

  /** No step is left but the source's, the canceller's, and a job's that crashes or
      chatters. */
  ghost predicate Stuck(s: System, env: Setting) {
    forall step :: Proceeds(step) ==> !Enabled(s, step, env)
  }

  lemma ProceedKeeps(s: System, step: Step, env: Setting)
    requires Enabled(s, step, env) && Proceeds(step)
    ensures var next := Apply(s, step, env);
            && next.fed + next.source == s.fed + s.source
            && next.cancelled == s.cancelled && next.crashed == s.crashed
    ensures Work(Apply(s, step, env)) < Work(s)
  {
    WorkStep(s, step, env);
    hide Work;
    if step.FeedTake? {
      assert (s.fed + [s.source[0]]) + s.source[1..] == s.fed + s.source;
    }
  }

  lemma LegalSnoc(steps: seq<Step>, step: Step, env: Setting)
    requires Legal(steps, env) && Enabled(Run(steps, env), step, env)
    ensures Legal(steps + [step], env) && Run(steps + [step], env) == Apply(Run(steps, env), step, env)
  {
    assert (steps + [step])[..|steps|] == steps;
  }

  lemma {:induction false} ProceedsWithin(steps: seq<Step>, more: seq<Step>, env: Setting)
    requires Legal(steps + more, env) && AllProceed(more)
    ensures Legal(steps, env)
    ensures var s, t := Run(steps, env), Run(steps + more, env);
            && Work(t) + |more| <= Work(s)
            && t.fed + t.source == s.fed + s.source && t.cancelled == s.cancelled && t.crashed == s.crashed
    decreases |more|
  {
    hide Work, Apply, Enabled, Proceeds;
    if more == [] {
      assert steps + more == steps;
    } else {
      var front := more[..|more| - 1];
      assert (steps + more)[..|steps + more| - 1] == steps + front;
      ProceedsWithin(steps, front, env);
      assert Proceeds(more[|more| - 1]);
      ProceedKeeps(Run(steps + front, env), more[|more| - 1], env);
    }
  }

  /** Whatever order the steps are taken in, there are at most as many as there is
      work, and when none is left every record the source has sent is emitted. */
  lemma StuckIsComplete(steps: seq<Step>, more: seq<Step>, env: Setting)
    requires Legal(steps + more, env) && AllProceed(more) && env.pipe > 0 && env.depth > 0
    requires Legal(steps, env) && !Run(steps, env).cancelled && !Run(steps, env).crashed
    requires Stuck(Run(steps + more, env), env)
    ensures var s, t := Run(steps, env), Run(steps + more, env);
            && |more| <= Work(s)
            && Emitted(t) == Transformed(s.fed + s.source, env.f)
            && (!t.sourceOpen ==> t.status == Stopped)
  {
    ProceedsWithin(steps, more, env);
    var t := Run(steps + more, env);
    StuckIsQuiet(t, env);
    hide Work, Apply, Enabled, Transformed, Emitted, Run, Legal, Quiet;
    NoDeadlock(steps + more, env);
    assert t.fed + [] == t.fed;
  }

  lemma StuckIsQuiet(s: System, env: Setting)
    requires Stuck(s, env)
    ensures Quiet(s, env) && s.results == []
  {
    assert !Enabled(s, Consume, env);
  }

  /** ... and there is such an order: from any point of any run without cancellation
      or a crash, the system gets every record it has been sent out to the
      subscriber by steps of its own. */
  lemma {:induction false} CanComplete(steps: seq<Step>, env: Setting) returns (more: seq<Step>)
    requires Legal(steps, env) && env.pipe > 0 && env.depth > 0
    requires !Run(steps, env).cancelled && !Run(steps, env).crashed
    ensures Legal(steps + more, env) && AllProceed(more) && |more| <= Work(Run(steps, env))
    ensures var s, t := Run(steps, env), Run(steps + more, env);
            t.taken == Transformed(s.fed + s.source, env.f) && t.results == []
  {
    more := RunOn(steps, env);
    StuckIsQuiet(Run(steps + more, env), env);
    StuckIsComplete(steps, more, env);
    hide Work, Run, Legal, Stuck, Transformed;
    var t := Run(steps + more, env);
    assert t.taken + [] == t.taken;
  }

  lemma {:induction false} RunOn(steps: seq<Step>, env: Setting) returns (more: seq<Step>)
    requires Legal(steps, env)
    ensures Legal(steps + more, env) && AllProceed(more) && Stuck(Run(steps + more, env), env)
    decreases Work(Run(steps, env))
  {
    hide Work, Apply, Enabled, Proceeds;
    if Stuck(Run(steps, env), env) {
      more := [];
      assert steps + more == steps;
    } else {
      var step :| Proceeds(step) && Enabled(Run(steps, env), step, env);
      LegalSnoc(steps, step, env);
      ProceedKeeps(Run(steps, env), step, env);
      var rest := RunOn(steps + [step], env);
      more := [step] + rest;
      assert steps + more == (steps + [step]) + rest;
    }
  }
}
