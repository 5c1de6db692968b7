/**
 * module7/LongRunningGCStability.java as a sequential state machine. The
 * static settings and metrics of the program are a `Harness` object; the
 * reporter thread's locals are a `Reporter` object whose `Tick` is one pass
 * of its `while (running)` loop. Clock, heap and collector readings are
 * inputs to `Tick`; a worker's measured latency is an input to
 * `PerformTask`; how workers and the reporter interleave is a sequence of
 * events.
 */
module Stability {
  import opened Wrappers
  import opened JavaInt
  import opened JavaText
  import Percentile
  import Rates

  const DefaultDurationSeconds: int := 600
  const DefaultMode: string := "Unknown"
  const ReportIntervalMs: int := 1000
  const NanosPerMilli: real := 1_000_000.0

  /** The three settings `main` may override from its arguments. */
  datatype Config = Config(durationSeconds: int, csvFile: Option<string>, gcMode: string)

  const Defaults: Config := Config(DefaultDurationSeconds, None, DefaultMode)

  /**
   * `main`'s argument handling: the first argument is the duration when it
   * parses as an `int`, the second the CSV path, the third the mode label.
   */
  function ArgsConfig(base: Config, args: seq<string>): (c: Config)
    ensures args == [] ==> c == base
    ensures |args| > 0 && ParseInt(args[0]).None? ==> c.durationSeconds == base.durationSeconds
    ensures |args| <= 2 ==> c.gcMode == base.gcMode
  {
    var duration :=
      if |args| > 0 && ParseInt(args[0]).Some? then ParseInt(args[0]).value else base.durationSeconds;
    Config(duration,
           if |args| > 1 then Some(args[1]) else base.csvFile,
           if |args| > 2 then args[2] else base.gcMode)
  }

  /**
   * With no arguments the defaults stand (600 s, no CSV file, "Unknown"); a
   * duration that does not parse keeps 600; any printed `int` is taken as
   * the duration; the path and the mode are taken verbatim.
   */
  lemma ArgsConfigMeaning(args: seq<string>)
    ensures args == [] ==> ArgsConfig(Defaults, args) == Config(600, None, "Unknown")
    ensures |args| > 0 && ParseInt(args[0]).None? ==> ArgsConfig(Defaults, args).durationSeconds == 600
    ensures forall n :: InInt32(n) && |args| > 0 && args[0] == IntToString(n)
              ==> ArgsConfig(Defaults, args).durationSeconds == n
    ensures ArgsConfig(Defaults, args).csvFile.Some? <==> |args| > 1
    ensures |args| > 1 ==> ArgsConfig(Defaults, args).csvFile == Some(args[1])
    ensures |args| > 2 ==> ArgsConfig(Defaults, args).gcMode == args[2]
    ensures |args| <= 2 ==> ArgsConfig(Defaults, args).gcMode == "Unknown"
  {
    forall n | InInt32(n) && |args| > 0 && args[0] == IntToString(n)
      ensures ArgsConfig(Defaults, args).durationSeconds == n
    {
      ParseIntOfToString(n);
    }
  }

  /** The program's static state: settings, the request counter and the latency queue. */
  class Harness {
    var durationSeconds: int
    var csvFile: Option<string>
    var gcMode: string
    var totalRequests: int
    var latencySamples: seq<int>
    var running: bool
    /** Every latency sample ever queued, in queueing order. */
    ghost var recorded: seq<int>

    function Settings(): Config
      reads this
    {
      Config(durationSeconds, csvFile, gcMode)
    }

    constructor ()
      ensures Settings() == Defaults
      ensures totalRequests == 0 && latencySamples == [] && recorded == [] && running
    {
      durationSeconds := DefaultDurationSeconds;
      csvFile := None;
      gcMode := DefaultMode;
      totalRequests := 0;
      latencySamples := [];
      running := true;
      recorded := [];
    }

    /** The start of `main`: override the settings from the command line. */
    method ApplyArgs(args: seq<string>)
      modifies this
      ensures Settings() == ArgsConfig(old(Settings()), args)
      ensures totalRequests == old(totalRequests) && latencySamples == old(latencySamples)
      ensures running == old(running) && recorded == old(recorded)
    {
      if |args| > 0 {
        var parsed := ParseInt(args[0]);
        if parsed.Some? {
          durationSeconds := parsed.value;
        }
      }
      if |args| > 1 {
        csvFile := Some(args[1]);
      }
      if |args| > 2 {
        gcMode := args[2];
      }
    }

    /** The bookkeeping at the end of `performTask`: one sample queued, one request counted. */
    method PerformTask(latencyNs: int)
      modifies this
      ensures latencySamples == old(latencySamples) + [latencyNs]
      ensures totalRequests == old(totalRequests) + 1
      ensures recorded == old(recorded) + [latencyNs]
      ensures Settings() == old(Settings()) && running == old(running)
    {
      latencySamples := latencySamples + [latencyNs];
      totalRequests := totalRequests + 1;
      recorded := recorded + [latencyNs];
    }

    /** `latencySamples.poll()`: the oldest sample, removed, or `None` when the queue is empty. */
    method Poll() returns (sample: Option<int>)
      modifies this
      ensures old(latencySamples) == [] ==> sample == None && latencySamples == []
      ensures old(latencySamples) != [] ==>
        sample == Some(old(latencySamples)[0]) && latencySamples == old(latencySamples)[1..]
      ensures totalRequests == old(totalRequests) && recorded == old(recorded)
      ensures Settings() == old(Settings()) && running == old(running)
    {
      if latencySamples == [] {
        sample := None;
      } else {
        sample := Some(latencySamples[0]);
        latencySamples := latencySamples[1..];
      }
    }

    /**
     * `running = false` after the configured duration. `main` gets here only
     * when its sleep returns, and `Thread.sleep` throws for a negative time.
     */
    method Stop()
      requires durationSeconds >= 0
      modifies this
      ensures !running
      ensures totalRequests == old(totalRequests) && latencySamples == old(latencySamples)
      ensures recorded == old(recorded) && Settings() == old(Settings())
    {
      running := false;
    }
  }

  /** The CSV header is written when the file does not exist yet or is empty. */
  predicate WriteHeader(fileExists: bool, fileLength: int)
    ensures fileExists && fileLength > 0 ==> !WriteHeader(fileExists, fileLength)
  {
    !fileExists || fileLength == 0
  }

  const HeaderNames: seq<string> := ["Time", "Throughput", "LatencyP99", "HeapUsed", "GCTime", "Mode"]

  function JoinComma(parts: seq<string>): string
  {
    if |parts| == 0 then ""
    else if |parts| == 1 then parts[0]
    else JoinComma(parts[..|parts| - 1]) + "," + parts[|parts| - 1]
  }

  /** Joining one more part appends a comma and that part. */
  lemma JoinStep(parts: seq<string>, k: nat)
    requires 1 <= k < |parts|
    ensures JoinComma(parts[..k + 1]) == JoinComma(parts[..k]) + "," + parts[k]
  {
    assert parts[..k + 1][..k] == parts[..k];
  }

  /** The header line is the six column names, comma-separated. */
  lemma HeaderLineText()
    ensures JoinComma(HeaderNames) == "Time,Throughput,LatencyP99,HeapUsed,GCTime,Mode"
  {
    var h := HeaderNames;
    assert h[..1] == ["Time"];
    JoinStep(h, 1);
    JoinStep(h, 2);
    JoinStep(h, 3);
    JoinStep(h, 4);
    JoinStep(h, 5);
    assert h[..6] == h;
    HeaderPieces();
  }

  lemma HeaderPieces()
    ensures "Time" + "," + "Throughput" == "Time,Throughput"
    ensures "Time,Throughput" + "," + "LatencyP99" == "Time,Throughput,LatencyP99"
    ensures "Time,Throughput,LatencyP99" + "," + "HeapUsed" == "Time,Throughput,LatencyP99,HeapUsed"
    ensures "Time,Throughput,LatencyP99,HeapUsed" + "," + "GCTime" == "Time,Throughput,LatencyP99,HeapUsed,GCTime"
    ensures "Time,Throughput,LatencyP99,HeapUsed,GCTime" + "," + "Mode"
         == "Time,Throughput,LatencyP99,HeapUsed,GCTime,Mode"
  {
  }

  /** One reporting interval, as printed to the console and the CSV file. */
  datatype ReportRow = ReportRow(elapsedSeconds: int, requestsInInterval: int, p99Ms: real, heapUsedMb: real, gcTime: int)

  /** A CSV field before number formatting: `%d`, `%.2f` or `%s`. */
  datatype CsvField = IntField(n: int) | DecimalField(x: real) | TextField(text: string)

  datatype CsvLine = HeaderLine | DataLine(fields: seq<CsvField>)

  /** The arguments of the CSV `printf`, in the order they are passed. */
  function PrintfFields(row: ReportRow, mode: string): (fields: seq<CsvField>)
    ensures |fields| == |HeaderNames|
    ensures fields[|fields| - 1] == TextField(mode)
  {
    [IntField(row.elapsedSeconds), IntField(row.requestsInInterval), DecimalField(row.p99Ms),
     DecimalField(row.heapUsedMb), IntField(row.gcTime), TextField(mode)]
  }

  /** The value that belongs under a header column, by column name. */
  function FieldUnder(name: string, row: ReportRow, mode: string): Option<CsvField>
  {
    if name == "Time" then Some(IntField(row.elapsedSeconds))
    else if name == "Throughput" then Some(IntField(row.requestsInInterval))
    else if name == "LatencyP99" then Some(DecimalField(row.p99Ms))
    else if name == "HeapUsed" then Some(DecimalField(row.heapUsedMb))
    else if name == "GCTime" then Some(IntField(row.gcTime))
    else if name == "Mode" then Some(TextField(mode))
    else None
  }

  /** A data row has as many fields as the header, each under its own column, the mode verbatim last. */
  lemma PrintfFieldsMatchHeader(row: ReportRow, mode: string)
    ensures |PrintfFields(row, mode)| == |HeaderNames| == 6
    ensures forall i :: 0 <= i < 6 ==> FieldUnder(HeaderNames[i], row, mode) == Some(PrintfFields(row, mode)[i])
    ensures PrintfFields(row, mode)[5] == TextField(mode)
  {
  }

  /** The sum of a list of longs, as `gcTime +=` builds it. */
  function SumInts(xs: seq<int>): int
  {
    if xs == [] then 0 else SumInts(xs[..|xs| - 1]) + xs[|xs| - 1]
  }

  /** The cumulative GC time: every collector's collection time added up. */
  method TotalGcTime(collectionTimes: seq<int>) returns (gcTime: int)
    ensures gcTime == SumInts(collectionTimes)
  {
    gcTime := 0;
    var i := 0;
    while i < |collectionTimes|
      invariant 0 <= i <= |collectionTimes|
      invariant gcTime == SumInts(collectionTimes[..i])
    {
      assert collectionTimes[..i + 1][..i] == collectionTimes[..i];
      gcTime := gcTime + collectionTimes[i];
      i := i + 1;
    }
    assert collectionTimes[..i] == collectionTimes;
  }

  /** Collection times that are all known (not -1) give a non-negative total, at least each one. */
  lemma {:induction false} TotalGcTimeBounds(collectionTimes: seq<int>)
    requires forall i :: 0 <= i < |collectionTimes| ==> collectionTimes[i] >= 0
    ensures SumInts(collectionTimes) >= 0
    ensures forall i :: 0 <= i < |collectionTimes| ==> SumInts(collectionTimes) >= collectionTimes[i]
  {
    if collectionTimes != [] {
      TotalGcTimeBounds(collectionTimes[..|collectionTimes| - 1]);
    }
  }

  /** The P99 of the drained samples in milliseconds: sorted[floor(0.99 n)] / 1e6, or 0. */
  function P99Ms(snapshot: seq<int>): (ms: real)
    ensures snapshot == [] ==> ms == 0.0
    ensures (forall i :: 0 <= i < |snapshot| ==> snapshot[i] >= 0) ==> ms >= 0.0
  {
    Percentile.P99(snapshot) as real / NanosPerMilli
  }

  /** 0 ms for an empty interval; otherwise one of the interval's samples, in milliseconds. */
  lemma P99MsMeaning(snapshot: seq<int>)
    ensures snapshot == [] ==> P99Ms(snapshot) == 0.0
    ensures snapshot != [] ==> exists i :: 0 <= i < |snapshot| && P99Ms(snapshot) * NanosPerMilli == snapshot[i] as real
  {
    if snapshot != [] {
      Percentile.P99IsSample(snapshot);
      var i :| 0 <= i < |snapshot| && snapshot[i] == Percentile.P99(snapshot);
      assert P99Ms(snapshot) * NanosPerMilli == snapshot[i] as real;
    }
  }

  /** The throughput values of the rows. */
  function Throughputs(rows: seq<ReportRow>): (t: seq<int>)
    ensures |t| == |rows|
    ensures forall i :: 0 <= i < |rows| ==> t[i] == rows[i].requestsInInterval
  {
    seq(|rows|, i requires 0 <= i < |rows| => rows[i].requestsInInterval)
  }

  /** `poll()` until the queue is empty: every queued sample, oldest first. */
  method DrainSamples(h: Harness) returns (snapshot: seq<int>)
    modifies h
    ensures snapshot == old(h.latencySamples) && h.latencySamples == []
    ensures h.totalRequests == old(h.totalRequests) && h.recorded == old(h.recorded)
    ensures h.Settings() == old(h.Settings()) && h.running == old(h.running)
  {
    snapshot := [];
    var sample := h.Poll();
    while sample.Some?
      invariant sample.Some? ==> snapshot + [sample.value] + h.latencySamples == old(h.latencySamples)
      invariant sample.None? ==> snapshot == old(h.latencySamples) && h.latencySamples == []
      invariant h.totalRequests == old(h.totalRequests) && h.recorded == old(h.recorded)
      invariant h.Settings() == old(h.Settings()) && h.running == old(h.running)
      decreases |h.latencySamples| + if sample.Some? then 1 else 0
    {
      snapshot := snapshot + [sample.value];
      sample := h.Poll();
    }
  }

  /** A new row adds its throughput to the column's total. */
  lemma ThroughputsAppend(rows: seq<ReportRow>, row: ReportRow)
    ensures SumInts(Throughputs(rows + [row])) == SumInts(Throughputs(rows)) + row.requestsInInterval
  {
    assert Throughputs(rows + [row]) == Throughputs(rows) + [row.requestsInInterval];
    assert (Throughputs(rows) + [row.requestsInInterval])[..|rows|] == Throughputs(rows);
  }

  /** The reporter thread's state between two passes of its loop. */
  class Reporter {
    var startTime: int
    var nextTarget: int
    var lastRequests: int
    /** Whether the CSV writer could be opened; `null` writer otherwise. */
    var csvOpen: bool
    /** The lines this run appended to the CSV file. */
    var csvLines: seq<CsvLine>
    /** The rows printed to the console. */
    var rows: seq<ReportRow>
    /** Every sample taken off the queue so far, in order. */
    ghost var drained: seq<int>

    /**
     * No sample is lost or counted twice, the counter is never behind the
     * last value read from it, and the throughput column adds up to it.
     */
    ghost predicate Valid(h: Harness)
      reads this, h
    {
      && drained + h.latencySamples == h.recorded
      && lastRequests <= h.totalRequests
      && SumInts(Throughputs(rows)) == lastRequests
    }

    /**
     * The start of `runReporter`: the clock reading, the first deadline one
     * second later, and the CSV writer. `fileExists`, `fileLength` and
     * `openOk` are what the file system reports; when opening fails the
     * writer stays `null` and nothing is written.
     */
    constructor (h: Harness, now: int, fileExists: bool, fileLength: int, openOk: bool)
      requires h.latencySamples == h.recorded && h.totalRequests >= 0
      ensures startTime == now && nextTarget == now + ReportIntervalMs && lastRequests == 0
      ensures csvOpen <==> h.csvFile.Some? && openOk
      ensures csvLines == if csvOpen && WriteHeader(fileExists, fileLength) then [HeaderLine] else []
      ensures rows == [] && drained == []
      ensures Valid(h)
    {
      startTime := now;
      nextTarget := now + ReportIntervalMs;
      lastRequests := 0;
      rows := [];
      drained := [];
      csvLines := [];
      csvOpen := false;
      if h.csvFile.Some? {
        var writeHeader := WriteHeader(fileExists, fileLength);
        if openOk {
          csvOpen := true;
          if writeHeader {
            csvLines := [HeaderLine];
          }
        }
      }
      assert Throughputs([]) == [];
    }

    /**
     * One pass of the reporter loop. `now` is the clock before the sleep,
     * `currentTime` after it; `heapUsed` and `collectionTimes` are the heap
     * and collector readings. Returns how long it slept and the row it
     * reported.
     */
    method Tick(h: Harness, now: int, currentTime: int, heapUsed: int, collectionTimes: seq<int>)
      returns (sleptMs: int, row: ReportRow)
      requires Valid(h)
      modifies this, h
      ensures sleptMs == if old(nextTarget) - now > 0 then old(nextTarget) - now else 0
      ensures nextTarget == old(nextTarget) + ReportIntervalMs
      ensures row.elapsedSeconds == JavaDiv(currentTime - startTime, 1000)
      ensures row.requestsInInterval == h.totalRequests - old(lastRequests) >= 0
      ensures row.p99Ms == P99Ms(old(h.latencySamples))
      ensures row.heapUsedMb == Rates.BytesToMb(heapUsed)
      ensures row.gcTime == SumInts(collectionTimes)
      ensures lastRequests == h.totalRequests
      ensures h.latencySamples == [] && drained == old(drained) + old(h.latencySamples)
      ensures rows == old(rows) + [row]
      ensures csvLines == old(csvLines) + if csvOpen then [DataLine(PrintfFields(row, h.gcMode))] else []
      ensures startTime == old(startTime) && csvOpen == old(csvOpen)
      ensures h.totalRequests == old(h.totalRequests) && h.recorded == old(h.recorded)
      ensures h.Settings() == old(h.Settings()) && h.running == old(h.running)
      ensures Valid(h)
    {
      var delay := nextTarget - now;
      sleptMs := if delay > 0 then delay else 0;

      var elapsedSeconds := JavaDiv(currentTime - startTime, 1000);

      var currentRequests := h.totalRequests;
      var requestsInInterval := currentRequests - lastRequests;

      var snapshot := DrainSamples(h);

      var sorted := Percentile.SortAsc(snapshot);
      var p99Ms := 0.0;
      if |sorted| > 0 {
        var index := Percentile.P99Index(|sorted|);
        p99Ms := sorted[index] as real / NanosPerMilli;
      }

      var heapUsedMb := Rates.BytesToMb(heapUsed);
      var gcTime := TotalGcTime(collectionTimes);

      row := ReportRow(elapsedSeconds, requestsInInterval, p99Ms, heapUsedMb, gcTime);
      ThroughputsAppend(rows, row);

      nextTarget := nextTarget + ReportIntervalMs;
      lastRequests := currentRequests;
      drained := drained + snapshot;
      rows := rows + [row];
      if csvOpen {
        csvLines := csvLines + [DataLine(PrintfFields(row, h.gcMode))];
      }
    }
  }

  /** What can happen next: a worker finishes a task, the reporter wakes, or `main` stops the run. */
  datatype Event =
    | TaskDone(latencyNs: int)
    | ReporterWake(now: int, currentTime: int, heapUsed: int, collectionTimes: seq<int>)
    | Shutdown

  /** How many reporter wake-ups find the run still going. */
  function TicksWhileRunning(running: bool, events: seq<Event>): nat
  {
    if events == [] || !running then 0
    else
      match events[0]
      case TaskDone(_) => TicksWhileRunning(running, events[1..])
      case ReporterWake(_, _, _, _) => 1 + TicksWhileRunning(running, events[1..])
      case Shutdown => 0
  }

  /** How many tasks finish in a sequence of events. */
  function TasksDone(events: seq<Event>): nat
  {
    if events == [] then 0
    else (if events[0].TaskDone? then 1 else 0) + TasksDone(events[1..])
  }

  /**
   * The workers and the reporter, one event at a time. Tasks keep finishing
   * (their samples stay queued); a wake-up runs one `Tick` only while the
   * run is on, as the reporter's loop tests `running` first.
   */
  method RunEvents(h: Harness, r: Reporter, events: seq<Event>)
    requires r.Valid(h)
    requires h.durationSeconds < 0 ==> forall i :: 0 <= i < |events| ==> !events[i].Shutdown?
    modifies h, r
    ensures r.Valid(h)
    ensures h.running == (old(h.running) && forall i :: 0 <= i < |events| ==> !events[i].Shutdown?)
    ensures |r.rows| == |old(r.rows)| + TicksWhileRunning(old(h.running), events)
    ensures h.totalRequests == old(h.totalRequests) + TasksDone(events)
    ensures h.Settings() == old(h.Settings())
  {
    var i := 0;
    while i < |events|
      invariant 0 <= i <= |events|
      invariant r.Valid(h)
      invariant h.Settings() == old(h.Settings())
      invariant h.running == (old(h.running) && forall k :: 0 <= k < i ==> !events[k].Shutdown?)
      invariant h.totalRequests + TasksDone(events[i..]) == old(h.totalRequests) + TasksDone(events)
      invariant |r.rows| + TicksWhileRunning(h.running, events[i..])
                == |old(r.rows)| + TicksWhileRunning(old(h.running), events)
    {
      assert events[i..][1..] == events[i + 1..];
      match events[i] {
        case TaskDone(latencyNs) =>
          h.PerformTask(latencyNs);
        case ReporterWake(now, currentTime, heapUsed, collectionTimes) =>
          if h.running {
            var _, _ := r.Tick(h, now, currentTime, heapUsed, collectionTimes);
          }
        case Shutdown =>
          h.Stop();
          assert TicksWhileRunning(false, events[i + 1..]) == 0;
      }
      i := i + 1;
    }
  }

  /**
   * The throughput column telescopes: for counter readings that never go
   * down, every interval's count is non-negative and together they add up
   * to the last reading.
   */
  function Deltas(last: int, readings: seq<int>): (d: seq<int>)
    ensures |d| == |readings|
  {
    if readings == [] then []
    else Deltas(last, readings[..|readings| - 1])
         + [readings[|readings| - 1] - (if |readings| == 1 then last else readings[|readings| - 2])]
  }

  lemma {:induction false} DeltasTelescope(readings: seq<int>)
    requires forall i, j :: 0 <= i < j < |readings| ==> readings[i] <= readings[j]
    requires readings == [] || readings[0] >= 0
    ensures forall i :: 0 <= i < |readings| ==> Deltas(0, readings)[i] >= 0
    ensures SumInts(Deltas(0, readings)) == if readings == [] then 0 else readings[|readings| - 1]
  {
    if readings != [] {
      var init := readings[..|readings| - 1];
      DeltasTelescope(init);
      assert Deltas(0, readings)[..|init|] == Deltas(0, init);
    }
  }
}
