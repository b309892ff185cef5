/**
 * The command-line entry point (`start` and `main`): given the parsed
 * flags, decide whether to exit, run one of the two reports, or crawl
 * with clamped limits.  Log lines, the help text and the crawl itself are
 * outside this module.
 */
module Cli {
  import opened Wrappers
  import opened Reports

  /** The values of `-start`, `-max-workers`, `-max-queue-size`, `-max-runtime-seconds`, `-report`, `-report-format`. */
  datatype Flags = Flags(start: string, maxWorkers: int, maxQueue: int, maxSeconds: int, report: int, format: string)

  /** The flag defaults. */
  const Defaults := Flags("", 1, 100, 10, 0, "json")

  /** The replacement for an out-of-range crawl parameter. */
  const FallbackQueue := 100
  const FallbackWorkers := 10
  const FallbackSeconds := 10

  datatype CrawlConfig = CrawlConfig(start: string, workers: int, queueSize: int, seconds: int)

  datatype Decision =
    | NothingToDo
    | UnknownReport
    | UnsupportedFormat
    | RunReport(report: Report, asJSON: bool)
    | Crawl(config: CrawlConfig)

  /** What `start` does, and the code it returns to `main`. */
  datatype StartResult = StartResult(decision: Decision, code: int)

  predicate SupportedFormat(format: string)
  {
    format == "json" || format == "tabular"
  }

  function ReportFormatIsJSON(format: string): (json: bool)
    ensures json ==> SupportedFormat(format)
    ensures SupportedFormat(format) && !json ==> format == "tabular"
    ensures format == "tabular" ==> !json
  {
    format == "json"
  }

  /** A value below one is replaced by `fallback`. */
  function Clamp(value: int, fallback: int): int
  {
    if value < 1 then fallback else value
  }

  /** The checks of `start`, in the order `start` makes them. */
  function Start(f: Flags): (r: StartResult)
    ensures r.code == 0
    ensures r.decision.NothingToDo? <==> f.start == "" && f.report == 0
    // `a && b || c` groups as `(a && b) || c`
    ensures r.decision.UnknownReport? <==> f.report > 2 || (f.start == "" && f.report < 0)
    ensures r.decision.UnsupportedFormat? <==>
      f.report <= 2 && (f.start != "" || f.report >= 1) && !SupportedFormat(f.format)
    // a report runs whether or not a start URL is given, and then nothing is crawled
    ensures r.decision.RunReport? <==> (f.report == 1 || f.report == 2) && SupportedFormat(f.format)
    ensures r.decision.RunReport? ==>
      && r.decision.asJSON == (f.format == "json")
      && r.decision.report == (if f.report == 1 then InboundLinks else ParentChildLinks)
    ensures r.decision.Crawl? <==> f.start != "" && f.report <= 0 && SupportedFormat(f.format)
    ensures r.decision.Crawl? ==>
      var c := r.decision.config;
      && c.start == f.start
      && c.workers >= 1 && c.queueSize >= 1 && c.seconds >= 1
      && c.queueSize == (if f.maxQueue >= 1 then f.maxQueue else FallbackQueue)
      && c.workers == (if f.maxWorkers >= 1 then f.maxWorkers else FallbackWorkers)
      && c.seconds == (if f.maxSeconds >= 1 then f.maxSeconds else FallbackSeconds)
  {
    if f.start == "" && f.report == 0 then StartResult(NothingToDo, 0)
    else if (f.start == "" && f.report < 1) || f.report > 2 then StartResult(UnknownReport, 0)
    else if f.format != "json" && f.format != "tabular" then StartResult(UnsupportedFormat, 0)
    else if f.report == 1 then StartResult(RunReport(InboundLinks, ReportFormatIsJSON(f.format)), 0)
    else if f.report == 2 then StartResult(RunReport(ParentChildLinks, ReportFormatIsJSON(f.format)), 0)
    else
      var queue := Clamp(f.maxQueue, FallbackQueue);
      var workers := Clamp(f.maxWorkers, FallbackWorkers);
      var seconds := Clamp(f.maxSeconds, FallbackSeconds);
      StartResult(Crawl(CrawlConfig(f.start, workers, queue, seconds)), 0)
  }

  /** With no flags given, `start` does nothing. */
  lemma DefaultsDoNothing()
    ensures Start(Defaults).decision == NothingToDo
  {
  }

  /** With only `-start` given, the crawl runs with the declared defaults. */
  lemma DefaultCrawl(url: string)
    requires url != ""
    ensures Start(Defaults.(start := url)).decision == Crawl(CrawlConfig(url, 1, 100, 10))
  {
  }

  /**
   * Because `&&` binds tighter than `||`, a report number above two is
   * rejected even beside a start URL, while a negative one beside a start
   * URL is accepted and the crawl goes ahead.
   */
  lemma ReportGuardPrecedence(f: Flags)
    requires SupportedFormat(f.format)
    ensures f.report > 2 ==> Start(f).decision == UnknownReport
    ensures f.start != "" && f.report < 0 ==> Start(f).decision.Crawl?
  {
  }

  /** A non-positive `-max-workers` falls back to ten workers, not to the flag's default of one. */
  lemma MaxWorkersFallback(f: Flags)
    requires f.start != "" && f.report <= 0 && SupportedFormat(f.format) && f.maxWorkers < 1
    ensures Start(f).decision.Crawl?
    ensures Start(f).decision.config.workers == 10 != Defaults.maxWorkers
  {
  }

  /** The program's exit: how many times `start` was called, and the exit status. */
  datatype Exit = Exit(calls: nat, code: int)

  /**
   * The loop of `main`: call `start` until it returns a non-negative code,
   * which becomes the exit status.  `codes[i]` is what the (i+1)-th call
   * returns; `None` means no call in `codes` ends the loop.
   */
  function MainLoop(codes: seq<int>): (r: Option<Exit>)
    ensures r.Some? <==> exists i :: 0 <= i < |codes| && codes[i] >= 0
    ensures r.Some? ==>
      && 1 <= r.value.calls <= |codes|
      && r.value.code == codes[r.value.calls - 1] >= 0
      && forall i :: 0 <= i < r.value.calls - 1 ==> codes[i] < 0
  {
    if |codes| == 0 then None
    else if codes[0] >= 0 then Some(Exit(1, codes[0]))
    else
      var rest := MainLoop(codes[1..]);
      assert forall i :: 1 <= i < |codes| ==> codes[i] == codes[1..][i - 1];
      match rest
      case None => None
      case Some(e) => Some(Exit(e.calls + 1, e.code))
  }

  /** Every path through `start` returns zero, so `main` exits with status zero after one call. */
  lemma MainExitsAfterOneCall(runs: seq<Flags>)
    requires |runs| >= 1
    ensures MainLoop(seq(|runs|, i requires 0 <= i < |runs| => Start(runs[i]).code)) == Some(Exit(1, 0))
  {
  }
}
