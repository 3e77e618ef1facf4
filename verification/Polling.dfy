/** The release gate that waits for the main pipeline: a bounded polling loop against a clock and a service. */
module Polling {
  import opened Documents
  import opened Json
  import opened Wrappers

  const CI_JOBS: set<string> := {"backend", "web", "validation", "qualification-scripts", "manifests", "security", "codeql",
                                 "windows-local-release"}
  const WORKFLOW := Text(".github/workflows/ci.yml")

  datatype Failure = LookupFailed | Incomplete | NotPassed | JobFailed(name: string) | TimedOut | Raised

  datatype Run = Run(id: int, attempt: int)

  /** What the service answers: the list of runs at each poll, and the jobs of an attempt. A failed lookup
      answers nothing. */
  datatype Service = Service(runs: nat -> Option<Map>, jobs: Run -> Option<Map>)

  /** What makes a run the one that is asked for; `lower` is the lower-casing of text. */
  datatype Query = Query(repository: string, revision: string, lower: string -> string)

  /** Time passes on its own, and sleeping lasts at least as long as requested. */
  class Clock {
    var now: real

    method Read() returns (t: real)
      modifies this
      ensures old(now) <= now == t
    {
      var later: real := *;
      now := if later > now then later else now;
      t := now;
    }

    method Sleep(duration: real)
      requires duration >= 0.0
      modifies this
      ensures now >= old(now) + duration
    {
      var later: real := *;
      now := if later > now + duration then later else now + duration;
    }
  }

  // ----- Answers

  /** `page`: a complete list of mappings of bounded length. */
  function Page(document: Option<Map>, key: string): Result<seq<Map>, Failure> {
    if document.None? then Err(LookupFailed)
    else
      var items := Get(document.value, key);
      if !items.List? || exists item :: item in items.items && !item.Object? then Err(Incomplete)
      else if Get(document.value, "total_count") != Number(|items.items|) || |items.items| > 100 then Err(Incomplete)
      else Ok(seq(|items.items|, i requires 0 <= i < |items.items| => Fields(items.items[i])))
  }

  /** `run_identity` and the event; nothing if the run's repository is not of the expected shape. */
  function Identity(run: Map, q: Query): Option<bool> {
    if Get(run, "head_sha") != Text(q.revision) || Get(run, "head_branch") != Text("main") || Get(run, "path") != WORKFLOW
    then Some(false)
    else
      var repository := GetOr(run, "head_repository", Object(map[]));
      if !repository.Object? || !GetOr(repository.fields, "full_name", Text("")).Text? then None
      else Some(q.lower(GetOr(repository.fields, "full_name", Text("")).s) == q.lower(q.repository)
                && Get(run, "event") == Text("push"))
  }

  /** The runs with the identity, in order. */
  function Matching(runs: seq<Map>, q: Query): Option<seq<Map>> {
    if |runs| == 0 then Some([])
    else
      var first, rest := Identity(runs[0], q), Matching(runs[1..], q);
      if first.None? || rest.None? then None else Some((if first.value then [runs[0]] else []) + rest.value)
  }

  function NumberAt(m: Map, key: string): int {
    if Get(m, key).Number? then Get(m, key).n else 0
  }

  predicate Numbered(runs: seq<Map>) {
    forall run :: run in runs ==> Get(run, "id").Number?
  }

  /** `max` by the run's number: the first one with the highest. */
  function Latest(runs: seq<Map>): Map
    requires |runs| > 0 && Numbered(runs)
  {
    if |runs| == 1 then runs[0]
    else
      var best := Latest(runs[..|runs| - 1]);
      if NumberAt(runs[|runs| - 1], "id") > NumberAt(best, "id") then runs[|runs| - 1] else best
  }

  lemma {:induction false} LatestIsHighest(runs: seq<Map>)
    requires |runs| > 0 && Numbered(runs)
    ensures Latest(runs) in runs && forall run :: run in runs ==> NumberAt(run, "id") <= NumberAt(Latest(runs), "id")
  {
    if |runs| > 1 {
      var front := runs[..|runs| - 1];
      assert runs == front + [runs[|runs| - 1]];
      LatestIsHighest(front);
    }
  }

  function Named(jobs: seq<Map>, name: string): seq<Map> {
    if |jobs| == 0 then []
    else (if Get(jobs[0], "name") == Text(name) then [jobs[0]] else []) + Named(jobs[1..], name)
  }

  predicate Succeeded(job: Map) {
    Get(job, "status") == Text("completed") && Get(job, "conclusion") == Text("success")
  }

  /** The job is there exactly once, and it succeeded. */
  predicate JobPassed(jobs: seq<Map>, name: string) {
    |Named(jobs, name)| == 1 && Succeeded(Named(jobs, name)[0])
  }

  predicate JobsPassed(document: Option<Map>, required: set<string>) {
    var jobs := Page(document, "jobs");
    jobs.Ok? && forall name :: name in required ==> JobPassed(jobs.value, name)
  }

  /** What is reported of jobs that do not pass: the bad answer, or one of the required jobs. */
  predicate Explains(document: Option<Map>, required: set<string>, failure: Failure) {
    var jobs := Page(document, "jobs");
    if jobs.Err? then failure == jobs.error
    else failure.JobFailed? && failure.name in required && !JobPassed(jobs.value, failure.name)
  }

  /** `successful_jobs` */
  method SuccessfulJobs(document: Option<Map>, required: set<string>) returns (failure: Option<Failure>)
    ensures failure.None? <==> JobsPassed(document, required)
    ensures failure.Some? ==> Explains(document, required, failure.value)
  {
    var jobs := Page(document, "jobs");
    if jobs.Err? {
      return Some(jobs.error);
    }
    var pending := required;
    while pending != {}
      invariant pending <= required
      invariant forall name :: name in required && name !in pending ==> JobPassed(jobs.value, name)
      decreases pending
    {
      var name :| name in pending;
      if !JobPassed(jobs.value, name) {
        return Some(JobFailed(name));
      }
      pending := pending - {name};
    }
    failure := None;
  }

  /** The job at `i` is the only one of that name. */
  predicate OnlyAt(jobs: seq<Map>, name: string, i: nat) {
    && i < |jobs| && Get(jobs[i], "name") == Text(name)
    && forall j :: 0 <= j < |jobs| && Get(jobs[j], "name") == Text(name) ==> j == i
  }

  lemma {:induction false} NoneNamed(jobs: seq<Map>, name: string)
    requires Named(jobs, name) == []
    ensures forall i :: 0 <= i < |jobs| ==> Get(jobs[i], "name") != Text(name)
  {
    if |jobs| > 0 {
      NoneNamed(jobs[1..], name);
      assert forall i :: 0 < i < |jobs| ==> jobs[i] == jobs[1..][i - 1];
    }
  }

  lemma {:induction false} OneNamed(jobs: seq<Map>, name: string) returns (i: nat)
    requires |Named(jobs, name)| == 1
    ensures i < |jobs| && OnlyAt(jobs, name, i) && jobs[i] == Named(jobs, name)[0]
  {
    var rest := jobs[1..];
    if Get(jobs[0], "name") == Text(name) {
      i := 0;
      NoneNamed(rest, name);
      assert forall j :: 0 < j < |jobs| ==> jobs[j] == rest[j - 1];
    } else {
      var k := OneNamed(rest, name);
      i := k + 1;
      assert forall j :: 0 < j < |jobs| ==> jobs[j] == rest[j - 1];
    }
  }

  // ----- One poll

  /** What one poll decides: keep waiting, give up, or look at the jobs of a run. */
  datatype Verdict = Waiting | Rejected(failure: Failure) | Inspect(run: Run)

  function RunOf(run: Map): Run {
    Run(NumberAt(run, "id"), NumberAt(run, "run_attempt"))
  }

  function Poll(document: Option<Map>, q: Query): Verdict {
    match Page(document, "workflow_runs")
    case Err(failure) => Rejected(failure)
    case Ok(runs) =>
      match Matching(runs, q)
      case None => Rejected(Raised)
      case Some(matching) =>
        if matching == [] then Waiting
        else if !Numbered(matching) then Rejected(NotPassed)
        else
          var latest := Latest(matching);
          if Get(latest, "status") != Text("completed") then Waiting
          else if Get(latest, "conclusion") != Text("success") then Rejected(NotPassed)
          else if !Get(latest, "run_attempt").Number? || Get(latest, "run_attempt").n <= 0 then Rejected(NotPassed)
          else Inspect(RunOf(latest))
  }

  /** The run is of the exact revision on the main branch of the repository, pushed to this workflow. */
  predicate Exact(run: Map, q: Query) {
    && Get(run, "head_sha") == Text(q.revision) && Get(run, "head_branch") == Text("main")
    && Get(run, "path") == WORKFLOW && Get(run, "event") == Text("push")
    && Get(Fields(Get(run, "head_repository")), "full_name").Text?
    && q.lower(Get(Fields(Get(run, "head_repository")), "full_name").s) == q.lower(q.repository)
  }

  lemma {:induction false} MatchingAre(runs: seq<Map>, q: Query)
    requires Matching(runs, q).Some? && q.lower("") != q.lower(q.repository)
    ensures forall run :: run in Matching(runs, q).value <==> run in runs && Exact(run, q)
  {
    if |runs| > 0 {
      MatchingAre(runs[1..], q);
      assert runs == [runs[0]] + runs[1..];
      assert Exact(runs[0], q) <==> Identity(runs[0], q).value;
    }
  }

  /** Of the exact revision's runs this one has the highest number, and it is completed and successful. */
  predicate Current(runs: seq<Map>, q: Query, run: Map) {
    && run in runs && Exact(run, q)
    && Get(run, "status") == Text("completed") && Get(run, "conclusion") == Text("success")
    && NumberAt(run, "run_attempt") > 0
    && forall other :: other in runs && Exact(other, q) ==> NumberAt(other, "id") <= NumberAt(run, "id")
  }

  /** A poll that goes on to the jobs of a run has found the current run of the exact revision. */
  lemma InspectMeans(document: Option<Map>, q: Query) returns (run: Map)
    requires Poll(document, q).Inspect? && q.lower("") != q.lower(q.repository)
    ensures Page(document, "workflow_runs").Ok? && Current(Page(document, "workflow_runs").value, q, run)
    ensures Poll(document, q).run == RunOf(run)
  {
    hide Exact, Identity, Page;
    var runs := Page(document, "workflow_runs").value;
    MatchingAre(runs, q);
    var matching := Matching(runs, q).value;
    LatestIsHighest(matching);
    run := Latest(matching);
  }

  // ----- The loop

  /** The greatest number of polls: one at the start and one per started quarter of a minute. */
  function PollBound(wait: int): nat {
    if wait <= 0 then 1 else (wait + 14) / 15 + 1
  }

  /** `verify_ci`: every poll but the last waits, and the last one decides. */
  method VerifyCi(service: Service, q: Query, wait: int, clock: Clock) returns (r: Result<Run, Failure>, polls: nat)
    modifies clock
    ensures 0 < polls <= PollBound(wait)
    ensures forall k :: 0 <= k < polls - 1 ==> Poll(service.runs(k), q) == Waiting
    ensures var verdict := Poll(service.runs(polls - 1), q);
            && (verdict.Waiting? ==> r == Err(TimedOut) && clock.now >= old(clock.now) + wait as real)
            && (verdict.Rejected? ==> r == Err(verdict.failure))
            && (verdict.Inspect? ==> (r == Ok(verdict.run) <==> JobsPassed(service.jobs(verdict.run), CI_JOBS)))
            && (r.Ok? ==> verdict == Inspect(r.value))
            && (verdict.Inspect? && r.Err? ==> Explains(service.jobs(verdict.run), CI_JOBS, r.error))
  {
    hide Poll, JobsPassed, Explains;
    var start := clock.Read();
    var deadline := start + wait as real;
    polls := 0;
    while true
      invariant forall k :: 0 <= k < polls ==> Poll(service.runs(k), q) == Waiting
      invariant clock.now >= start + 15.0 * polls as real || clock.now >= deadline
      invariant clock.now >= start >= old(clock.now)
      invariant polls < PollBound(wait)
      decreases PollBound(wait) - polls
    {
      var verdict := Poll(service.runs(polls), q);
      polls := polls + 1;
      match verdict {
        case Rejected(failure) =>
          return Err(failure), polls;
        case Inspect(run) =>
          var failure := SuccessfulJobs(service.jobs(run), CI_JOBS);
          if failure.Some? {
            return Err(failure.value), polls;
          }
          return Ok(run), polls;
        case Waiting =>
      }
      var time := clock.Read();
      var remaining := deadline - time;
      if remaining <= 0.0 {
        return Err(TimedOut), polls;
      }
      StillInTime(polls, wait, time - start);
      clock.Sleep(if remaining < 15.0 then remaining else 15.0);
    }
  }

  /** A poll that ends before the deadline, each one before it having been followed by a sleep, is not the
      last one. */
  lemma StillInTime(polls: nat, wait: int, elapsed: real)
    requires polls > 0 && elapsed < wait as real
    requires elapsed >= 15.0 * (polls - 1) as real || elapsed >= wait as real
    ensures polls < PollBound(wait)
  {
  }

  /** The job is there exactly once and has succeeded. */
  predicate PassedOnce(jobs: seq<Map>, name: string) {
    exists i :: 0 <= i < |jobs| && OnlyAt(jobs, name, i) && Succeeded(jobs[i])
  }

  /** A normal return: the current run of the exact revision at the last poll, every required job of its
      attempt being there exactly once and successful. */
  lemma AcceptedMeans(service: Service, q: Query, polls: nat, run: Run) returns (current: Map)
    requires polls > 0 && Poll(service.runs(polls - 1), q) == Inspect(run) && JobsPassed(service.jobs(run), CI_JOBS)
    requires q.lower("") != q.lower(q.repository)
    ensures Page(service.runs(polls - 1), "workflow_runs").Ok? && Page(service.jobs(run), "jobs").Ok?
    ensures Current(Page(service.runs(polls - 1), "workflow_runs").value, q, current) && run == RunOf(current)
    ensures forall name :: name in CI_JOBS ==> PassedOnce(Page(service.jobs(run), "jobs").value, name)
  {
    hide Current, Page, Poll, Succeeded, CI_JOBS, OnlyAt;
    current := InspectMeans(service.runs(polls - 1), q);
    var jobs := Page(service.jobs(run), "jobs").value;
    forall name | name in CI_JOBS ensures PassedOnce(jobs, name) {
      assert JobPassed(jobs, name);
      var i := OneNamed(jobs, name);
    }
  }

  /** The run is the pushed one of the main branch for this revision and repository, and has succeeded. */
  predicate Pushed(run: Map, q: Query) {
    && Get(run, "head_sha") == Text(q.revision) && Get(run, "head_branch") == Text("main")
    && Get(run, "path") == Text(".github/workflows/ci.yml") && Get(run, "event") == Text("push")
    && Get(run, "status") == Text("completed") && Get(run, "conclusion") == Text("success")
    && Get(Fields(Get(run, "head_repository")), "full_name").Text?
    && q.lower(Get(Fields(Get(run, "head_repository")), "full_name").s) == q.lower(q.repository)
  }

  /** Exactly one of the jobs has the name, and it is completed with success. */
  predicate OneSuccess(jobs: seq<Map>, name: string) {
    exists i :: 0 <= i < |jobs| && Get(jobs[i], "name") == Text(name)
                && Get(jobs[i], "status") == Text("completed") && Get(jobs[i], "conclusion") == Text("success")
                && forall j :: 0 <= j < |jobs| && j != i ==> Get(jobs[j], "name") != Text(name)
  }

  /** So a release goes on only behind a pushed main run with these eight jobs. */
  lemma AcceptedRun(service: Service, q: Query, polls: nat, run: Run) returns (current: Map)
    requires polls > 0 && Poll(service.runs(polls - 1), q) == Inspect(run) && JobsPassed(service.jobs(run), CI_JOBS)
    requires q.lower("") != q.lower(q.repository)
    ensures Page(service.jobs(run), "jobs").Ok? && Pushed(current, q)
    ensures Get(current, "id") == Number(run.id) && Get(current, "run_attempt") == Number(run.attempt) && run.attempt > 0
    ensures forall name :: name in {"backend", "web", "validation", "qualification-scripts", "manifests", "security", "codeql",
                                    "windows-local-release"} ==>
              OneSuccess(Page(service.jobs(run), "jobs").value, name)
  {
    hide Page, Poll, JobsPassed, Current, Exact, PassedOnce, OneSuccess, RunOf;
    current := AcceptedMeans(service, q, polls, run);
    PushedRun(service.runs(polls - 1), q, current, run);
    var jobs := Page(service.jobs(run), "jobs").value;
    JobsAre();
    hide CI_JOBS;
    forall name | PassedOnce(jobs, name) ensures OneSuccess(jobs, name) {
      SucceededOnce(jobs, name);
    }
  }

  lemma JobsAre()
    ensures CI_JOBS == {"backend", "web", "validation", "qualification-scripts", "manifests", "security", "codeql",
                        "windows-local-release"}
  {
  }

  lemma SucceededOnce(jobs: seq<Map>, name: string)
    requires PassedOnce(jobs, name)
    ensures OneSuccess(jobs, name)
  {
    var i :| 0 <= i < |jobs| && OnlyAt(jobs, name, i) && Succeeded(jobs[i]);
  }

  lemma PushedRun(document: Option<Map>, q: Query, current: Map, run: Run)
    requires Poll(document, q) == Inspect(run) && q.lower("") != q.lower(q.repository)
    requires Page(document, "workflow_runs").Ok? && Current(Page(document, "workflow_runs").value, q, current)
    requires run == RunOf(current)
    ensures Pushed(current, q) && run.attempt > 0
    ensures Get(current, "id") == Number(run.id) && Get(current, "run_attempt") == Number(run.attempt)
  {
    hide Page, Identity, Matching, Latest;
    MatchingAre(Page(document, "workflow_runs").value, q);
  }
}
