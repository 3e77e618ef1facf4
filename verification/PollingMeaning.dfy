/** What a poll of the release gate decides, read off the service's answers: nothing here is said through the
    functions that the loop is written with. */
module PollingMeaning {
  import opened Documents
  import opened Json
  import opened Polling
  import opened Wrappers

  /** The document lists exactly these mappings under the key, and says so: a hundred at most. */
  predicate Holds(document: Map, key: string, items: seq<Map>) {
    && Get(document, key) == List(seq(|items|, i requires 0 <= i < |items| => Object(items[i])))
    && Get(document, "total_count") == Number(|items|) && |items| <= 100
  }

  lemma PageIff(document: Option<Map>, key: string, items: seq<Map>)
    ensures Page(document, key) == Ok(items) <==> document.Some? && Holds(document.value, key, items)
    ensures Page(document, key) == Err(LookupFailed) <==> document.None?
    ensures Page(document, key).Err? ==> Page(document, key).error in {LookupFailed, Incomplete}
  {
    if document.Some? && Page(document, key).Ok? {
      var list, page := Get(document.value, key).items, Page(document, key).value;
      forall i | 0 <= i < |list| ensures list[i] == Object(page[i]) {
        assert list[i] in list;
      }
      assert list == seq(|page|, i requires 0 <= i < |page| => Object(page[i]));
    }
    if document.Some? && Holds(document.value, key, items) {
      var list := Get(document.value, key).items;
      assert forall i :: 0 <= i < |list| ==> list[i] == Object(items[i]);
      assert Page(document, key).value == items;
    }
  }

  // ----- Runs

  /** The run's revision, branch and workflow are those that are asked for. */
  predicate Ours(run: Map, q: Query) {
    && Get(run, "head_sha") == Text(q.revision) && Get(run, "head_branch") == Text("main")
    && Get(run, "path") == Text(".github/workflows/ci.yml")
  }

  /** The run's repository, where it says one, is not a mapping, or its name not a text. */
  predicate Unnamed(run: Map) {
    && "head_repository" in run
    && (run["head_repository"].Object? ==>
          "full_name" in run["head_repository"].fields && !run["head_repository"].fields["full_name"].Text?)
  }

  /** A run that cannot be identified. */
  predicate Unidentified(run: Map, q: Query) {
    Ours(run, q) && Unnamed(run)
  }

  /** The full name of the run's repository; empty where it says none. */
  function FullName(run: Map): string
    requires !Unnamed(run)
  {
    if "head_repository" in run && "full_name" in run["head_repository"].fields then
      run["head_repository"].fields["full_name"].s
    else ""
  }

  /** A pushed run of the revision, on the main branch of the repository. */
  predicate Asked(run: Map, q: Query) {
    Ours(run, q) && !Unnamed(run) && q.lower(FullName(run)) == q.lower(q.repository) && Get(run, "event") == Text("push")
  }

  lemma IdentityIff(run: Map, q: Query)
    ensures Identity(run, q).None? <==> Unidentified(run, q)
    ensures Identity(run, q) == Some(true) <==> Asked(run, q)
  {
  }

  /** Of the runs that are asked for, which all have a number, this is the first one with the highest. */
  predicate Newest(runs: seq<Map>, q: Query, i: nat) {
    && i < |runs| && Asked(runs[i], q) && Get(runs[i], "id").Number?
    && forall j :: 0 <= j < |runs| && Asked(runs[j], q) ==>
         && Get(runs[j], "id").Number? && Get(runs[j], "id").n <= Get(runs[i], "id").n
         && (j < i ==> Get(runs[j], "id").n < Get(runs[i], "id").n)
  }

  predicate Points(runs: seq<Map>, q: Query, kept: seq<Map>, places: seq<nat>) {
    && |places| == |kept|
    && forall k :: 0 <= k < |places| ==> places[k] < |runs| && Asked(runs[places[k]], q) && runs[places[k]] == kept[k]
  }

  predicate Covers(runs: seq<Map>, q: Query, places: seq<nat>) {
    forall i: nat :: i < |runs| && Asked(runs[i], q) ==> i in places
  }

  /** The places of the runs that are kept: all of those that are asked for. */
  predicate Kept(runs: seq<Map>, q: Query, kept: seq<Map>, places: seq<nat>) {
    Points(runs, q, kept, places) && Rising(places) && Covers(runs, q, places)
  }

  predicate Rising(places: seq<nat>) {
    forall k, l :: 0 <= k < l < |places| ==> places[k] < places[l]
  }

  lemma {:induction false} MatchingKeeps(runs: seq<Map>, q: Query) returns (places: seq<nat>)
    ensures Matching(runs, q).None? <==> exists run :: run in runs && Unidentified(run, q)
    ensures Matching(runs, q).Some? ==> Kept(runs, q, Matching(runs, q).value, places)
  {
    hide Unidentified, Asked, Identity;
    places := [];
    if |runs| > 0 {
      var rest := MatchingKeeps(runs[1..], q);
      IdentityIff(runs[0], q);
      assert forall run :: run in runs <==> run == runs[0] || run in runs[1..];
      assert Matching(runs, q).None? <==> Unidentified(runs[0], q) || Matching(runs[1..], q).None?;
      places := if Asked(runs[0], q) then [0] + Behind(rest) else Behind(rest);
      if Matching(runs, q).Some? {
        var kept := Matching(runs[1..], q).value;
        if Asked(runs[0], q) {
          KeptFirst(runs, q, kept, rest);
        } else {
          KeptBehind(runs, q, kept, rest);
          assert [] + kept == kept;
        }
      }
    }
  }

  function Behind(places: seq<nat>): (r: seq<nat>)
    ensures |r| == |places| && forall k :: 0 <= k < |r| ==> r[k] == places[k] + 1
  {
    seq(|places|, k requires 0 <= k < |places| => places[k] + 1)
  }

  /** The places behind a run that is not asked for. */
  lemma KeptBehind(runs: seq<Map>, q: Query, kept: seq<Map>, places: seq<nat>)
    requires |runs| > 0 && Kept(runs[1..], q, kept, places) && !Asked(runs[0], q)
    ensures Kept(runs, q, kept, Behind(places))
  {
    hide Asked;
    forall k | 0 <= k < |places|
      ensures Behind(places)[k] < |runs| && Asked(runs[Behind(places)[k]], q) && runs[Behind(places)[k]] == kept[k]
    {
      PointBehind(runs, q, kept, places, k);
    }
    forall i: nat | i < |runs| && Asked(runs[i], q) ensures i in Behind(places) {
      PlaceBehind(runs, q, places, i);
    }
  }

  lemma PointBehind(runs: seq<Map>, q: Query, kept: seq<Map>, places: seq<nat>, k: nat)
    requires |runs| > 0 && Points(runs[1..], q, kept, places) && k < |places|
    ensures places[k] + 1 < |runs| && Asked(runs[places[k] + 1], q) && runs[places[k] + 1] == kept[k]
  {
    hide Asked;
    assert runs[places[k] + 1] == runs[1..][places[k]];
  }

  lemma PlaceBehind(runs: seq<Map>, q: Query, places: seq<nat>, i: nat)
    requires 0 < i < |runs| && Covers(runs[1..], q, places) && Asked(runs[i], q)
    ensures i in Behind(places)
  {
    hide Asked;
    assert runs[1..][i - 1] == runs[i];
    var k :| 0 <= k < |places| && places[k] == i - 1;
    assert Behind(places)[k] == i;
  }

  /** The place of a run that is asked for, and those behind it. */
  lemma KeptFirst(runs: seq<Map>, q: Query, kept: seq<Map>, places: seq<nat>)
    requires |runs| > 0 && Kept(runs[1..], q, kept, places) && Asked(runs[0], q)
    ensures Kept(runs, q, [runs[0]] + kept, [0] + Behind(places))
  {
    hide Asked, Rising, Covers;
    FirstRises(places);
    FirstCovers(runs, q, places);
    var all := [0] + Behind(places);
    forall k | 0 <= k < |all|
      ensures all[k] < |runs| && Asked(runs[all[k]], q) && runs[all[k]] == ([runs[0]] + kept)[k]
    {
      if k > 0 {
        PointBehind(runs, q, kept, places, k - 1);
      }
    }
  }

  lemma FirstRises(places: seq<nat>)
    requires Rising(places)
    ensures Rising([0] + Behind(places))
  {
    var all := [0] + Behind(places);
    assert forall k :: 0 < k < |all| ==> all[k] == places[k - 1] + 1;
  }

  lemma FirstCovers(runs: seq<Map>, q: Query, places: seq<nat>)
    requires |runs| > 0 && Covers(runs[1..], q, places)
    ensures Covers(runs, q, [0] + Behind(places))
  {
    hide Asked;
    forall i: nat | i < |runs| && Asked(runs[i], q) ensures i in [0] + Behind(places) {
      if i > 0 {
        PlaceBehind(runs, q, places, i);
      }
    }
  }

  lemma {:induction false} LatestFirst(runs: seq<Map>) returns (k: nat)
    requires |runs| > 0 && Numbered(runs)
    ensures k < |runs| && Latest(runs) == runs[k]
    ensures forall j :: 0 <= j < |runs| ==>
              && Get(runs[j], "id").n <= Get(runs[k], "id").n
              && (j < k ==> Get(runs[j], "id").n < Get(runs[k], "id").n)
  {
    k := 0;
    var n := |runs| - 1;
    if n > 0 {
      var front := runs[..n];
      assert forall j :: 0 <= j < n ==> front[j] == runs[j];
      k := LatestFirst(front);
      if NumberAt(runs[n], "id") > NumberAt(Latest(front), "id") {
        k := n;
      }
    }
  }

  /** The run that a poll looks at, found in the service's list. */
  lemma LatestNewest(runs: seq<Map>, q: Query, kept: seq<Map>, places: seq<nat>) returns (i: nat)
    requires Kept(runs, q, kept, places) && kept != [] && Numbered(kept)
    ensures Newest(runs, q, i) && runs[i] == Latest(kept)
  {
    hide Asked;
    var k := LatestFirst(kept);
    i := places[k];
    forall j | 0 <= j < |runs| && Asked(runs[j], q)
      ensures Get(runs[j], "id").Number? && Get(runs[j], "id").n <= Get(runs[i], "id").n
      ensures j < i ==> Get(runs[j], "id").n < Get(runs[i], "id").n
    {
      var l :| 0 <= l < |places| && places[l] == j;
      assert kept[l] == runs[j] && kept[l] in kept;
    }
    assert kept[k] in kept;
  }

  lemma NewestIsOne(runs: seq<Map>, q: Query, i: nat, j: nat)
    requires Newest(runs, q, i) && Newest(runs, q, j)
    ensures i == j
  {
    hide Asked;
  }

  predicate GoingOn(runs: seq<Map>, q: Query, i: nat) {
    Newest(runs, q, i) && Get(runs[i], "status") != Text("completed")
  }

  /** The newest run is completed, successful and has an attempt: it is the run `r`. */
  predicate Done(runs: seq<Map>, q: Query, i: nat, r: Run) {
    && Newest(runs, q, i) && Get(runs[i], "status") == Text("completed") && Get(runs[i], "conclusion") == Text("success")
    && Get(runs[i], "id") == Number(r.id) && Get(runs[i], "run_attempt") == Number(r.attempt) && r.attempt > 0
  }

  /** A poll without such a list is refused. */
  lemma UnansweredRejected(document: Option<Map>, q: Query)
    requires document.Some? ==> forall runs :: !Holds(document.value, "workflow_runs", runs)
    ensures Poll(document, q) == Rejected(if document.None? then LookupFailed else Incomplete)
  {
    hide Page, Holds;
    var page := Page(document, "workflow_runs");
    PageIff(document, "workflow_runs", if page.Ok? then page.value else []);
  }

  /** An answered poll waits exactly if no run is asked for or the newest one is still going on, and goes on to the
      jobs exactly of a newest one that is done. A run that cannot be identified raises, and everything else is
      refused. */
  lemma PollIff(document: Option<Map>, q: Query, runs: seq<Map>, r: Run)
    requires document.Some? && Holds(document.value, "workflow_runs", runs)
    ensures Poll(document, q) == Rejected(Raised) <==> exists run :: run in runs && Unidentified(run, q)
    ensures Poll(document, q) == Waiting <==>
              && (forall run :: run in runs ==> !Unidentified(run, q))
              && ((forall run :: run in runs ==> !Asked(run, q)) || exists i: nat :: GoingOn(runs, q, i))
    ensures Poll(document, q) == Inspect(r) <==>
              (forall run :: run in runs ==> !Unidentified(run, q)) && exists i: nat :: Done(runs, q, i, r)
    ensures Poll(document, q).Rejected? ==> Poll(document, q).failure in {Raised, NotPassed}
  {
    hide Page, Holds, Matching, Numbered, Latest, Kept, Asked, Unidentified, Newest;
    PageIff(document, "workflow_runs", runs);
    var places := MatchingKeeps(runs, q);
    if Matching(runs, q).Some? {
      var kept := Matching(runs, q).value;
      NoneKept(runs, q, kept, places);
      AllNumbered(runs, q, kept, places);
      if kept != [] && Numbered(kept) {
        var i := LatestNewest(runs, q, kept, places);
        NewestNumber(runs, q, i);
        forall j: nat | Newest(runs, q, j) ensures j == i {
          NewestIsOne(runs, q, i, j);
        }
        NewestDecides(runs, q, i, r);
      }
    }
  }

  lemma NewestDecides(runs: seq<Map>, q: Query, i: nat, r: Run)
    requires Newest(runs, q, i) && forall j: nat :: Newest(runs, q, j) ==> j == i
    ensures (exists j: nat :: GoingOn(runs, q, j)) <==> GoingOn(runs, q, i)
    ensures (exists j: nat :: Done(runs, q, j, r)) <==> Done(runs, q, i, r)
  {
    hide Newest;
    if j: nat :| GoingOn(runs, q, j) {
      assert j == i;
    }
    if j: nat :| Done(runs, q, j, r) {
      assert j == i;
    }
  }

  lemma NoneKept(runs: seq<Map>, q: Query, kept: seq<Map>, places: seq<nat>)
    requires Kept(runs, q, kept, places)
    ensures kept == [] <==> forall run :: run in runs ==> !Asked(run, q)
  {
    hide Asked;
    if kept != [] {
      assert runs[places[0]] in runs;
    }
  }

  /** Where there is a newest run, the runs that are kept have numbers. */
  lemma AllNumbered(runs: seq<Map>, q: Query, kept: seq<Map>, places: seq<nat>)
    requires Kept(runs, q, kept, places)
    ensures (exists i: nat :: Newest(runs, q, i)) ==> kept != [] && Numbered(kept)
  {
    hide Asked;
    if i: nat :| Newest(runs, q, i) {
      assert i in places;
      forall run | run in kept ensures Get(run, "id").Number? {
        var k :| 0 <= k < |kept| && kept[k] == run;
        assert Asked(runs[places[k]], q);
      }
    }
  }

  lemma NewestNumber(runs: seq<Map>, q: Query, i: nat)
    requires Newest(runs, q, i)
    ensures i < |runs| && Get(runs[i], "id").Number?
  {
  }

  // ----- Jobs

  lemma {:induction false} NamedOnce(jobs: seq<Map>, name: string, i: nat)
    requires OnlyAt(jobs, name, i)
    ensures |Named(jobs, name)| == 1 && Named(jobs, name)[0] == jobs[i]
  {
    assert forall j :: 0 < j < |jobs| ==> jobs[1..][j - 1] == jobs[j];
    if i == 0 {
      NoneThere(jobs[1..], name);
    } else {
      NamedOnce(jobs[1..], name, i - 1);
    }
  }

  lemma {:induction false} NoneThere(jobs: seq<Map>, name: string)
    requires forall j :: 0 <= j < |jobs| ==> Get(jobs[j], "name") != Text(name)
    ensures Named(jobs, name) == []
  {
    if |jobs| > 0 {
      NoneThere(jobs[1..], name);
    }
  }

  lemma JobPassedIff(jobs: seq<Map>, name: string)
    ensures JobPassed(jobs, name) <==> OneSuccess(jobs, name)
  {
    hide Named;
    if JobPassed(jobs, name) {
      var i := OneNamed(jobs, name);
    }
    if OneSuccess(jobs, name) {
      var i :| 0 <= i < |jobs| && Get(jobs[i], "name") == Text(name)
               && Get(jobs[i], "status") == Text("completed") && Get(jobs[i], "conclusion") == Text("success")
               && forall j :: 0 <= j < |jobs| && j != i ==> Get(jobs[j], "name") != Text(name);
      NamedOnce(jobs, name, i);
    }
  }

  /** The jobs pass exactly if the answer lists them, with each of these eight there once and successful. */
  lemma JobsIff(document: Option<Map>)
    ensures JobsPassed(document, CI_JOBS) <==>
              exists jobs :: document.Some? && Holds(document.value, "jobs", jobs)
                && forall name :: name in {
                     "backend", "web", "validation", "qualification-scripts", "manifests", "security", "codeql",
                     "windows-local-release"
                   } ==> OneSuccess(jobs, name)
  {
    hide Page, JobPassed, OneSuccess, Holds;
    JobsAre();
    hide CI_JOBS;
    forall jobs, name ensures JobPassed(jobs, name) <==> OneSuccess(jobs, name) {
      JobPassedIff(jobs, name);
    }
    forall jobs ensures Page(document, "jobs") == Ok(jobs) <==> document.Some? && Holds(document.value, "jobs", jobs) {
      PageIff(document, "jobs", jobs);
    }
    if JobsPassed(document, CI_JOBS) {
      assert Page(document, "jobs") == Ok(Page(document, "jobs").value);
    }
  }
}
