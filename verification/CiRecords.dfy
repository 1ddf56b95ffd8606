/**
 The '|'-delimited records of scripts/ci-status-report.sh: the rows parse_config prints, the status
 get_job_status chooses, and the records check_job writes.
 */
module CiRecords {
  import opened Prelude
  import opened CiConfig

  const BAR := '|'

  // ----- Delimited text -----

  function Join(fields: seq<string>): string
    requires fields != []
  {
    if |fields| == 1 then fields[0] else fields[0] + [BAR] + Join(fields[1..])
  }

  function Split(line: string): (fields: seq<string>)
    ensures fields != []
  {
    if line == "" then [""]
    else
      var rest := Split(line[1..]);
      if line[0] == BAR then [""] + rest else [[line[0]] + rest[0]] + rest[1..]
  }

  /** cut -d'|' -f<n>: a line without a delimiter is printed whole, a missing field is empty. */
  function Cut(line: string, n: nat): string
    requires 0 < n
  {
    var fields := Split(line);
    if |fields| == 1 then line else if n <= |fields| then fields[n - 1] else ""
  }

  predicate BarFree(s: string) {
    BAR !in s
  }

  predicate AllBarFree(fields: seq<string>) {
    forall f :: f in fields ==> BarFree(f)
  }

  lemma {:induction false} SplitParts(line: string)
    ensures AllBarFree(Split(line))
  {
    if line != "" {
      SplitParts(line[1..]);
      var rest := Split(line[1..]);
      assert rest[0] in rest;
      assert forall f :: f in rest[1..] ==> f in rest;
    }
  }

  lemma {:induction false} SplitOne(f: string)
    requires BarFree(f)
    ensures Split(f) == [f]
  {
    if f != "" {
      assert f[0] in f;
      assert forall c :: c in f[1..] ==> c in f;
      SplitOne(f[1..]);
      assert [f[0]] + f[1..] == f;
    }
  }

  lemma {:induction false} SplitPrefix(f: string, rest: string)
    requires BarFree(f)
    ensures Split(f + [BAR] + rest) == [f] + Split(rest)
  {
    var line := f + [BAR] + rest;
    if f == "" {
      assert line[1..] == rest;
    } else {
      assert f[0] in f && line[0] == f[0];
      assert forall c :: c in f[1..] ==> c in f;
      SplitPrefix(f[1..], rest);
      assert line[1..] == f[1..] + [BAR] + rest;
      assert [f[0]] + f[1..] == f;
      assert ([f[1..]] + Split(rest))[1..] == Split(rest);
    }
  }

  /** Cutting a record recovers its fields if and only if none of them contains the delimiter. */
  lemma {:induction false} SplitJoin(fields: seq<string>)
    requires fields != []
    ensures Split(Join(fields)) == fields <==> AllBarFree(fields)
  {
    SplitParts(Join(fields));
    if AllBarFree(fields) {
      assert fields[0] in fields;
      if |fields| == 1 {
        SplitOne(fields[0]);
      } else {
        assert forall f :: f in fields[1..] ==> f in fields;
        SplitJoin(fields[1..]);
        SplitPrefix(fields[0], Join(fields[1..]));
      }
    }
  }

  // ----- The rows of the configuration, printed and read back -----

  function Word(b: bool): string {
    if b then "true" else "false"
  }

  function RowText(r: Row): string {
    Join([r.category, r.categoryName, r.filter, r.name, r.prowJob, Word(r.gating)])
  }

  function MetaText(url: string): string {
    Join(["META", "sippy_url", url])
  }

  /** What `IFS='|' read -r cat_id _ _ display_name prow_job gating` keeps of a line. */
  datatype JobLine = JobLine(category: string, name: string, prowJob: string, gating: string)

  /** The last variable of `read` takes whatever is left of the line. */
  function ReadLine(line: string): JobLine {
    var f := Split(line);
    var field := (n: nat) => if n < |f| then f[n] else "";
    JobLine(f[0], field(3), field(4), if |f| <= 5 then "" else Join(f[5..]))
  }

  function JobLineOf(r: Row): JobLine {
    JobLine(r.category, r.name, r.prowJob, if r.gating then "true" else "false")
  }

  predicate CleanRow(r: Row) {
    BarFree(r.category) && BarFree(r.categoryName) && BarFree(r.filter) && BarFree(r.name) && BarFree(r.prowJob)
  }

  lemma ReadRow(r: Row)
    requires CleanRow(r)
    ensures ReadLine(RowText(r)) == JobLineOf(r)
    ensures Cut(RowText(r), 1) == r.category && Cut(RowText(r), 2) == r.categoryName && Cut(RowText(r), 3) == r.filter
  {
    var fields := [r.category, r.categoryName, r.filter, r.name, r.prowJob, Word(r.gating)];
    SplitJoin(fields);
    assert fields[5..] == [Word(r.gating)];
  }

  lemma ReadMeta(url: string)
    ensures ReadLine(MetaText(url)).category == "META"
    ensures BarFree(url) ==> Cut(MetaText(url), 3) == url
  {
    if BarFree(url) {
      SplitJoin(["META", "sippy_url", url]);
    }
    SplitPrefix("META", Join(["sippy_url", url]));
    assert ["META", "sippy_url", url][1..] == ["sippy_url", url];
  }

  // ----- The status of a job -----

  datatype Build = Build(id: string, result: Option<string>)

  /** What the job-history request gives: nothing usable, or the builds, newest first. */
  datatype History = Unavailable | Builds(builds: seq<Build>)

  predicate Pending(b: Build) {
    b.result == Some("PENDING")
  }

  function Completed(builds: seq<Build>): seq<Build> {
    if builds == [] then []
    else (if Pending(builds[0]) then [] else [builds[0]]) + Completed(builds[1..])
  }

  function Outcome(b: Build): string {
    if b.result == Some("SUCCESS") then "SUCCESS" else "FAILURE"
  }

  /** get_job_status */
  function JobStatus(h: History): string {
    if h.Unavailable? || h.builds == [] then Join(["", "NO_DATA"])
    else
      var latest := h.builds[0];
      if Pending(latest) then
        var completed := Completed(h.builds);
        if completed != [] then Join([completed[0].id, Outcome(completed[0])])
        else Join([latest.id, "RUNNING"])
      else Join([latest.id, Outcome(latest)])
  }

  /** The newest build that is not pending. */
  ghost predicate Newest(builds: seq<Build>, k: nat) {
    && k < |builds| && builds[k].result != Some("PENDING")
    && forall j :: 0 <= j < k ==> builds[j].result == Some("PENDING")
  }

  lemma {:induction false} CompletedFirst(builds: seq<Build>, k: nat)
    requires Newest(builds, k)
    ensures Completed(builds) != [] && Completed(builds)[0] == builds[k]
  {
    if k != 0 {
      assert builds[1..][k - 1] == builds[k];
      assert forall j :: 0 <= j < k - 1 ==> builds[1..][j] == builds[j + 1];
      CompletedFirst(builds[1..], k - 1);
    }
  }

  lemma {:induction false} CompletedNone(builds: seq<Build>)
    requires forall b :: b in builds ==> Pending(b)
    ensures Completed(builds) == []
  {
    if builds != [] {
      assert builds[0] in builds;
      CompletedNone(builds[1..]);
    }
  }

  /**
   The newest build that has completed decides, and is the build shown; while all are pending the latest
   one is shown as running; without builds there is no data.
   */
  ghost predicate Decides(h: History, id: string, result: string) {
    if Judged(h)
    then exists k: nat :: Newest(h.builds, k) && id == h.builds[k].id
           && result == (if h.builds[k].result == Some("SUCCESS") then "SUCCESS" else "FAILURE")
    else if h.Builds? && h.builds != [] then id == h.builds[0].id && result == "RUNNING"
    else id == "" && result == "NO_DATA"
  }

  /** Some build of the job has completed. */
  ghost predicate Judged(h: History) {
    h.Builds? && exists b :: b in h.builds && b.result != Some("PENDING")
  }

  /** The newest completed build of the job did not succeed. */
  ghost predicate Red(h: History) {
    h.Builds? && exists k: nat :: Newest(h.builds, k) && h.builds[k].result != Some("SUCCESS")
  }

  lemma {:induction false} NewestExists(builds: seq<Build>) returns (k: nat)
    requires exists b :: b in builds && !Pending(b)
    ensures Newest(builds, k)
  {
    if !Pending(builds[0]) {
      k := 0;
    } else {
      var b :| b in builds && !Pending(b);
      assert b in builds[1..];
      var m := NewestExists(builds[1..]);
      k := m + 1;
      assert forall j :: 0 < j < k ==> builds[j] == builds[1..][j - 1];
    }
  }

  // ----- The record of a job -----

  const PROW_HOST := "https://prow.ci.openshift.org"
  const PROW_PATH := "/view/gs/test-platform-results"
  const PROW_BASE := PROW_HOST + PROW_PATH

  /** check_job, given the status line: `%%|*` keeps what precedes the first '|', `##*|` what follows the last. */
  function RecordFields(j: JobLine, status: string): seq<string> {
    var parts := Split(status);
    var buildId, result := parts[0], parts[|parts| - 1];
    if result == "NO_DATA" || result == "" then [j.category, j.name, "NO_DATA", "", "", j.gating]
    else if buildId != "" then
      [j.category, j.name, result, PROW_BASE + "/logs/" + j.prowJob + "/" + buildId, j.prowJob, j.gating]
    else [j.category, j.name, result, "", j.prowJob, j.gating]
  }

  function Record(j: JobLine, status: string): string {
    Join(RecordFields(j, status))
  }

  predicate CleanHistory(h: History) {
    h.Builds? ==> forall b :: b in h.builds ==> BarFree(b.id)
  }

  predicate CleanJob(j: JobLine) {
    BarFree(j.category) && BarFree(j.name) && BarFree(j.prowJob) && BarFree(j.gating)
  }

  /** The status line's two parts, before they are joined. */
  function StatusFields(h: History): seq<string> {
    if h.Unavailable? || h.builds == [] then ["", "NO_DATA"]
    else
      var done := Completed(h.builds);
      if done != [] then [done[0].id, Outcome(done[0])] else [h.builds[0].id, "RUNNING"]
  }

  lemma StatusIsJoin(h: History)
    ensures JobStatus(h) == Join(StatusFields(h))
  {
  }

  lemma StatusFieldsDecide(h: History)
    requires CleanHistory(h)
    ensures var parts := StatusFields(h);
      && |parts| == 2 && AllBarFree(parts)
      && Decides(h, parts[0], parts[1])
      && parts[1] in {"NO_DATA", "RUNNING", "SUCCESS", "FAILURE"}
      && (parts[1] == "NO_DATA" ==> parts[0] == "")
  {
    if h.Builds? && h.builds != [] {
      assert h.builds[0] in h.builds;
      if exists b :: b in h.builds && !Pending(b) {
        var k := NewestExists(h.builds);
        CompletedFirst(h.builds, k);
        assert h.builds[k] in h.builds;
      } else {
        CompletedNone(h.builds);
      }
    }
  }

  lemma StatusParts(h: History)
    requires CleanHistory(h)
    ensures Split(JobStatus(h)) == StatusFields(h)
  {
    hide JobStatus, StatusFields, Decides, Join, Split;
    StatusFieldsDecide(h);
    StatusIsJoin(h);
    SplitJoin(StatusFields(h));
  }

  /** The link to a build, if there is one to link to. */
  function Link(job: string, id: string): string {
    if id == "" then ""
    else "https://prow.ci.openshift.org" + "/view/gs/test-platform-results" + "/logs/" + job + "/" + id
  }

  /**
   Whichever of the three shapes a record has, the fields the report cuts out of it are the job's
   category, name and gating, the result of the deciding build, and the link to that build.
   */
  lemma RecordRoundTrip(j: JobLine, h: History) returns (id: string)
    requires CleanJob(j) && CleanHistory(h)
    ensures var line := Record(j, JobStatus(h));
      && Cut(line, 1) == j.category
      && Cut(line, 2) == j.name
      && Decides(h, id, Cut(line, 3))
      && Cut(line, 4) == Link(j.prowJob, id)
      && Cut(line, 5) == (if Cut(line, 3) == "NO_DATA" then "" else j.prowJob)
      && Cut(line, 6) == j.gating
  {
    hide JobStatus, StatusFields, Decides, Join, Split;
    var fields := RecordFields(j, JobStatus(h));
    StatusFieldsDecide(h);
    StatusParts(h);
    id := StatusFields(h)[0];
    UrlBarFree(j.prowJob, id);
    assert |fields| == 6 && AllBarFree(fields);
    SplitJoin(fields);
  }

  lemma UrlBarFree(job: string, build: string)
    requires BarFree(job) && BarFree(build)
    ensures BarFree(PROW_BASE + "/logs/" + job + "/" + build)
  {
    assert BarFree(PROW_HOST) && BarFree(PROW_PATH) && BarFree("/logs/") && BarFree("/");
  }
}
