/** The CI status report (main in scripts/ci-status-report.sh): fan-out, tallies, exit code. */
module CiReport {
  import opened Prelude
  import opened CiConfig
  import opened CiRecords
  import CiFanOut

  // ----- The jobs, read back from the printed rows -----

  function ConfigText(rows: seq<Row>, url: string): seq<string> {
    seq(|rows|, i requires 0 <= i < |rows| => RowText(rows[i])) + [MetaText(url)]
  }

  /** The rows the report takes for jobs: a category called META is taken for metadata. */
  function Listed(rows: seq<Row>): seq<Row> {
    if rows == [] then []
    else
      var last := rows[|rows| - 1];
      Listed(rows[..|rows| - 1]) + (if last.category == "META" then [] else [last])
  }

  function JobLines(rows: seq<Row>): seq<JobLine> {
    seq(|rows|, i requires 0 <= i < |rows| => JobLineOf(rows[i]))
  }

  method ReadJobs(text: seq<string>, ghost rows: seq<Row>, ghost url: string) returns (jobs: seq<JobLine>)
    requires text == ConfigText(rows, url)
    requires forall r :: r in rows ==> CleanRow(r)
    ensures jobs == JobLines(Listed(rows))
  {
    hide RowText, MetaText, ReadLine, CleanRow;
    jobs := [];
    for i := 0 to |text|
      invariant jobs == JobLines(Listed(if i <= |rows| then rows[..i] else rows))
    {
      var job := ReadLine(text[i]);
      if i < |rows| {
        assert rows[i] in rows && rows[..i + 1][..i] == rows[..i];
        ReadRow(rows[i]);
      } else {
        assert rows[..|rows|] == rows;
        ReadMeta(url);
      }
      if job.category == "META" { continue; }
      jobs := jobs + [job];
    }
  }

  // ----- Records and their tallies -----

  /** What the report cuts out of a record: fields 1, 2, 3, 4 and 6. */
  datatype Entry = Entry(category: string, name: string, result: string, url: string, gating: bool)

  function EntryOf(line: string): Entry {
    Entry(Cut(line, 1), Cut(line, 2), Cut(line, 3), Cut(line, 4), Cut(line, 6) == "true")
  }

  function Entries(lines: seq<string>): seq<Entry> {
    seq(|lines|, i requires 0 <= i < |lines| => EntryOf(lines[i]))
  }

  /** The verdict on a job, and the results that mean it. */
  datatype Verdict = Pass | Fail | Neither

  predicate Means(result: string, verdict: Verdict) {
    match verdict
    case Pass => result == "SUCCESS"
    case Fail => result == "FAILURE" || result == "ABORTED"
    case Neither => result != "SUCCESS" && result != "FAILURE" && result != "ABORTED"
  }

  /** A selection of entries: by verdict, by gating, by category; None selects all. */
  datatype Sel = Sel(verdict: Option<Verdict>, gating: Option<bool>, category: Option<string>)

  predicate Matches(e: Entry, sel: Sel) {
    && (sel.verdict.None? || Means(e.result, sel.verdict.value))
    && (sel.gating.None? || e.gating == sel.gating.value)
    && (sel.category.None? || e.category == sel.category.value)
  }

  function Count(es: seq<Entry>, sel: Sel): nat {
    if es == [] then 0 else Count(es[..|es| - 1], sel) + if Matches(es[|es| - 1], sel) then 1 else 0
  }

  /** The counters kept for one verdict, and per category the names of its jobs (printed for failures). */
  datatype Counters = Counters(
    all: nat, gating: nat, nonGating: nat, perCategory: map<string, nat>, names: map<string, seq<string>>)

  /** The names of the selected entries, in order. */
  function Names(es: seq<Entry>, sel: Sel): seq<string> {
    if es == [] then []
    else Names(es[..|es| - 1], sel) + if Matches(es[|es| - 1], sel) then [es[|es| - 1].name] else []
  }

  ghost predicate Tallied(c: Counters, es: seq<Entry>, verdict: Verdict, order: seq<string>) {
    && c.all == Count(es, Sel(Some(verdict), None, None))
    && c.gating == Count(es, Sel(Some(verdict), Some(true), None))
    && c.nonGating == Count(es, Sel(Some(verdict), Some(false), None))
    && forall cat :: cat in order ==>
         && cat in c.perCategory && c.perCategory[cat] == Count(es, Sel(Some(verdict), None, Some(cat)))
         && cat in c.names && c.names[cat] == Names(es, Sel(Some(verdict), None, Some(cat)))
  }

  method Bump(c: Counters, e: Entry, ghost es: seq<Entry>, ghost verdict: Verdict, ghost order: seq<string>)
    returns (d: Counters)
    requires Tallied(c, es, verdict, order) && e.category in order && Means(e.result, verdict)
    ensures Tallied(d, es + [e], verdict, order)
  {
    assert (es + [e])[..|es|] == es;
    d := c.(all := c.all + 1,
            perCategory := c.perCategory[e.category := c.perCategory[e.category] + 1],
            names := c.names[e.category := c.names[e.category] + [e.name]]);
    if e.gating { d := d.(gating := d.gating + 1); } else { d := d.(nonGating := d.nonGating + 1); }
  }

  lemma Unbumped(c: Counters, e: Entry, es: seq<Entry>, verdict: Verdict, order: seq<string>)
    requires Tallied(c, es, verdict, order) && !Means(e.result, verdict)
    ensures Tallied(c, es + [e], verdict, order)
  {
    assert (es + [e])[..|es|] == es;
  }

  ghost predicate AllTallied(pass: Counters, fail: Counters, other: Counters, es: seq<Entry>, order: seq<string>) {
    Tallied(pass, es, Pass, order) && Tallied(fail, es, Fail, order) && Tallied(other, es, Neither, order)
  }

  /** The case statement: one counter set grows, the others stay. */
  method Sort(pass: Counters, fail: Counters, other: Counters, e: Entry, ghost es: seq<Entry>, ghost order: seq<string>)
    returns (pass': Counters, fail': Counters, other': Counters)
    requires e.category in order && AllTallied(pass, fail, other, es, order)
    ensures AllTallied(pass', fail', other', es + [e], order)
  {
    hide Tallied;
    pass', fail', other' := pass, fail, other;
    if e.result == "SUCCESS" {
      pass' := Bump(pass, e, es, Pass, order);
      Unbumped(fail, e, es, Fail, order);
      Unbumped(other, e, es, Neither, order);
    } else if e.result == "FAILURE" || e.result == "ABORTED" {
      fail' := Bump(fail, e, es, Fail, order);
      Unbumped(pass, e, es, Pass, order);
      Unbumped(other, e, es, Neither, order);
    } else {
      other' := Bump(other, e, es, Neither, order);
      Unbumped(pass, e, es, Pass, order);
      Unbumped(fail, e, es, Fail, order);
    }
  }

  /** The counters before the first job. */
  method Zero(order: seq<string>) returns (none: Counters)
    ensures AllTallied(none, none, none, [], order)
  {
    none := Counters(0, 0, 0, map cat | cat in order :: 0, map cat | cat in order :: []);
  }

  /** A line of the job status section. */
  datatype ResultLine = ResultLine(name: string, icon: string, url: string)

  function Icon(result: string): string {
    if result == "SUCCESS" then "PASS"
    else if result == "FAILURE" then "FAIL"
    else if result == "NO_DATA" then "NO DATA"
    else result
  }

  function ResultLineOf(e: Entry): ResultLine {
    ResultLine(e.name, Icon(e.result), e.url)
  }

  function ResultLines(es: seq<Entry>): seq<ResultLine> {
    seq(|es|, i requires 0 <= i < |es| => ResultLineOf(es[i]))
  }

  lemma EntriesSnoc(lines: seq<string>, i: nat)
    requires i < |lines|
    ensures Entries(lines[..i + 1]) == Entries(lines[..i]) + [EntryOf(lines[i])]
    ensures ResultLines(Entries(lines[..i + 1])) == ResultLines(Entries(lines[..i])) + [ResultLineOf(EntryOf(lines[i]))]
  {
    hide EntryOf, ResultLineOf;
  }

  /** A line shows the name, the link and the result of its job, three results in other words. */
  ghost predicate LineRight(l: ResultLine, e: Entry) {
    && l.name == e.name && l.url == e.url
    && (e.result == "SUCCESS" ==> l.icon == "PASS")
    && (e.result == "FAILURE" ==> l.icon == "FAIL")
    && (e.result == "NO_DATA" ==> l.icon == "NO DATA")
    && (e.result !in {"SUCCESS", "FAILURE", "NO_DATA"} ==> l.icon == e.result)
  }

  method Tally(lines: seq<string>, order: seq<string>)
    returns (pass: Counters, fail: Counters, other: Counters, results: seq<ResultLine>)
    requires forall i :: 0 <= i < |lines| ==> EntryOf(lines[i]).category in order
    ensures AllTallied(pass, fail, other, Entries(lines), order)
    ensures results == ResultLines(Entries(lines))
  {
    var none := Zero(order);
    assert Entries(lines[..0]) == [] && ResultLines([]) == [];
    hide Entries, ResultLines, AllTallied, Tallied, ResultLineOf, EntryOf;
    pass, fail, other, results := none, none, none, [];
    for i := 0 to |lines|
      invariant AllTallied(pass, fail, other, Entries(lines[..i]), order)
      invariant results == ResultLines(Entries(lines[..i]))
    {
      var e := EntryOf(lines[i]);
      results := results + [ResultLineOf(e)];
      pass, fail, other := Sort(pass, fail, other, e, Entries(lines[..i]), order);
      EntriesSnoc(lines, i);
    }
    assert lines[..|lines|] == lines;
  }

  /** Conservation: the verdicts share out all jobs, and gating and non-gating share out each verdict. */
  lemma {:induction false} TallyConservation(es: seq<Entry>)
    ensures Count(es, Sel(Some(Pass), None, None)) + Count(es, Sel(Some(Fail), None, None))
            + Count(es, Sel(Some(Neither), None, None)) == |es|
    ensures forall verdict :: Count(es, Sel(Some(verdict), None, None))
                            == Count(es, Sel(Some(verdict), Some(true), None))
                               + Count(es, Sel(Some(verdict), Some(false), None))
  {
    if es != [] {
      TallyConservation(es[..|es| - 1]);
    }
  }

  function SumOver(order: seq<string>, es: seq<Entry>, verdict: Verdict): nat {
    if order == [] then 0 else Count(es, Sel(Some(verdict), None, Some(order[0]))) + SumOver(order[1..], es, verdict)
  }

  ghost predicate NoRepeats(order: seq<string>) {
    forall i, j :: 0 <= i < j < |order| ==> order[i] != order[j]
  }

  lemma {:induction false} SumSnoc(order: seq<string>, es: seq<Entry>, e: Entry, verdict: Verdict)
    requires NoRepeats(order)
    ensures SumOver(order, es + [e], verdict)
            == SumOver(order, es, verdict) + if e.category in order && Means(e.result, verdict) then 1 else 0
  {
    assert (es + [e])[..|es|] == es;
    if order != [] {
      assert NoRepeats(order[1..]);
      assert forall cat :: cat in order[1..] ==> cat != order[0];
      SumSnoc(order[1..], es, e, verdict);
    }
  }

  lemma {:induction false} SumOverNone(order: seq<string>, verdict: Verdict)
    ensures SumOver(order, [], verdict) == 0
  {
    if order != [] {
      SumOverNone(order[1..], verdict);
    }
  }

  /** Conservation over categories: a verdict's count is the sum of its counts per category. */
  lemma {:induction false} CategoryConservation(order: seq<string>, es: seq<Entry>, verdict: Verdict)
    requires NoRepeats(order) && forall e :: e in es ==> e.category in order
    ensures SumOver(order, es, verdict) == Count(es, Sel(Some(verdict), None, None))
  {
    if es == [] {
      SumOverNone(order, verdict);
    } else {
      var front, e := es[..|es| - 1], es[|es| - 1];
      assert es == front + [e] && e in es;
      CategoryConservation(order, front, verdict);
      SumSnoc(order, front, e, verdict);
    }
  }

  // ----- The indicator -----

  datatype Indicator = Dashes | PASS | WARN | FAIL

  /** log_indicator, with its integer percentage */
  function LogIndicator(pass: nat, total: nat): Indicator {
    if total == 0 then Dashes
    else
      var pct := pass * 100 / total;
      if pct == 100 then PASS else if 50 <= pct then WARN else FAIL
  }

  lemma IndicatorExact(pass: nat, total: nat)
    requires pass <= total && 0 < total
    ensures LogIndicator(pass, total) == PASS <==> pass == total
    ensures LogIndicator(pass, total) in {PASS, WARN} <==> total <= 2 * pass
  {
    QuotientAtLeast(pass * 100, total, 100);
    QuotientAtLeast(pass * 100, total, 50);
    QuotientAtLeast(pass * 100, total, 101);
  }

  /** The printed percentage, None for "N/A". */
  function Percent(pass: nat, total: nat): Option<nat> {
    if total == 0 then None else Some(pass * 100 / total)
  }

  /** Indicator and percentage say what they should of a rate. */
  ghost predicate Shows(indicator: Indicator, percent: Option<nat>, pass: nat, total: nat) {
    && (indicator == Dashes <==> total == 0)
    && (indicator == PASS <==> 0 < total == pass)
    && (indicator in {PASS, WARN} <==> 0 < total <= 2 * pass)
    && (percent.None? <==> total == 0)
    && (percent.Some? ==> percent.value * total <= 100 * pass < (percent.value + 1) * total)
  }

  lemma RateShown(pass: nat, total: nat)
    requires pass <= total
    ensures Shows(LogIndicator(pass, total), Percent(pass, total), pass, total)
  {
    if total != 0 {
      IndicatorExact(pass, total);
      var q := pass * 100 / total;
      QuotientAtLeast(pass * 100, total, q);
      QuotientAtLeast(pass * 100, total, q + 1);
    }
  }

  lemma QuotientAtLeast(x: nat, d: nat, k: nat)
    requires 0 < d
    ensures k <= x / d <==> k * d <= x
  {
    var q := x / d;
    assert q * d <= x < (q + 1) * d;
    assert k <= q ==> k * d <= q * d;
    assert q + 1 <= k ==> (q + 1) * d <= k * d;
  }

  // ----- The whole report -----

  /** Each category once, in the order of its first row, at that position. */
  ghost predicate FirstsAt(order: seq<string>, categories: seq<string>, at: seq<nat>) {
    && |at| == |order|
    && (forall i, j :: 0 <= i < j < |at| ==> at[i] < at[j])
    && (forall i :: 0 <= i < |at| ==> at[i] < |categories| && categories[at[i]] == order[i])
    && (forall i, j :: 0 <= i < |at| && 0 <= j < at[i] && j < |categories| ==> categories[j] != order[i])
    && (forall cat :: cat in categories ==> cat in order)
  }

  ghost predicate FirstOrder(order: seq<string>, categories: seq<string>) {
    exists at :: FirstsAt(order, categories, at)
  }

  function Categories(jobs: seq<JobLine>): seq<string> {
    seq(|jobs|, i requires 0 <= i < |jobs| => jobs[i].category)
  }

  /** The categories of the jobs. */
  method CategoryOrder(jobs: seq<JobLine>) returns (order: seq<string>)
    ensures NoRepeats(order) && FirstOrder(order, Categories(jobs))
    ensures forall j :: j in jobs ==> j.category in order
  {
    order := [];
    ghost var at: seq<nat> := [];
    for i := 0 to |jobs|
      invariant FirstsAt(order, Categories(jobs[..i]), at)
    {
      assert Categories(jobs[..i + 1]) == Categories(jobs[..i]) + [jobs[i].category];
      if jobs[i].category !in order {
        order, at := order + [jobs[i].category], at + [i];
      }
    }
    assert jobs[..|jobs|] == jobs;
    forall j | j in jobs ensures j.category in order {
      var i :| 0 <= i < |jobs| && jobs[i] == j;
      assert Categories(jobs)[i] in Categories(jobs);
    }
  }

  /** What the report should know about a job: its own row, and the deciding build of its history. */
  ghost predicate Reports(e: Entry, r: Row, h: History) {
    && e.category == r.category && e.name == r.name && e.gating == r.gating
    && exists id :: Decides(h, id, e.result) && e.url == Link(r.prowJob, id)
  }

  lemma EntryReports(r: Row, h: History)
    requires CleanRow(r) && CleanHistory(h)
    ensures Reports(EntryOf(Record(JobLineOf(r), JobStatus(h))), r, h)
  {
    assert BarFree("true") && BarFree("false");
    var id := RecordRoundTrip(JobLineOf(r), h);
  }

  lemma {:induction false} ListedMembers(rows: seq<Row>)
    ensures forall r :: r in Listed(rows) ==> r in rows
  {
    if rows != [] {
      ListedMembers(rows[..|rows| - 1]);
    }
  }

  /** The rows of a configuration that the report takes for jobs. */
  function JobsIn(config: seq<Line>): seq<Row> {
    Listed(Rows(FeedAll(START, config).categories))
  }

  /** A line of the category summary. */
  datatype CategoryLine = CategoryLine(
    category: string, indicator: Indicator, pass: nat, total: nat, percent: Option<nat>, failing: seq<string>)

  /** The gating or non-gating rate: over jobs with a verdict, the others shown apart. */
  datatype Rate = Rate(indicator: Indicator, pass: nat, definitive: nat, percent: Option<nat>, other: nat)

  datatype Overall = Overall(passing: nat, failing: nat, other: nat, total: nat)

  datatype Output =
    | TooFew
    | Printed(categories: seq<CategoryLine>, results: seq<ResultLine>, overall: Overall, gating: Rate, nonGating: Rate)

  ghost predicate CategoryRight(l: CategoryLine, es: seq<Entry>, cat: string) {
    && l.category == cat
    && l.pass == Count(es, Sel(Some(Pass), None, Some(cat)))
    && l.total == Count(es, Sel(None, None, Some(cat)))
    && Shows(l.indicator, l.percent, l.pass, l.total)
    && l.failing == Names(es, Sel(Some(Fail), None, Some(cat)))
  }

  ghost predicate OverallRight(o: Overall, es: seq<Entry>) {
    && o.passing == Count(es, Sel(Some(Pass), None, None))
    && o.failing == Count(es, Sel(Some(Fail), None, None))
    && o.total == |es| == o.passing + o.failing + o.other
  }

  ghost predicate RateRight(r: Rate, es: seq<Entry>, gating: bool) {
    && r.pass == Count(es, Sel(Some(Pass), Some(gating), None))
    && r.definitive == r.pass + Count(es, Sel(Some(Fail), Some(gating), None))
    && r.definitive + r.other == Count(es, Sel(None, Some(gating), None))
    && Shows(r.indicator, r.percent, r.pass, r.definitive)
  }

  /** The three verdicts share out any selection of entries. */
  lemma {:induction false} VerdictsShare(es: seq<Entry>, gating: Option<bool>, cat: Option<string>)
    ensures Count(es, Sel(Some(Pass), gating, cat)) + Count(es, Sel(Some(Fail), gating, cat))
            + Count(es, Sel(Some(Neither), gating, cat)) == Count(es, Sel(None, gating, cat))
  {
    if es != [] {
      VerdictsShare(es[..|es| - 1], gating, cat);
    }
  }

  method Summarize(ghost es: seq<Entry>, order: seq<string>, pass: Counters, fail: Counters, other: Counters)
    returns (categories: seq<CategoryLine>)
    requires AllTallied(pass, fail, other, es, order)
    ensures |categories| == |order| && forall k :: 0 <= k < |order| ==> CategoryRight(categories[k], es, order[k])
  {
    hide Count, Names, LogIndicator, Percent, Shows;
    categories := [];
    for k := 0 to |order|
      invariant |categories| == k && forall j :: 0 <= j < k ==> CategoryRight(categories[j], es, order[j])
    {
      var cat := order[k];
      assert cat in order;
      VerdictsShare(es, None, Some(cat));
      var cp, cf, co := pass.perCategory[cat], fail.perCategory[cat], other.perCategory[cat];
      var ct := cp + cf + co;
      RateShown(cp, ct);
      categories := categories + [CategoryLine(cat, LogIndicator(cp, ct), cp, ct, Percent(cp, ct), fail.names[cat])];
    }
  }

  method GatingRates(ghost es: seq<Entry>, order: seq<string>, pass: Counters, fail: Counters, other: Counters)
    returns (gating: Rate, nonGating: Rate)
    requires AllTallied(pass, fail, other, es, order)
    ensures RateRight(gating, es, true) && RateRight(nonGating, es, false)
  {
    hide Count, LogIndicator, Percent, Shows;
    var gDef, ngDef := pass.gating + fail.gating, pass.nonGating + fail.nonGating;
    VerdictsShare(es, Some(true), None);
    VerdictsShare(es, Some(false), None);
    RateShown(pass.gating, gDef);
    RateShown(pass.nonGating, ngDef);
    gating := Rate(LogIndicator(pass.gating, gDef), pass.gating, gDef, Percent(pass.gating, gDef), other.gating);
    nonGating := Rate(LogIndicator(pass.nonGating, ngDef), pass.nonGating, ngDef, Percent(pass.nonGating, ngDef),
                      other.nonGating);
  }

  /** The collected lines are one entry per job, each reporting on its own job. */
  lemma EntriesReport(rows: seq<Row>, histories: nat -> History, lines: seq<string>, order: seq<string>)
    requires lines == CiFanOut.SequentialRecords(CiFanOut.Work(JobLines(rows), histories))
    requires forall r :: r in rows ==> CleanRow(r)
    requires forall j :: j in JobLines(rows) ==> j.category in order
    requires forall i: nat :: CleanHistory(histories(i))
    ensures |lines| == |rows|
    ensures forall i :: 0 <= i < |rows| ==> Reports(EntryOf(lines[i]), rows[i], histories(i))
    ensures forall i :: 0 <= i < |lines| ==> EntryOf(lines[i]).category in order
  {
    hide Decides, Record, JobStatus, CleanHistory, CleanRow;
    forall i | 0 <= i < |rows|
      ensures Reports(EntryOf(lines[i]), rows[i], histories(i)) && EntryOf(lines[i]).category in order
    {
      assert rows[i] in rows && JobLines(rows)[i] in JobLines(rows);
      EntryReports(rows[i], histories(i));
    }
  }

  // ----- The outcome, in terms of the builds -----

  /** The jobs some build of which has completed. */
  ghost function JudgedJobs(histories: nat -> History, n: nat): set<nat> {
    set i | 0 <= i < n && Judged(histories(i))
  }

  lemma EntryMeans(e: Entry, r: Row, h: History)
    requires Reports(e, r, h)
    ensures Judged(h) <==> e.result in {"SUCCESS", "FAILURE", "ABORTED"}
    ensures Red(h) <==> e.result in {"FAILURE", "ABORTED"}
  {
    var id :| Decides(h, id, e.result) && e.url == Link(r.prowJob, id);
  }

  lemma {:induction false} JudgedCount(es: seq<Entry>, histories: nat -> History)
    requires forall i :: 0 <= i < |es| ==>
      (Judged(histories(i)) <==> es[i].result in {"SUCCESS", "FAILURE", "ABORTED"})
    ensures |JudgedJobs(histories, |es|)|
            == Count(es, Sel(Some(Pass), None, None)) + Count(es, Sel(Some(Fail), None, None))
  {
    hide Judged;
    if es == [] {
      assert JudgedJobs(histories, 0) == {};
    } else {
      hide JudgedJobs;
      JudgedCount(es[..|es| - 1], histories);
      JudgedNext(histories, |es| - 1);
    }
  }

  lemma JudgedNext(histories: nat -> History, n: nat)
    ensures |JudgedJobs(histories, n + 1)| == |JudgedJobs(histories, n)| + One(Judged(histories(n)))
  {
    hide Judged;
    var more := if Judged(histories(n)) then {n} else {};
    assert JudgedJobs(histories, n + 1) == JudgedJobs(histories, n) + more;
    assert JudgedJobs(histories, n) !! more;
  }

  /** What becomes of the run depends on the newest completed build of each job only. */
  lemma OutcomeByBuilds(rows: seq<Row>, histories: nat -> History, exit: nat, output: Output, es: seq<Entry>,
                        order: seq<string>)
    requires |es| == |rows| && OutputRight(exit, output, es, order)
    requires forall i :: 0 <= i < |rows| ==> Reports(es[i], rows[i], histories(i))
    ensures output.TooFew? <==> |JudgedJobs(histories, |rows|)| < |rows| / 2
    ensures exit == 1 <==> output.TooFew? || exists i :: 0 <= i < |rows| && Red(histories(i))
  {
    hide Reports, Judged, Red, CategoryRight, OverallRight, RateRight, LineRight;
    forall i | 0 <= i < |rows|
      ensures Judged(histories(i)) <==> es[i].result in {"SUCCESS", "FAILURE", "ABORTED"}
      ensures Red(histories(i)) <==> es[i].result in {"FAILURE", "ABORTED"}
    {
      EntryMeans(es[i], rows[i], histories(i));
    }
    JudgedCount(es, histories);
    assert forall i :: 0 <= i < |es| ==> es[i] in es;
    if e :| e in es && e.result in {"FAILURE", "ABORTED"} {
      var i :| 0 <= i < |es| && es[i] == e;
      assert Red(histories(i));
    }
  }

  /** What the output and the exit code say of the entries behind the collected lines. */
  ghost predicate OutputRight(exit: nat, output: Output, es: seq<Entry>, order: seq<string>) {
    && (output.TooFew? <==>
          Count(es, Sel(Some(Pass), None, None)) + Count(es, Sel(Some(Fail), None, None)) < |es| / 2)
    && (output.Printed? ==>
          && |output.categories| == |order|
          && (forall k :: 0 <= k < |order| ==> CategoryRight(output.categories[k], es, order[k]))
          && |output.results| == |es| && (forall i :: 0 <= i < |es| ==> LineRight(output.results[i], es[i]))
          && OverallRight(output.overall, es)
          && RateRight(output.gating, es, true) && RateRight(output.nonGating, es, false))
    && (exit == 1 <==> output.TooFew? || exists e :: e in es && e.result in {"FAILURE", "ABORTED"})
    && (exit == 0 || exit == 1)
  }

  lemma Totals(es: seq<Entry>, order: seq<string>, pass: Counters, fail: Counters, other: Counters)
    requires AllTallied(pass, fail, other, es, order)
    ensures OverallRight(Overall(pass.all, fail.all, other.all, pass.all + fail.all + other.all), es)
    ensures 0 < fail.all <==> exists e :: e in es && e.result in {"FAILURE", "ABORTED"}
  {
    hide Count;
    TallyConservation(es);
    CountZero(es, Sel(Some(Fail), None, None));
  }

  lemma LinesRight(es: seq<Entry>)
    ensures |ResultLines(es)| == |es|
    ensures forall i :: 0 <= i < |es| ==> LineRight(ResultLines(es)[i], es[i])
  {
  }

  method Print(lines: seq<string>, order: seq<string>) returns (exit: nat, output: Output)
    requires forall i :: 0 <= i < |lines| ==> EntryOf(lines[i]).category in order
    ensures OutputRight(exit, output, Entries(lines), order)
  {
    hide EntryOf, Entries, AllTallied, CategoryRight, RateRight, LineRight, ResultLines, Count;
    var pass, fail, other, results := Tally(lines, order);
    ghost var es := Entries(lines);
    Totals(es, order, pass, fail, other);
    LinesRight(es);
    var total := pass.all + fail.all + other.all;
    if pass.all + fail.all < total / 2 {
      return 1, TooFew;
    }
    var categories := Summarize(es, order, pass, fail, other);
    var gating, nonGating := GatingRates(es, order, pass, fail, other);
    output := Printed(categories, results, Overall(pass.all, fail.all, other.all, total), gating, nonGating);
    exit := if 0 < fail.all then 1 else 0;
  }

  /**
   End to end: for every configuration whose fields are free of the delimiter, every outcome of the
   requests and every interleaving of the background jobs, there is one entry per configured job, in
   config order, with that job's effective gating and the verdict of its newest completed build; the
   summary lines, the job lines, the totals and the gating rates say what those entries say; they are left
   out exactly when fewer than half of the jobs (rounded down) have a completed build, and the exit code
   is 1 exactly then or when the newest completed build of some job did not succeed.
   */
  method Report(config: seq<Line>, histories: nat -> History)
    returns (exit: nat, output: Output, ghost es: seq<Entry>, order: seq<string>)
    requires forall r :: r in Rows(FeedAll(START, config).categories) ==> CleanRow(r)
    requires forall i: nat :: CleanHistory(histories(i))
    ensures |es| == |JobsIn(config)|
    ensures forall i :: 0 <= i < |es| ==> Reports(es[i], JobsIn(config)[i], histories(i))
    ensures NoRepeats(order) && FirstOrder(order, Categories(JobLines(JobsIn(config))))
    ensures OutputRight(exit, output, es, order)
    ensures output.TooFew? <==> |JudgedJobs(histories, |JobsIn(config)|)| < |JobsIn(config)| / 2
    ensures exit == 1 <==> output.TooFew? || exists i :: 0 <= i < |JobsIn(config)| && Red(histories(i))
  {
    hide Reports, CleanHistory, CleanRow, EntryOf, OutputRight, FeedAll, NoRepeats, FirstOrder, Judged, Red, JobLineOf;
    var rows, url := ParseConfig(config);
    var text := ConfigText(rows, url);
    var jobs := ReadJobs(text, rows, url);
    order := CategoryOrder(jobs);
    var lines := CiFanOut.FanOut(CiFanOut.Work(jobs, histories));
    ListedMembers(rows);
    EntriesReport(Listed(rows), histories, lines, order);
    exit, output := Print(lines, order);
    es := Entries(lines);
    OutcomeByBuilds(Listed(rows), histories, exit, output, es, order);
  }

  lemma {:induction false} CountZero(es: seq<Entry>, sel: Sel)
    ensures 0 < Count(es, sel) <==> exists e :: e in es && Matches(e, sel)
  {
    if es != [] {
      var front, last := es[..|es| - 1], es[|es| - 1];
      CountZero(front, sel);
      assert es == front + [last];
    }
  }
}
