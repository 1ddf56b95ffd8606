/**
 The line parser of the CI status configuration (parse_config in scripts/ci-status-report.sh).
 Lines come classified by the parser's own patterns; the values are the captured, stripped texts.
 */
module CiConfig {
  import opened Prelude

  datatype Line =
    | Blank                       // empty, or a comment
    | SippyUrl(url: string)
    | CategoriesKey
    | CategoryId(id: string)      // "- id: ..."
    | Name(value: string)         // "name: ...", of a category or of a team block
    | ProwFilter(value: string)
    | JobsKey
    | Gating(value: string)
    | JobName(value: string)      // "- name: ..."
    | ProwJob(value: string)
    | Other                       // anything else

  datatype Job = Job(name: string, prowJob: string, gating: Option<bool>)
  datatype Category = Category(id: string, name: string, filter: string, gating: bool, jobs: seq<Job>)

  /** current_cat is the last category, and current_job its last job when `inJob`. */
  datatype Parser = Parser(sippyUrl: string, categories: seq<Category>, inJob: bool)

  /** An output line: the six fields printed for a job. */
  datatype Row = Row(
    category: string, categoryName: string, filter: string, name: string, prowJob: string, gating: bool)

  const START := Parser("", [], false)

  function Lower(s: string): string {
    seq(|s|, i requires 0 <= i < |s| => LowerChar(s[i]))
  }

  /** val.lower() in ('true', 'yes', '1') */
  predicate Flag(value: string) {
    Lower(value) in {"true", "yes", "1"}
  }

  /** The words that set the flag: 1, and yes and true in any case. */
  lemma FlagWords(value: string)
    ensures Flag(value) <==>
      || value == "1"
      || (|value| == 3 && value[0] in {'y', 'Y'} && value[1] in {'e', 'E'} && value[2] in {'s', 'S'})
      || (|value| == 4 && value[0] in {'t', 'T'} && value[1] in {'r', 'R'}
          && value[2] in {'u', 'U'} && value[3] in {'e', 'E'})
  {
    var l := Lower(value);
    if |value| == 1 {
      assert l == "1" <==> l[0] == '1';
      assert value == "1" <==> value[0] == '1';
    } else if |value| == 3 {
      assert l == "yes" <==> l[0] == 'y' && l[1] == 'e' && l[2] == 's';
    } else if |value| == 4 {
      assert l == "true" <==> l[0] == 't' && l[1] == 'r' && l[2] == 'u' && l[3] == 'e';
    }
  }

  /** A word that sets the flag no longer does with anything after it, such as a trailing comment. */
  lemma FlagNeedsBareWord(word: string, rest: string)
    requires Flag(word)
    ensures Flag(word + rest) <==> rest == ""
  {
    assert Lower(word + rest) == Lower(word) + Lower(rest);
    if rest == "" {
      assert word + rest == word;
    } else {
      assert Lower(word + rest)[0] == Lower(word)[0];
    }
  }

  // ----- One line at a time -----

  function WithCategory(p: Parser, c: Category): Parser
    requires p.categories != []
  {
    p.(categories := p.categories[|p.categories| - 1 := c])
  }

  function WithJob(c: Category, j: Job): Category
    requires c.jobs != []
  {
    c.(jobs := c.jobs[|c.jobs| - 1 := j])
  }

  predicate Sound(p: Parser) {
    p.inJob ==> p.categories != [] && p.categories[|p.categories| - 1].jobs != []
  }

  function Feed(p: Parser, line: Line): (q: Parser)
    requires Sound(p)
    ensures Sound(q)
  {
    if line.SippyUrl? then p.(sippyUrl := line.url)
    else if line.CategoryId? then
      p.(categories := p.categories + [Category(line.id, "", "", false, [])], inJob := false)
    else if p.categories == [] then p
    else
      var cat := p.categories[|p.categories| - 1];
      match line
      case Name(v) => if p.inJob then p else WithCategory(p, cat.(name := v))
      case ProwFilter(v) => WithCategory(p, cat.(filter := v))
      case Gating(v) =>
        if p.inJob then WithCategory(p, WithJob(cat, cat.jobs[|cat.jobs| - 1].(gating := Some(Flag(v)))))
        else WithCategory(p, cat.(gating := Flag(v)))
      case JobName(v) => WithCategory(p, cat.(jobs := cat.jobs + [Job(v, "", None)])).(inJob := true)
      case ProwJob(v) =>
        if p.inJob then WithCategory(p, WithJob(cat, cat.jobs[|cat.jobs| - 1].(prowJob := v))) else p
      case _ => p
  }

  function FeedAll(p: Parser, lines: seq<Line>): (q: Parser)
    requires Sound(p)
    ensures Sound(q)
  {
    if lines == [] then p else Feed(FeedAll(p, lines[..|lines| - 1]), lines[|lines| - 1])
  }

  function JobRows(c: Category, jobs: seq<Job>): seq<Row> {
    if jobs == [] then []
    else
      var j := jobs[0];
      [Row(c.id, c.name, c.filter, j.name, j.prowJob, if j.gating.None? then c.gating else j.gating.value)]
      + JobRows(c, jobs[1..])
  }

  function Rows(categories: seq<Category>): seq<Row> {
    if categories == [] then [] else JobRows(categories[0], categories[0].jobs) + Rows(categories[1..])
  }

  // ----- The parser as a loop -----

  method ParseConfig(lines: seq<Line>) returns (rows: seq<Row>, sippyUrl: string)
    ensures rows == Rows(FeedAll(START, lines).categories)
    ensures sippyUrl == FeedAll(START, lines).sippyUrl
  {
    var categories: seq<Category>, inJob := [], false;
    sippyUrl := "";
    for i := 0 to |lines|
      invariant Parser(sippyUrl, categories, inJob) == FeedAll(START, lines[..i])
    {
      assert lines[..i + 1][..i] == lines[..i];
      var line := lines[i];
      if line.SippyUrl? { sippyUrl := line.url; continue; }
      if line.CategoryId? {
        categories := categories + [Category(line.id, "", "", false, [])];
        inJob := false;
        continue;
      }
      if categories != [] {
        var last := |categories| - 1;
        var cat := categories[last];
        if line.Name? && !inJob { categories := categories[last := cat.(name := line.value)]; continue; }
        if line.ProwFilter? { categories := categories[last := cat.(filter := line.value)]; continue; }
        if line.Gating? {
          if inJob {
            var job := cat.jobs[|cat.jobs| - 1];
            categories := categories[last := WithJob(cat, job.(gating := Some(Flag(line.value))))];
          } else {
            categories := categories[last := cat.(gating := Flag(line.value))];
          }
          continue;
        }
        if line.JobName? {
          categories := categories[last := cat.(jobs := cat.jobs + [Job(line.value, "", None)])];
          inJob := true;
          continue;
        }
        if inJob && line.ProwJob? {
          var job := cat.jobs[|cat.jobs| - 1];
          categories := categories[last := WithJob(cat, job.(prowJob := line.value))];
        }
      }
    }
    assert lines[..|lines|] == lines;
    rows := EmitRows(categories);
  }

  method EmitRows(categories: seq<Category>) returns (rows: seq<Row>)
    ensures rows == Rows(categories)
  {
    hide JobRows;
    rows := [];
    for c := 0 to |categories|
      invariant Rows(categories) == rows + Rows(categories[c..])
    {
      assert categories[c..][1..] == categories[c + 1..];
      var more := EmitJobs(categories[c]);
      assert rows + (more + Rows(categories[c + 1..])) == rows + more + Rows(categories[c + 1..]);
      rows := rows + more;
    }
  }

  method EmitJobs(cat: Category) returns (rows: seq<Row>)
    ensures rows == JobRows(cat, cat.jobs)
  {
    hide JobRows;
    rows := [];
    for j := 0 to |cat.jobs|
      invariant JobRows(cat, cat.jobs) == rows + JobRows(cat, cat.jobs[j..])
    {
      var job := cat.jobs[j];
      var effective := if job.gating.None? then cat.gating else job.gating.value;
      var row := Row(cat.id, cat.name, cat.filter, job.name, job.prowJob, effective);
      JobRowsFrom(cat, j);
      assert rows + ([row] + JobRows(cat, cat.jobs[j + 1..])) == rows + [row] + JobRows(cat, cat.jobs[j + 1..]);
      rows := rows + [row];
    }
    NoJobRows(cat);
  }

  lemma JobRowsFrom(c: Category, j: nat)
    requires j < |c.jobs|
    ensures var job := c.jobs[j];
      JobRows(c, c.jobs[j..]) ==
      [Row(c.id, c.name, c.filter, job.name, job.prowJob, if job.gating.None? then c.gating else job.gating.value)]
      + JobRows(c, c.jobs[j + 1..])
  {
    assert c.jobs[j..][1..] == c.jobs[j + 1..];
  }

  lemma NoJobRows(c: Category)
    ensures JobRows(c, c.jobs[|c.jobs|..]) == []
  {
  }

  // ----- What a configuration says, block by block -----

  /** A job entry: its "- name:" line and the lines up to the next job or category. */
  datatype JobBlock = JobBlock(name: string, lines: seq<Line>)

  /** A category entry: its "- id:" line, the lines before its first job, and its jobs. */
  datatype Block = Block(id: string, header: seq<Line>, jobs: seq<JobBlock>)

  predicate Plain(lines: seq<Line>) {
    forall l :: l in lines ==> !l.CategoryId? && !l.JobName?
  }

  predicate WellFormed(b: Block) {
    Plain(b.header) && forall j :: j in b.jobs ==> Plain(j.lines)
  }

  function RenderJobs(jobs: seq<JobBlock>): seq<Line> {
    if jobs == [] then []
    else RenderJobs(jobs[..|jobs| - 1]) + [JobName(jobs[|jobs| - 1].name)] + jobs[|jobs| - 1].lines
  }

  function Render(b: Block): seq<Line> {
    [CategoryId(b.id)] + b.header + RenderJobs(b.jobs)
  }

  function RenderAll(blocks: seq<Block>): seq<Line> {
    if blocks == [] then [] else RenderAll(blocks[..|blocks| - 1]) + Render(blocks[|blocks| - 1])
  }

  function LastName(lines: seq<Line>, default: string): string {
    if lines == [] then default
    else if lines[|lines| - 1].Name? then lines[|lines| - 1].value
    else LastName(lines[..|lines| - 1], default)
  }

  function LastFilter(lines: seq<Line>, default: string): string {
    if lines == [] then default
    else if lines[|lines| - 1].ProwFilter? then lines[|lines| - 1].value
    else LastFilter(lines[..|lines| - 1], default)
  }

  function LastProwJob(lines: seq<Line>, default: string): string {
    if lines == [] then default
    else if lines[|lines| - 1].ProwJob? then lines[|lines| - 1].value
    else LastProwJob(lines[..|lines| - 1], default)
  }

  function LastGating(lines: seq<Line>): Option<bool> {
    if lines == [] then None
    else if lines[|lines| - 1].Gating? then Some(Flag(lines[|lines| - 1].value))
    else LastGating(lines[..|lines| - 1])
  }

  function LastUrl(lines: seq<Line>, default: string): string {
    if lines == [] then default
    else if lines[|lines| - 1].SippyUrl? then lines[|lines| - 1].url
    else LastUrl(lines[..|lines| - 1], default)
  }

  function GatingOr(own: Option<bool>, default: bool): bool {
    if own.Some? then own.value else default
  }

  function JobOf(j: JobBlock): Job {
    Job(j.name, LastProwJob(j.lines, ""), LastGating(j.lines))
  }

  function JobsOf(jobs: seq<JobBlock>): seq<Job> {
    seq(|jobs|, i requires 0 <= i < |jobs| => JobOf(jobs[i]))
  }

  function CategoryOf(b: Block): Category {
    Category(b.id, LastName(b.header, ""), LastFilter(b.header + RenderJobs(b.jobs), ""),
             GatingOr(LastGating(b.header), false), JobsOf(b.jobs))
  }

  function CategoriesOf(blocks: seq<Block>): seq<Category> {
    seq(|blocks|, i requires 0 <= i < |blocks| => CategoryOf(blocks[i]))
  }

  // ----- The parser reads back what the blocks say -----

  predicate NoCategory(lines: seq<Line>) {
    forall l :: l in lines ==> !l.CategoryId?
  }

  lemma {:induction false} FeedConcat(p: Parser, a: seq<Line>, b: seq<Line>)
    requires Sound(p)
    ensures FeedAll(p, a + b) == FeedAll(FeedAll(p, a), b)
  {
    if b == [] {
      assert a + b == a;
    } else {
      assert (a + b)[..|a + b| - 1] == a + b[..|b| - 1];
      FeedConcat(p, a, b[..|b| - 1]);
    }
  }

  lemma {:induction false} LastFilterConcat(a: seq<Line>, b: seq<Line>, default: string)
    ensures LastFilter(a + b, default) == LastFilter(b, LastFilter(a, default))
  {
    if b == [] {
      assert a + b == a;
    } else {
      assert (a + b)[..|a + b| - 1] == a + b[..|b| - 1];
      LastFilterConcat(a, b[..|b| - 1], default);
    }
  }

  lemma {:induction false} FeedPreamble(lines: seq<Line>)
    requires NoCategory(lines)
    ensures FeedAll(START, lines).categories == [] && !FeedAll(START, lines).inJob
  {
    if lines != [] {
      FeedPreamble(lines[..|lines| - 1]);
    }
  }

  function Last(p: Parser): Category
    requires p.categories != []
  {
    p.categories[|p.categories| - 1]
  }

  lemma {:induction false} FeedHeader(p: Parser, lines: seq<Line>)
    requires p.categories != [] && !p.inJob && Plain(lines)
    ensures var c := Last(p);
      FeedAll(p, lines) == WithCategory(p, c.(
        name := LastName(lines, c.name),
        filter := LastFilter(lines, c.filter),
        gating := GatingOr(LastGating(lines), c.gating))).(sippyUrl := LastUrl(lines, p.sippyUrl))
  {
    if lines != [] {
      FeedHeader(p, lines[..|lines| - 1]);
    }
  }

  /** q is p with its current job and the current category's filter replaced. */
  ghost predicate JobIs(p: Parser, q: Parser, j: Job, filter: string) {
    && p.categories != [] && Last(p).jobs != []
    && q.inJob
    && q.categories == p.categories[|p.categories| - 1 :=
         Last(p).(jobs := Last(p).jobs[|Last(p).jobs| - 1 := j], filter := filter)]
  }

  function JobFeed(j: Job, line: Line): Job {
    match line
    case Gating(v) => j.(gating := Some(Flag(v)))
    case ProwJob(v) => j.(prowJob := v)
    case _ => j
  }

  lemma JobStep(p: Parser, q: Parser, j: Job, filter: string, line: Line)
    requires Sound(q) && JobIs(p, q, j, filter) && !line.CategoryId? && !line.JobName?
    ensures JobIs(p, Feed(q, line), JobFeed(j, line), if line.ProwFilter? then line.value else filter)
  {
    hide Flag;
    var r := Feed(q, line);
    var j1, js := JobFeed(j, line), Last(p).jobs;
    var c := Last(p).(jobs := js[|js| - 1 := j1], filter := if line.ProwFilter? then line.value else filter);
    assert js[|js| - 1 := j][|js| - 1 := j1] == js[|js| - 1 := j1];
    assert Last(r) == c;
    assert r.categories == p.categories[|p.categories| - 1 := c];
  }

  lemma {:induction false} FeedJobLines(p: Parser, lines: seq<Line>)
    requires Sound(p) && p.inJob && Plain(lines)
    ensures var j := Last(p).jobs[|Last(p).jobs| - 1];
      JobIs(p, FeedAll(p, lines),
            j.(prowJob := LastProwJob(lines, j.prowJob),
               gating := if LastGating(lines).Some? then LastGating(lines) else j.gating),
            LastFilter(lines, Last(p).filter))
  {
    hide Feed, Flag;
    var j := Last(p).jobs[|Last(p).jobs| - 1];
    if lines == [] {
      assert Last(p).jobs[|Last(p).jobs| - 1 := j] == Last(p).jobs;
    } else {
      var front, line := lines[..|lines| - 1], lines[|lines| - 1];
      FeedJobLines(p, front);
      JobStep(p, FeedAll(p, front),
              j.(prowJob := LastProwJob(front, j.prowJob),
                 gating := if LastGating(front).Some? then LastGating(front) else j.gating),
              LastFilter(front, Last(p).filter), line);
    }
  }

  /** After the jobs of a category, its job list is the jobs' own, whatever stands between them. */
  ghost predicate HasJobs(p: Parser, q: Parser, jobs: seq<JobBlock>) {
    && p.categories != []
    && q.categories == p.categories[|p.categories| - 1 :=
         Last(p).(jobs := JobsOf(jobs), filter := LastFilter(RenderJobs(jobs), Last(p).filter))]
    && (q.inJob <==> jobs != [])
  }

  lemma {:induction false} FeedJobs(p: Parser, jobs: seq<JobBlock>)
    requires p.categories != [] && !p.inJob && Last(p).jobs == []
    requires forall j :: j in jobs ==> Plain(j.lines)
    ensures HasJobs(p, FeedAll(p, RenderJobs(jobs)), jobs)
  {
    hide LastFilter, LastProwJob, LastGating, FeedAll;
    if jobs == [] {
      FeedNone(p);
    } else {
      var front, j := jobs[..|jobs| - 1], jobs[|jobs| - 1];
      assert j in jobs;
      hide HasJobs;
      FeedJobs(p, front);
      FeedNextJob(p, front, j);
      assert jobs == front + [j];
    }
  }

  lemma FeedNextJob(p: Parser, front: seq<JobBlock>, j: JobBlock)
    requires p.categories != [] && !p.inJob && Plain(j.lines)
    requires HasJobs(p, FeedAll(p, RenderJobs(front)), front)
    ensures HasJobs(p, FeedAll(p, RenderJobs(front + [j])), front + [j])
  {
    hide LastFilter, FeedAll, Added, JobsOf, RenderJobs;
    var entry := [JobName(j.name)] + j.lines;
    RenderJobsSnoc(front, j);
    assert RenderJobs(front + [j]) == RenderJobs(front) + entry;
    FeedConcat(p, RenderJobs(front), entry);
    FeedJob(FeedAll(p, RenderJobs(front)), j);
    LastFilterConcat(RenderJobs(front), entry, Last(p).filter);
    AddJob(p, FeedAll(p, RenderJobs(front)), FeedAll(p, RenderJobs(front + [j])), front, j, front + [j]);
  }

  /** One more job at the end of the current category, whether or not it has jobs already. */
  ghost predicate Added(q: Parser, r: Parser, j: JobBlock) {
    && q.categories != [] && r.inJob
    && r.categories == q.categories[|q.categories| - 1 :=
         Last(q).(jobs := Last(q).jobs + [JobOf(j)],
                  filter := LastFilter([JobName(j.name)] + j.lines, Last(q).filter))]
  }

  lemma FeedJob(q: Parser, j: JobBlock)
    requires Sound(q) && q.categories != [] && Plain(j.lines)
    ensures Added(q, FeedAll(q, [JobName(j.name)] + j.lines), j)
  {
    hide FeedAll, LastFilter, LastProwJob, LastGating;
    FeedConcat(q, [JobName(j.name)], j.lines);
    FeedOne(q, JobName(j.name));
    var q1 := Feed(q, JobName(j.name));
    FeedJobLines(q1, j.lines);
    LastFilterConcat([JobName(j.name)], j.lines, Last(q).filter);
    FilterOfOne(JobName(j.name), Last(q).filter);
    AddedStep(q, q1, FeedAll(q1, j.lines), j, LastFilter(j.lines, Last(q).filter));
  }

  lemma AddedStep(q: Parser, q1: Parser, r: Parser, j: JobBlock, filter: string)
    requires Sound(q) && q.categories != [] && q1 == Feed(q, JobName(j.name))
    requires JobIs(q1, r, JobOf(j), filter)
    requires filter == LastFilter([JobName(j.name)] + j.lines, Last(q).filter)
    ensures Added(q, r, j)
  {
    hide LastFilter, JobOf;
    var js := Last(q).jobs;
    assert Last(q1).jobs == js + [Job(j.name, "", None)];
    assert Last(q1).jobs[|js| := JobOf(j)] == js + [JobOf(j)];
    assert Last(r) == Last(q).(jobs := js + [JobOf(j)], filter := filter);
  }

  lemma FilterOfOne(line: Line, default: string)
    requires !line.ProwFilter?
    ensures LastFilter([line], default) == default
  {
    assert [line][..0] == [];
  }

  lemma FeedNone(p: Parser)
    requires p.categories != [] && !p.inJob && Last(p).jobs == []
    ensures HasJobs(p, FeedAll(p, RenderJobs([])), [])
  {
    var c := Last(p).(jobs := JobsOf([]), filter := LastFilter([], Last(p).filter));
    assert c == Last(p);
    assert p.categories[|p.categories| - 1 := c] == p.categories;
  }

  lemma AddJob(p: Parser, q: Parser, r: Parser, front: seq<JobBlock>, j: JobBlock, jobs: seq<JobBlock>)
    requires HasJobs(p, q, front) && Added(q, r, j) && jobs == front + [j]
    requires LastFilter(RenderJobs(jobs), Last(p).filter)
             == LastFilter([JobName(j.name)] + j.lines, LastFilter(RenderJobs(front), Last(p).filter))
    ensures HasJobs(p, r, jobs)
  {
    assert JobsOf(jobs) == JobsOf(front) + [JobOf(j)];
  }

  lemma FeedOne(p: Parser, line: Line)
    requires Sound(p)
    ensures FeedAll(p, [line]) == Feed(p, line)
  {
    assert [line][..0] == [];
  }

  lemma FeedBlock(p: Parser, b: Block)
    requires Sound(p) && WellFormed(b)
    ensures FeedAll(p, Render(b)).categories == p.categories + [CategoryOf(b)]
  {
    hide FeedAll, LastFilter, LastName, LastGating, LastUrl, RenderJobs, JobsOf;
    var start := [CategoryId(b.id)];
    var p1 := Feed(p, CategoryId(b.id));
    FeedOne(p, CategoryId(b.id));
    FeedConcat(p, start, b.header);
    FeedHeader(p1, b.header);
    FeedConcat(p, start + b.header, RenderJobs(b.jobs));
    FeedJobs(FeedAll(p1, b.header), b.jobs);
    LastFilterConcat(b.header, RenderJobs(b.jobs), "");
  }

  lemma FeedNothing(p: Parser)
    requires Sound(p)
    ensures FeedAll(p, []) == p
  {
  }

  lemma {:induction false} FeedBlocks(p: Parser, blocks: seq<Block>)
    requires Sound(p) && forall b :: b in blocks ==> WellFormed(b)
    ensures FeedAll(p, RenderAll(blocks)).categories == p.categories + CategoriesOf(blocks)
  {
    hide FeedAll, Render, CategoryOf, WellFormed;
    if blocks == [] {
      FeedNothing(p);
    } else {
      var front, b := blocks[..|blocks| - 1], blocks[|blocks| - 1];
      assert b in blocks;
      FeedBlocks(p, front);
      FeedConcat(p, RenderAll(front), Render(b));
      FeedBlock(FeedAll(p, RenderAll(front)), b);
      assert CategoriesOf(blocks) == CategoriesOf(front) + [CategoryOf(b)];
    }
  }

  /**
   For every configuration, given as a preamble and category blocks with anything plain in between
   (comments, labels, team blocks), the parser finds the categories and jobs of the blocks, in order,
   each with what its own lines say: nothing leaks between jobs or categories.
   */
  lemma ParseRendered(pre: seq<Line>, blocks: seq<Block>)
    requires NoCategory(pre) && forall b :: b in blocks ==> WellFormed(b)
    ensures FeedAll(START, pre + RenderAll(blocks)).categories == CategoriesOf(blocks)
  {
    FeedPreamble(pre);
    FeedConcat(START, pre, RenderAll(blocks));
    FeedBlocks(FeedAll(START, pre), blocks);
  }

  /** The rows a block stands for: one per job, its gating its own if set and else its category's. */
  function BlockRows(b: Block): seq<Row> {
    seq(|b.jobs|, i requires 0 <= i < |b.jobs| =>
      Row(b.id, LastName(b.header, ""), LastFilter(b.header + RenderJobs(b.jobs), ""),
          b.jobs[i].name, LastProwJob(b.jobs[i].lines, ""),
          GatingOr(LastGating(b.jobs[i].lines), GatingOr(LastGating(b.header), false))))
  }

  function AllRows(blocks: seq<Block>): seq<Row> {
    if blocks == [] then [] else BlockRows(blocks[0]) + AllRows(blocks[1..])
  }

  lemma {:induction false} JobRowsAt(c: Category, jobs: seq<Job>)
    ensures |JobRows(c, jobs)| == |jobs|
    ensures forall i :: 0 <= i < |jobs| ==>
      JobRows(c, jobs)[i]
      == Row(c.id, c.name, c.filter, jobs[i].name, jobs[i].prowJob, GatingOr(jobs[i].gating, c.gating))
  {
    if jobs != [] {
      JobRowsAt(c, jobs[1..]);
    }
  }

  lemma {:induction false} RowsOfBlocks(blocks: seq<Block>)
    ensures Rows(CategoriesOf(blocks)) == AllRows(blocks)
  {
    if blocks != [] {
      var c := CategoryOf(blocks[0]);
      assert CategoriesOf(blocks)[1..] == CategoriesOf(blocks[1..]);
      RowsOfBlocks(blocks[1..]);
      JobRowsAt(c, c.jobs);
      assert JobRows(c, c.jobs) == BlockRows(blocks[0]);
    }
  }

  /**
   For every configuration the parser prints exactly one row per job, in order, and each row depends
   on the lines of its own job and category only.
   */
  lemma ConfigRows(pre: seq<Line>, blocks: seq<Block>)
    requires NoCategory(pre) && forall b :: b in blocks ==> WellFormed(b)
    ensures Rows(FeedAll(START, pre + RenderAll(blocks)).categories) == AllRows(blocks)
  {
    ParseRendered(pre, blocks);
    RowsOfBlocks(blocks);
  }

  lemma {:induction false} UrlRead(p: Parser, lines: seq<Line>)
    requires Sound(p)
    ensures FeedAll(p, lines).sippyUrl == LastUrl(lines, p.sippyUrl)
  {
    if lines != [] {
      UrlRead(p, lines[..|lines| - 1]);
    }
  }

  /** And every line sequence is such a configuration. */
  lemma {:induction false} EveryConfigHasBlocks(lines: seq<Line>) returns (pre: seq<Line>, blocks: seq<Block>)
    ensures lines == pre + RenderAll(blocks)
    ensures NoCategory(pre) && forall b :: b in blocks ==> WellFormed(b)
  {
    if lines == [] {
      pre, blocks := [], [];
    } else {
      var front, line := lines[..|lines| - 1], lines[|lines| - 1];
      var blocks0;
      pre, blocks0 := EveryConfigHasBlocks(front);
      assert lines == pre + RenderAll(blocks0) + [line];
      if line.CategoryId? {
        blocks := blocks0 + [Block(line.id, [], [])];
      } else if blocks0 == [] {
        pre, blocks := pre + [line], [];
      } else {
        var init, b := blocks0[..|blocks0| - 1], blocks0[|blocks0| - 1];
        assert b in blocks0;
        var b' := AppendTo(b, line);
        RenderAppend(b, line);
        blocks := init + [b'];
        assert blocks0 == init + [b];
      }
    }
  }

  function AppendTo(b: Block, line: Line): Block {
    if line.JobName? then b.(jobs := b.jobs + [JobBlock(line.value, [])])
    else if b.jobs == [] then b.(header := b.header + [line])
    else
      var last := |b.jobs| - 1;
      b.(jobs := b.jobs[..last] + [b.jobs[last].(lines := b.jobs[last].lines + [line])])
  }

  lemma RenderJobsSnoc(jobs: seq<JobBlock>, j: JobBlock)
    ensures RenderJobs(jobs + [j]) == RenderJobs(jobs) + [JobName(j.name)] + j.lines
  {
    assert (jobs + [j])[..|jobs|] == jobs;
  }

  lemma RenderAppend(b: Block, line: Line)
    requires WellFormed(b) && !line.CategoryId?
    ensures WellFormed(AppendTo(b, line)) && Render(AppendTo(b, line)) == Render(b) + [line]
  {
    hide RenderJobs;
    if line.JobName? {
      RenderJobsSnoc(b.jobs, JobBlock(line.value, []));
    } else if b.jobs == [] {
      assert RenderJobs([]) == [] by { NoJobs(); }
      assert Render(AppendTo(b, line)) == [CategoryId(b.id)] + b.header + [line];
    } else {
      var j := b.jobs[|b.jobs| - 1];
      assert j in b.jobs;
      RenderJobsAppend(b.jobs, line);
    }
  }

  lemma NoJobs()
    ensures RenderJobs([]) == []
  {
  }

  lemma RenderJobsAppend(jobs: seq<JobBlock>, line: Line)
    requires jobs != []
    ensures var last := |jobs| - 1;
      RenderJobs(jobs[..last] + [jobs[last].(lines := jobs[last].lines + [line])]) == RenderJobs(jobs) + [line]
  {
    var front, j := jobs[..|jobs| - 1], jobs[|jobs| - 1];
    RenderJobsSnoc(front, j.(lines := j.lines + [line]));
  }

  // ----- The display name -----

  predicate NoName(lines: seq<Line>) {
    forall l :: l in lines ==> !l.Name?
  }

  lemma {:induction false} LastNameAfter(a: seq<Line>, name: string, b: seq<Line>, default: string)
    requires NoName(b)
    ensures LastName(a + [Name(name)] + b, default) == name
  {
    if b == [] {
      assert a + [Name(name)] + b == a + [Name(name)];
    } else {
      var all := a + [Name(name)] + b;
      assert all[..|all| - 1] == a + [Name(name)] + b[..|b| - 1] && all[|all| - 1] == b[|b| - 1];
      LastNameAfter(a, name, b[..|b| - 1], default);
    }
  }

  /** What the parser makes of the n-th category of a configuration. */
  function Parsed(pre: seq<Line>, blocks: seq<Block>, n: nat): Category
    requires n < |FeedAll(START, pre + RenderAll(blocks)).categories|
  {
    FeedAll(START, pre + RenderAll(blocks)).categories[n]
  }

  ghost predicate IsConfig(pre: seq<Line>, blocks: seq<Block>) {
    NoCategory(pre) && forall b :: b in blocks ==> WellFormed(b)
  }

  lemma ParsedIs(pre: seq<Line>, blocks: seq<Block>, n: nat)
    requires IsConfig(pre, blocks) && n < |blocks|
    ensures n < |FeedAll(START, pre + RenderAll(blocks)).categories|
    ensures Parsed(pre, blocks, n) == CategoryOf(blocks[n])
  {
    ParseRendered(pre, blocks);
  }

  /**
   In every configuration, a category whose own name is followed by a team block with a name is parsed
   with its own name only if the two agree: a bare "name:" line of the team is taken for the category's.
   */
  lemma TeamNameWins(pre: seq<Line>, blocks: seq<Block>, n: nat,
                     own: string, team: string, a: seq<Line>, b: seq<Line>, c: seq<Line>)
    requires IsConfig(pre, blocks) && n < |blocks|
    requires blocks[n].header == a + [Name(own)] + b + [Name(team)] + c && NoName(c)
    ensures n < |FeedAll(START, pre + RenderAll(blocks)).categories|
    ensures Parsed(pre, blocks, n).name == own <==> team == own
  {
    ParsedIs(pre, blocks, n);
    LastNameAfter(a + [Name(own)] + b, team, c, "");
  }

  // ----- Gating -----

  /** The gating printed for the i-th job of a category. */
  function PrintedGating(c: Category, i: nat): bool
    requires i < |c.jobs|
  {
    JobRowsAt(c, c.jobs);
    JobRows(c, c.jobs)[i].gating
  }

  /**
   The rule in the comment above the parser, "the job's category gates or the job sets gating: true",
   holds of the printed gating of a job exactly unless the job opts out of a gating category.
   */
  lemma GatingVersusComment(pre: seq<Line>, blocks: seq<Block>, n: nat, i: nat)
    requires IsConfig(pre, blocks) && n < |blocks| && i < |blocks[n].jobs|
    ensures n < |FeedAll(START, pre + RenderAll(blocks)).categories|
    ensures i < |Parsed(pre, blocks, n).jobs|
    ensures var own := LastGating(blocks[n].jobs[i].lines);
      var category := GatingOr(LastGating(blocks[n].header), false);
      PrintedGating(Parsed(pre, blocks, n), i) == (category || own == Some(true)) <==>
      !(category && own == Some(false))
  {
    ParsedIs(pre, blocks, n);
    JobRowsAt(CategoryOf(blocks[n]), CategoryOf(blocks[n]).jobs);
  }

  /** A configuration with such a job: its category gates and it does not. */
  lemma OptOutExample()
    ensures var lines := [CategoryId("c"), Gating("true"), JobName("j"), Gating("false")];
      Rows(FeedAll(START, lines).categories) == [Row("c", "", "", "j", "", false)]
  {
    var blocks := [Block("c", [Gating("true")], [JobBlock("j", [Gating("false")])])];
    var lines := [CategoryId("c"), Gating("true"), JobName("j"), Gating("false")];
    var j := blocks[0].jobs[0];
    assert RenderJobs(blocks[0].jobs) == [JobName("j"), Gating("false")] by {
      RenderJobsSnoc([], j);
      NoJobs();
      assert [] + [j] == blocks[0].jobs;
    }
    assert [] + blocks == blocks;
    assert [] + RenderAll(blocks) == lines;
    assert Lower("false") == "false" && Lower("true") == "true";
    GatingAfter([], "true", []);
    GatingAfter([], "false", []);
    assert [Gating("true")] == [] + [Gating("true")] + [] && [Gating("false")] == [] + [Gating("false")] + [];
    ConfigRows([], blocks);
    assert LastName([Gating("true")], "") == "" by { assert [Gating("true")][..0] == []; }
    assert LastProwJob([Gating("false")], "") == "" by { assert [Gating("false")][..0] == []; }
    NoFilter([Gating("true"), JobName("j"), Gating("false")]);
    assert [Gating("true")] + [JobName("j"), Gating("false")] == [Gating("true"), JobName("j"), Gating("false")];
    assert AllRows(blocks) == BlockRows(blocks[0]) by { assert blocks[1..] == []; }
  }

  lemma {:induction false} NoFilter(lines: seq<Line>)
    requires forall l :: l in lines ==> !l.ProwFilter?
    ensures LastFilter(lines, "") == ""
  {
    if lines != [] {
      NoFilter(lines[..|lines| - 1]);
    }
  }

  predicate NoGating(lines: seq<Line>) {
    forall l :: l in lines ==> !l.Gating?
  }

  lemma {:induction false} GatingAfter(a: seq<Line>, value: string, b: seq<Line>)
    requires NoGating(b)
    ensures LastGating(a + [Gating(value)] + b) == Some(Flag(value))
  {
    if b == [] {
      assert a + [Gating(value)] + b == a + [Gating(value)];
    } else {
      var all := a + [Gating(value)] + b;
      assert all[..|all| - 1] == a + [Gating(value)] + b[..|b| - 1] && all[|all| - 1] == b[|b| - 1];
      GatingAfter(a, value, b[..|b| - 1]);
    }
  }

  /** So a job whose gating line has anything after the word is printed as not gating, in any category. */
  lemma CommentUngates(pre: seq<Line>, blocks: seq<Block>, n: nat, i: nat,
                       word: string, rest: string, a: seq<Line>, b: seq<Line>)
    requires IsConfig(pre, blocks) && n < |blocks| && i < |blocks[n].jobs|
    requires blocks[n].jobs[i].lines == a + [Gating(word + rest)] + b && NoGating(b) && Flag(word)
    ensures n < |FeedAll(START, pre + RenderAll(blocks)).categories|
    ensures i < |Parsed(pre, blocks, n).jobs|
    ensures PrintedGating(Parsed(pre, blocks, n), i) <==> rest == ""
  {
    ParsedIs(pre, blocks, n);
    JobRowsAt(CategoryOf(blocks[n]), CategoryOf(blocks[n]).jobs);
    GatingAfter(a, word + rest, b);
    FlagNeedsBareWord(word, rest);
  }
}
