/**
 Gauge payloads: rows are turned into metrics with one data point per row, in byte-capped
 batches of rows. No point is lost, added or changed on the way.
 */
module Gauge {
  import opened Common
  import opened BatchSplitting
  import opened Wire

  datatype Number = IntValue(n: int) | RealValue(x: real)

  /** One column of a view: its metric name and its value, which is None for a NULL ratio. */
  datatype Column<!R> = Column(name: string, value: R -> Option<Number>)

  datatype DataPoint = DataPoint(tags: seq<Attr>, value: Number)

  datatype Metric = Metric(name: string, points: seq<DataPoint>)

  /** A data point together with the metric it belongs to. */
  datatype Sample = Sample(metric: string, point: DataPoint)

  // ---------------------------------------------------------------- the payload of one batch

  function PointOf<R>(c: Column<R>, tags: R -> seq<Attr>, r: R): seq<DataPoint> {
    match c.value(r)
    case None => []
    case Some(v) => [DataPoint(tags(r), v)]
  }

  function Points<R>(c: Column<R>, tags: R -> seq<Attr>, rows: seq<R>): seq<DataPoint> {
    if rows == [] then [] else Points(c, tags, rows[..|rows| - 1]) + PointOf(c, tags, rows[|rows| - 1])
  }

  function MetricOf<R>(c: Column<R>, tags: R -> seq<Attr>, rows: seq<R>): seq<Metric> {
    if Points(c, tags, rows) == [] then [] else [Metric(c.name, Points(c, tags, rows))]
  }

  function Payload<R>(columns: seq<Column<R>>, tags: R -> seq<Attr>, rows: seq<R>): seq<Metric> {
    if columns == [] then []
    else Payload(columns[..|columns| - 1], tags, rows) + MetricOf(columns[|columns| - 1], tags, rows)
  }

  /** The nested loops of the payload builders. */
  method BuildPayload<R>(columns: seq<Column<R>>, tags: R -> seq<Attr>, rows: seq<R>) returns (metrics: seq<Metric>)
    ensures metrics == Payload(columns, tags, rows)
    ensures forall i :: 0 <= i < |metrics| ==> metrics[i].points != []
  {
    metrics := [];
    for i := 0 to |columns|
      invariant metrics == Payload(columns[..i], tags, rows)
      invariant forall j :: 0 <= j < |metrics| ==> metrics[j].points != []
    {
      PayloadNext(columns, tags, rows, i);
      var points := BuildPoints(columns[i], tags, rows);
      if points == [] {
        assert metrics + [] == metrics;
        continue;
      }
      metrics := metrics + [Metric(columns[i].name, points)];
    }
    assert columns[..|columns|] == columns;
  }

  lemma {:induction false} PayloadNext<R>(columns: seq<Column<R>>, tags: R -> seq<Attr>, rows: seq<R>, i: nat)
    requires i < |columns|
    ensures Payload(columns[..i + 1], tags, rows) == Payload(columns[..i], tags, rows) + MetricOf(columns[i], tags, rows)
  {
    assert columns[..i + 1][..i] == columns[..i];
  }

  /** The inner loop: a row whose value is NULL gets no point. */
  method BuildPoints<R>(c: Column<R>, tags: R -> seq<Attr>, rows: seq<R>) returns (points: seq<DataPoint>)
    ensures points == Points(c, tags, rows)
  {
    points := [];
    for j := 0 to |rows|
      invariant points == Points(c, tags, rows[..j])
    {
      assert rows[..j + 1][..j] == rows[..j];
      var v := c.value(rows[j]);
      if v.None? {
        assert points + [] == points;
        continue;
      }
      points := points + [DataPoint(tags(rows[j]), v.value)];
    }
    assert rows[..|rows|] == rows;
  }

  // ---------------------------------------------------------------- what the payload looks like

  /** A metric's points are those of the rows with a value, in row order, each with its row's tags. */
  lemma {:induction false} PointsExactly<R>(c: Column<R>, tags: R -> seq<Attr>, rows: seq<R>)
    ensures var kept, points := Filter((r: R) => c.value(r).Some?, rows), Points(c, tags, rows);
            && |points| == |kept|
            && forall i :: 0 <= i < |points| ==> points[i].tags == tags(kept[i]) && c.value(kept[i]) == Some(points[i].value)
  {
    if rows != [] {
      PointsExactly(c, tags, rows[..|rows| - 1]);
    }
  }

  /** One metric for every column that has points, in column order. */
  lemma {:induction false} PayloadExactly<R>(columns: seq<Column<R>>, tags: R -> seq<Attr>, rows: seq<R>)
    ensures var kept, metrics := Filter((c: Column<R>) => Points(c, tags, rows) != [], columns), Payload(columns, tags, rows);
            && |metrics| == |kept|
            && forall i :: 0 <= i < |metrics| ==> metrics[i].name == kept[i].name && metrics[i].points == Points(kept[i], tags, rows)
  {
    if columns != [] {
      PayloadExactly(columns[..|columns| - 1], tags, rows);
    }
  }

  // ---------------------------------------------------------------- conservation of samples

  function SamplesOfMetric(name: string, points: seq<DataPoint>): multiset<Sample> {
    if points == [] then multiset{}
    else SamplesOfMetric(name, points[..|points| - 1]) + multiset{Sample(name, points[|points| - 1])}
  }

  /** Everything a payload carries. */
  function Samples(metrics: seq<Metric>): multiset<Sample> {
    if metrics == [] then multiset{}
    else
      var last := metrics[|metrics| - 1];
      Samples(metrics[..|metrics| - 1]) + SamplesOfMetric(last.name, last.points)
  }

  /** What one row should contribute: a sample for every column whose value is present. */
  function RowSamples<R>(columns: seq<Column<R>>, tags: R -> seq<Attr>, r: R): multiset<Sample> {
    if columns == [] then multiset{}
    else
      var c := columns[|columns| - 1];
      RowSamples(columns[..|columns| - 1], tags, r)
      + (match c.value(r) case None => multiset{} case Some(v) => multiset{Sample(c.name, DataPoint(tags(r), v))})
  }

  /** What a list of rows should contribute, row by row. */
  function AllSamples<R>(columns: seq<Column<R>>, tags: R -> seq<Attr>, rows: seq<R>): multiset<Sample> {
    if rows == [] then multiset{}
    else AllSamples(columns, tags, rows[..|rows| - 1]) + RowSamples(columns, tags, rows[|rows| - 1])
  }

  lemma {:induction false} SamplesOfMetricAppend(name: string, a: seq<DataPoint>, b: seq<DataPoint>)
    ensures SamplesOfMetric(name, a + b) == SamplesOfMetric(name, a) + SamplesOfMetric(name, b)
  {
    if b == [] {
      assert a + b == a;
    } else {
      assert (a + b)[..|a + b| - 1] == a + b[..|b| - 1];
      SamplesOfMetricAppend(name, a, b[..|b| - 1]);
    }
  }

  lemma SamplesSnoc(metrics: seq<Metric>, more: seq<Metric>, name: string, points: seq<DataPoint>)
    requires more == if points == [] then [] else [Metric(name, points)]
    ensures Samples(metrics + more) == Samples(metrics) + SamplesOfMetric(name, points)
  {
    if points == [] {
      assert metrics + more == metrics;
    } else {
      assert (metrics + more)[..|metrics|] == metrics;
    }
  }

  lemma {:induction false} EmptyPayload<R>(columns: seq<Column<R>>, tags: R -> seq<Attr>)
    ensures Samples(Payload(columns, tags, [])) == multiset{}
  {
    if columns != [] {
      EmptyPayload(columns[..|columns| - 1], tags);
      assert Payload(columns, tags, []) == Payload(columns[..|columns| - 1], tags, []);
    }
  }

  /** Adding a row to the payload adds exactly that row's samples, spread over the metrics. */
  lemma {:induction false} PayloadNextRow<R>(columns: seq<Column<R>>, tags: R -> seq<Attr>, rows: seq<R>, r: R)
    ensures Samples(Payload(columns, tags, rows + [r])) == Samples(Payload(columns, tags, rows)) + RowSamples(columns, tags, r)
  {
    if columns != [] {
      var front, c := columns[..|columns| - 1], columns[|columns| - 1];
      PayloadNextRow(front, tags, rows, r);
      assert (rows + [r])[..|rows|] == rows;
      var before, after := Points(c, tags, rows), Points(c, tags, rows + [r]);
      assert after == before + PointOf(c, tags, r);
      SamplesOfMetricAppend(c.name, before, PointOf(c, tags, r));
      OnePoint(c, tags, r);
      SamplesSnoc(Payload(front, tags, rows), MetricOf(c, tags, rows), c.name, before);
      SamplesSnoc(Payload(front, tags, rows + [r]), MetricOf(c, tags, rows + [r]), c.name, after);
    }
  }

  lemma OnePoint<R>(c: Column<R>, tags: R -> seq<Attr>, r: R)
    ensures SamplesOfMetric(c.name, PointOf(c, tags, r)) ==
            match c.value(r) case None => multiset{} case Some(v) => multiset{Sample(c.name, DataPoint(tags(r), v))}
  {
    if c.value(r).Some? {
      var p := DataPoint(tags(r), c.value(r).value);
      assert [p][..0] == [];
      assert SamplesOfMetric(c.name, []) == multiset{};
      assert SamplesOfMetric(c.name, [p]) == multiset{} + multiset{Sample(c.name, p)};
    }
  }

  /** Transposition: the metric-major payload carries exactly the samples of its rows. */
  lemma {:induction false} PayloadIsComplete<R>(columns: seq<Column<R>>, tags: R -> seq<Attr>, rows: seq<R>)
    ensures Samples(Payload(columns, tags, rows)) == AllSamples(columns, tags, rows)
  {
    if rows == [] {
      EmptyPayload(columns, tags);
    } else {
      var front, last := rows[..|rows| - 1], rows[|rows| - 1];
      PayloadIsComplete(columns, tags, front);
      PayloadNextRow(columns, tags, front, last);
      assert rows == front + [last];
    }
  }

  lemma {:induction false} AllSamplesAppend<R>(columns: seq<Column<R>>, tags: R -> seq<Attr>, a: seq<R>, b: seq<R>)
    ensures AllSamples(columns, tags, a + b) == AllSamples(columns, tags, a) + AllSamples(columns, tags, b)
  {
    if b == [] {
      assert a + b == a;
    } else {
      assert (a + b)[..|a + b| - 1] == a + b[..|b| - 1];
      AllSamplesAppend(columns, tags, a, b[..|b| - 1]);
    }
  }

  /** The samples of all batches together. */
  function BatchSamples<R>(columns: seq<Column<R>>, tags: R -> seq<Attr>, batches: seq<seq<R>>): multiset<Sample> {
    if batches == [] then multiset{}
    else Samples(Payload(columns, tags, batches[0])) + BatchSamples(columns, tags, batches[1..])
  }

  /** Splitting rows into batches changes nothing about what is sent in all. */
  lemma {:induction false} SplittingKeepsSamples<R>(columns: seq<Column<R>>, tags: R -> seq<Attr>, batches: seq<seq<R>>)
    ensures BatchSamples(columns, tags, batches) == Samples(Payload(columns, tags, Concat(batches)))
    ensures BatchSamples(columns, tags, batches) == AllSamples(columns, tags, Concat(batches))
  {
    if batches == [] {
      EmptyPayload(columns, tags);
    } else {
      SplittingKeepsSamples(columns, tags, batches[1..]);
      PayloadIsComplete(columns, tags, batches[0]);
      PayloadIsComplete(columns, tags, Concat(batches));
      AllSamplesAppend(columns, tags, batches[0], Concat(batches[1..]));
    }
  }

  /** The batches of splitGaugeBatches, whatever the size of a payload, carry the samples of all rows. */
  lemma GaugeBatchesAreComplete<R>(columns: seq<Column<R>>, tags: R -> seq<Attr>, rows: seq<R>, size: seq<R> -> nat, cap: int)
    ensures BatchSamples(columns, tags, GreedySplit(rows, size, cap)) == AllSamples(columns, tags, rows)
  {
    GreedyIsMaximalSplit(rows, size, cap);
    SplittingKeepsSamples(columns, tags, GreedySplit(rows, size, cap));
  }

  // ---------------------------------------------------------------- payload size

  /** Bytes of one metric: a header, the points, and the commas between them; nothing when it is empty. */
  function MetricSize(header: nat, width: DataPoint -> nat, points: seq<DataPoint>): nat {
    if points == [] then 0 else header + Total(width, points) + |points| - 1
  }

  /** Bytes of the metrics array, counting one separator for every metric but the first. */
  function MetricsSize<R>(columns: seq<Column<R>>, tags: R -> seq<Attr>, header: string -> nat, width: DataPoint -> nat,
                          rows: seq<R>): (nat, nat)
  {
    if columns == [] then (0, 0)
    else
      var front := MetricsSize(columns[..|columns| - 1], tags, header, width, rows);
      var c := columns[|columns| - 1];
      var points := Points(c, tags, rows);
      (front.0 + MetricSize(header(c.name), width, points), front.1 + (if points == [] then 0 else 1))
  }

  function BodySize<R>(base: nat, columns: seq<Column<R>>, tags: R -> seq<Attr>, header: string -> nat,
                       width: DataPoint -> nat, rows: seq<R>): nat
  {
    var (bytes, count) := MetricsSize(columns, tags, header, width, rows);
    base + bytes + (if count == 0 then 0 else count - 1)
  }

  lemma {:induction false} PointsAppend<R>(c: Column<R>, tags: R -> seq<Attr>, a: seq<R>, b: seq<R>)
    ensures Points(c, tags, a + b) == Points(c, tags, a) + Points(c, tags, b)
  {
    if b == [] {
      assert a + b == a;
    } else {
      assert (a + b)[..|a + b| - 1] == a + b[..|b| - 1];
      PointsAppend(c, tags, a, b[..|b| - 1]);
    }
  }

  lemma {:induction false} MetricsSizeGrows<R>(columns: seq<Column<R>>, tags: R -> seq<Attr>, header: string -> nat,
                                               width: DataPoint -> nat, a: seq<R>, b: seq<R>, c: seq<R>)
    ensures MetricsSize(columns, tags, header, width, b).0 <= MetricsSize(columns, tags, header, width, a + b + c).0
    ensures MetricsSize(columns, tags, header, width, b).1 <= MetricsSize(columns, tags, header, width, a + b + c).1
  {
    if columns != [] {
      var column := columns[|columns| - 1];
      MetricsSizeGrows(columns[..|columns| - 1], tags, header, width, a, b, c);
      PointsAppend(column, tags, a + b, c);
      PointsAppend(column, tags, a, b);
      var pa, pb, pc := Points(column, tags, a), Points(column, tags, b), Points(column, tags, c);
      TotalAppend(width, pa + pb, pc);
      TotalAppend(width, pa, pb);
    }
  }

  /** The size of a gauge payload is monotone in its rows, so the greedy batches are the fewest possible. */
  lemma GaugeBatchesAreFewest<R(!new)>(base: nat, columns: seq<Column<R>>, tags: R -> seq<Attr>, header: string -> nat,
                                       width: DataPoint -> nat, rows: seq<R>, other: seq<seq<R>>, cap: int)
    requires IsSplit(rows, other, (s: seq<R>) => BodySize(base, columns, tags, header, width, s), cap)
    ensures |GreedySplit(rows, (s: seq<R>) => BodySize(base, columns, tags, header, width, s), cap)| <= |other|
  {
    var size := (s: seq<R>) => BodySize(base, columns, tags, header, width, s);
    forall a: seq<R>, b: seq<R>, c: seq<R>
      ensures size(b) <= size(a + b + c)
    {
      MetricsSizeGrows(columns, tags, header, width, a, b, c);
    }
    GreedyIsOptimal(rows, other, size, cap);
  }

  // ---------------------------------------------------------------- the two views

  /** A row of the pull request view; the ratios are NULL when there is nothing to divide by. */
  datatype PRRow = PRRow(
    url: string, agent: string, user: string, taskType: string, model: string,
    sessionCount: int, toolUseTotal: int, midSessionMsgs: int, askUserQuestion: int, inputTokens: int, outputTokens: int,
    cacheWriteTokens: int, cacheReadTokens: int, reasoningTokens: int, totalTokens: int, freshTokens: int,
    reviewComments: int, changesRequested: int,
    tokensPerSession: Option<real>, tokensPerToolUse: Option<real>, perMillionTokens: Option<real>)

  datatype WeeklyRow = WeeklyRow(
    weekStart: string, agent: string, sessionCount: int, totalTokens: int, askUserQuestion: int,
    tokensPerSession: real, askUserQuestionPerSession: real)

  function Ratio(x: Option<real>): Option<Number> {
    match x
    case None => None
    case Some(v) => Some(RealValue(v))
  }

  function CountColumn<R>(name: string, count: R -> int): Column<R> {
    Column(name, (r: R) => Some(IntValue(count(r))))
  }

  function RatioColumn<R>(name: string, ratio: R -> Option<real>): Column<R> {
    Column(name, (r: R) => Ratio(ratio(r)))
  }

  /** The catalogue of the pull request view, counts first. */
  function PRColumns(): seq<Column<PRRow>> {
    PRCountColumns() + PRRatioColumns()
  }

  function PRCountColumns(): seq<Column<PRRow>> {
    [CountColumn("agent_pr_session_count", (r: PRRow) => r.sessionCount),
     CountColumn("agent_pr_tool_use_total", (r: PRRow) => r.toolUseTotal),
     CountColumn("agent_pr_mid_session_msgs_total", (r: PRRow) => r.midSessionMsgs),
     CountColumn("agent_pr_ask_user_question_total", (r: PRRow) => r.askUserQuestion),
     CountColumn("agent_pr_input_tokens_total", (r: PRRow) => r.inputTokens),
     CountColumn("agent_pr_output_tokens_total", (r: PRRow) => r.outputTokens),
     CountColumn("agent_pr_cache_write_tokens_total", (r: PRRow) => r.cacheWriteTokens),
     CountColumn("agent_pr_cache_read_tokens_total", (r: PRRow) => r.cacheReadTokens),
     CountColumn("agent_pr_reasoning_tokens_total", (r: PRRow) => r.reasoningTokens),
     CountColumn("agent_pr_total_tokens", (r: PRRow) => r.totalTokens),
     CountColumn("agent_pr_fresh_tokens", (r: PRRow) => r.freshTokens),
     CountColumn("agent_pr_review_comments", (r: PRRow) => r.reviewComments),
     CountColumn("agent_pr_changes_requested", (r: PRRow) => r.changesRequested)]
  }

  function PRRatioColumns(): seq<Column<PRRow>> {
    [RatioColumn("agent_pr_tokens_per_session", (r: PRRow) => r.tokensPerSession),
     RatioColumn("agent_pr_tokens_per_tool_use", (r: PRRow) => r.tokensPerToolUse),
     RatioColumn("agent_pr_per_million_tokens", (r: PRRow) => r.perMillionTokens)]
  }

  function PRTags(r: PRRow): seq<Attr> {
    [StringAttr("pr_url", r.url), StringAttr("coding_agent", r.agent), StringAttr("user_id", r.user),
     StringAttr("task_type", r.taskType), StringAttr("model", r.model)]
  }

  function WeeklyColumns(): seq<Column<WeeklyRow>> {
    [CountColumn("agent_weekly_session_count", (r: WeeklyRow) => r.sessionCount),
     CountColumn("agent_weekly_session_total_tokens", (r: WeeklyRow) => r.totalTokens),
     CountColumn("agent_weekly_session_ask_user_question_total", (r: WeeklyRow) => r.askUserQuestion),
     RatioColumn("agent_weekly_session_tokens_per_session", (r: WeeklyRow) => Some(r.tokensPerSession)),
     RatioColumn("agent_weekly_session_ask_user_question_per_session", (r: WeeklyRow) => Some(r.askUserQuestionPerSession))]
  }

  function WeeklyTags(r: WeeklyRow): seq<Attr> {
    [StringAttr("week_start", r.weekStart), StringAttr("coding_agent", r.agent)]
  }

  // ---------------------------------------------------------------- what one row is sent as

  /** A metric name with the value a row has for it, if any. */
  datatype Reading = Reading(metric: string, value: Option<Number>)

  function Count(metric: string, n: int): Reading {
    Reading(metric, Some(IntValue(n)))
  }

  /** The samples of the readings that have a value. */
  function Tally(tags: seq<Attr>, readings: seq<Reading>): multiset<Sample> {
    if readings == [] then multiset{}
    else
      var last := readings[|readings| - 1];
      Tally(tags, readings[..|readings| - 1])
      + (match last.value case None => multiset{} case Some(v) => multiset{Sample(last.metric, DataPoint(tags, v))})
  }

  function PresentIn(readings: seq<Reading>): nat {
    if readings == [] then 0
    else PresentIn(readings[..|readings| - 1]) + (if readings[|readings| - 1].value.Some? then 1 else 0)
  }

  lemma {:induction false} TallySize(tags: seq<Attr>, readings: seq<Reading>)
    ensures |Tally(tags, readings)| == PresentIn(readings)
  {
    if readings != [] {
      TallySize(tags, readings[..|readings| - 1]);
    }
  }

  function ReadingsOf<R>(columns: seq<Column<R>>, r: R): (s: seq<Reading>)
    ensures |s| == |columns| && forall i :: 0 <= i < |s| ==> s[i] == Reading(columns[i].name, columns[i].value(r))
  {
    seq(|columns|, i requires 0 <= i < |columns| => Reading(columns[i].name, columns[i].value(r)))
  }

  lemma {:induction false} RowIsTally<R>(columns: seq<Column<R>>, tags: R -> seq<Attr>, r: R)
    ensures RowSamples(columns, tags, r) == Tally(tags(r), ReadingsOf(columns, r))
  {
    if columns != [] {
      RowIsTally(columns[..|columns| - 1], tags, r);
      assert ReadingsOf(columns, r)[..|columns| - 1] == ReadingsOf(columns[..|columns| - 1], r);
    }
  }

  lemma {:induction false} AllPresent(readings: seq<Reading>)
    requires forall i :: 0 <= i < |readings| ==> readings[i].value.Some?
    ensures PresentIn(readings) == |readings|
  {
    if readings != [] {
      AllPresent(readings[..|readings| - 1]);
    }
  }

  lemma PresentSnoc(front: seq<Reading>, last: Reading)
    ensures PresentIn(front + [last]) == PresentIn(front) + (if last.value.Some? then 1 else 0)
  {
    assert (front + [last])[..|front|] == front;
  }

  function OneIf(present: bool): nat {
    if present then 1 else 0
  }

  lemma ReadingsAppend<R>(a: seq<Column<R>>, b: seq<Column<R>>, r: R)
    ensures ReadingsOf(a + b, r) == ReadingsOf(a, r) + ReadingsOf(b, r)
  {
  }

  lemma PRCountReadings(r: PRRow)
    ensures ReadingsOf(PRCountColumns(), r) == PRCounts(r)
  {
  }

  lemma PRRatioReadings(r: PRRow)
    ensures ReadingsOf(PRRatioColumns(), r) == PRRatios(r)
  {
  }

  lemma WeeklyReadingsOf(r: WeeklyRow)
    ensures ReadingsOf(WeeklyColumns(), r) == WeeklyReadings(r)
  {
    assert WeeklyColumns()[3].value(r) == Ratio(Some(r.tokensPerSession));
    assert WeeklyColumns()[4].value(r) == Ratio(Some(r.askUserQuestionPerSession));
  }

  /** What a pull request's row says, reading by reading. */
  function PRReadings(r: PRRow): seq<Reading> {
    PRCounts(r) + PRRatios(r)
  }

  function PRRatios(r: PRRow): seq<Reading> {
    [Reading("agent_pr_tokens_per_session", Ratio(r.tokensPerSession)),
     Reading("agent_pr_tokens_per_tool_use", Ratio(r.tokensPerToolUse)),
     Reading("agent_pr_per_million_tokens", Ratio(r.perMillionTokens))]
  }

  function PRCounts(r: PRRow): seq<Reading> {
    [Count("agent_pr_session_count", r.sessionCount), Count("agent_pr_tool_use_total", r.toolUseTotal),
     Count("agent_pr_mid_session_msgs_total", r.midSessionMsgs), Count("agent_pr_ask_user_question_total", r.askUserQuestion),
     Count("agent_pr_input_tokens_total", r.inputTokens), Count("agent_pr_output_tokens_total", r.outputTokens),
     Count("agent_pr_cache_write_tokens_total", r.cacheWriteTokens), Count("agent_pr_cache_read_tokens_total", r.cacheReadTokens),
     Count("agent_pr_reasoning_tokens_total", r.reasoningTokens), Count("agent_pr_total_tokens", r.totalTokens),
     Count("agent_pr_fresh_tokens", r.freshTokens), Count("agent_pr_review_comments", r.reviewComments),
     Count("agent_pr_changes_requested", r.changesRequested)]
  }

  /**
   A pull request's row is sent as one sample for each of its 13 counts, under the count's own name, and
   one for each ratio that is not NULL, all tagged with URL, agent, user, task type and model.
   */
  lemma PRRowSamples(r: PRRow)
    ensures RowSamples(PRColumns(), PRTags, r) ==
            Tally([Attr("pr_url", OtlpValue(r.url, "", false)), Attr("coding_agent", OtlpValue(r.agent, "", false)),
                   Attr("user_id", OtlpValue(r.user, "", false)), Attr("task_type", OtlpValue(r.taskType, "", false)),
                   Attr("model", OtlpValue(r.model, "", false))], PRReadings(r))
    ensures |RowSamples(PRColumns(), PRTags, r)| ==
            13 + OneIf(r.tokensPerSession.Some?) + OneIf(r.tokensPerToolUse.Some?) + OneIf(r.perMillionTokens.Some?)
  {
    RowIsTally(PRColumns(), PRTags, r);
    ReadingsAppend(PRCountColumns(), PRRatioColumns(), r);
    PRCountReadings(r);
    PRRatioReadings(r);
    TallySize(PRTags(r), PRReadings(r));
    PRPresent(r);
  }

  lemma PRPresent(r: PRRow)
    ensures PresentIn(PRReadings(r)) ==
            13 + OneIf(r.tokensPerSession.Some?) + OneIf(r.tokensPerToolUse.Some?) + OneIf(r.perMillionTokens.Some?)
  {
    var counts, ratios := PRCounts(r), PRRatios(r);
    AllPresent(counts);
    PresentSnoc(counts, ratios[0]);
    PresentSnoc(counts + [ratios[0]], ratios[1]);
    PresentSnoc(counts + [ratios[0]] + [ratios[1]], ratios[2]);
    assert counts + ratios == counts + [ratios[0]] + [ratios[1]] + [ratios[2]];
  }

  function WeeklyReadings(r: WeeklyRow): seq<Reading> {
    [Count("agent_weekly_session_count", r.sessionCount), Count("agent_weekly_session_total_tokens", r.totalTokens),
     Count("agent_weekly_session_ask_user_question_total", r.askUserQuestion),
     Reading("agent_weekly_session_tokens_per_session", Some(RealValue(r.tokensPerSession))),
     Reading("agent_weekly_session_ask_user_question_per_session", Some(RealValue(r.askUserQuestionPerSession)))]
  }

  /** A week's row is sent as 5 samples, always, tagged with the week and the agent. */
  lemma WeeklyRowSamples(r: WeeklyRow)
    ensures RowSamples(WeeklyColumns(), WeeklyTags, r) ==
            Tally([Attr("week_start", OtlpValue(r.weekStart, "", false)), Attr("coding_agent", OtlpValue(r.agent, "", false))],
                  WeeklyReadings(r))
    ensures |RowSamples(WeeklyColumns(), WeeklyTags, r)| == 5
  {
    RowIsTally(WeeklyColumns(), WeeklyTags, r);
    WeeklyReadingsOf(r);
    TallySize(WeeklyTags(r), WeeklyReadings(r));
    AllPresent(WeeklyReadings(r));
  }

  // ---------------------------------------------------------------- values on the wire

  /** A data point's value: a decimal string or a floating-point number. */
  datatype WireNumber = WireNumber(asInt: string, asDouble: Option<real>)

  function NumberOnWire(v: Number): WireNumber {
    match v
    case IntValue(n) => WireNumber(FormatInt(n), None)
    case RealValue(x) => WireNumber("", Some(x))
  }

  /** toProtoMetrics on one value; None is the conversion error. */
  function ProtoNumber(w: WireNumber): Option<Number> {
    match w.asDouble
    case Some(x) => Some(RealValue(x))
    case None =>
      (match ParseInt64(w.asInt)
       case Some(n) => Some(IntValue(n))
       case None => None)
  }

  /** The protobuf form of a value is the value itself, exactly for counts of 64 bits and for all ratios. */
  lemma NumberTravelsExactly(v: Number)
    ensures ProtoNumber(NumberOnWire(v)) == Some(v) <==> v.RealValue? || InInt64(v.n)
  {
    if v.IntValue? {
      ParseFormatInt(v.n);
    }
  }
}
