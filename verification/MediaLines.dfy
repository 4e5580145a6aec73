/**
 * Which line of a media server's metrics text feeds which counter. A printer of one line per metric,
 * with every name written out, is read back field by field.
 */
module MediaLines {
  import opened Wrappers
  import opened Text
  import opened MediaMetrics

  datatype Field =
    | Requests | Errored | Jobs
    | DurationSum | DurationCount
    | PostSum | PostCount
    | PreSum | PreCount
    | InferenceSum | InferenceCount
    | WarmupSum | WarmupCount

  function NameOf(f: Field): string {
    match f
    case Requests => "requests_base_total"
    case Errored => "requests_base_total"
    case Jobs => "jobs_in_progress"
    case DurationSum => "requests_base_duration_seconds_total_sum"
    case DurationCount => "requests_base_duration_seconds_total_count"
    case PostSum => "post_processing_duration_seconds_sum"
    case PostCount => "post_processing_duration_seconds_count"
    case PreSum => "pre_processing_duration_seconds_sum"
    case PreCount => "pre_processing_duration_seconds_count"
    case InferenceSum => "model_inference_duration_seconds_sum"
    case InferenceCount => "model_inference_duration_seconds_count"
    case WarmupSum => "device_warmup_duration_seconds_sum"
    case WarmupCount => "device_warmup_duration_seconds_count"
  }

  function Get(c: Counters, f: Field): real {
    match f
    case Requests => c.requests as real
    case Errored => c.errored as real
    case Jobs => c.jobs as real
    case DurationSum => c.durationSum
    case DurationCount => c.durationCount as real
    case PostSum => c.postSum
    case PostCount => c.postCount as real
    case PreSum => c.preSum
    case PreCount => c.preCount as real
    case InferenceSum => c.inferenceSum
    case InferenceCount => c.inferenceCount as real
    case WarmupSum => c.warmupSum
    case WarmupCount => c.warmupCount as real
  }

  predicate IsSum(f: Field) {
    f in {DurationSum, PostSum, PreSum, InferenceSum, WarmupSum}
  }

  /** What a field takes from a printed number: sums as they are, counts cut to whole ones that fit. */
  function Taken(f: Field, v: Reading): (x: real)
    ensures v == NotANumber ==> x == 0.0
    ensures v.Number? && v.r < 0.0 ==> x == 0.0
    ensures v.Number? && v.r >= 0.0 && IsSum(f) ==> x == v.r
    ensures v.Number? && 0.0 <= v.r < 4294967296.0 && !IsSum(f) ==> x == v.r.Floor as real
    ensures v.Number? && v.r >= 4294967296.0 && f == Jobs ==> x == 4294967295.0
    ensures v.Number? && v.r < 18446744073709551616.0 && !IsSum(f) && f != Jobs && v.r >= 0.0 ==> x == v.r.Floor as real
    ensures v.Number? && v.r >= 18446744073709551616.0 && !IsSum(f) && f != Jobs ==> x == 18446744073709551615.0
  {
    if IsSum(f) then NonNegative(v)
    else if f == Jobs then AsUnsigned(v, U32) as real
    else AsUnsigned(v, U64) as real
  }

  predicate SaysFailed(labels: string) {
    Contains(labels, "status=\"error\"") || Contains(labels, "status=\"failed\"") || Contains(labels, "status=\"failure\"")
  }

  /** A label block a line of `f` can carry: absent, or in braces; a failure status on failed requests only. */
  predicate LabelsFor(f: Field, labels: string) {
    && (labels == "" || (labels[0] == '{' && labels[|labels| - 1] == '}'))
    && '\n' !in labels
    && (f == Requests ==> !SaysFailed(labels))
    && (f == Errored ==> SaysFailed(labels))
  }

  /** A number as it is printed: one word. */
  predicate IsWord(text: string) {
    text != "" && forall c :: c in text ==> !IsWhitespace(c) && c != '}' && c != '='
  }

  function Line(f: Field, labels: string, text: string): string {
    "tt_media_server_" + NameOf(f) + labels + " " + text
  }

  // ----- the parts of a line -----

  /** Lower-case letters and underscores. */
  predicate Plain(s: string) {
    forall k :: 0 <= k < |s| ==> IsLower(s[k]) || s[k] == '_'
  }

  lemma PlainNamespace()
    ensures Plain(NAMESPACE) && |NAMESPACE| == 16
  {
  }

  lemma PlainRequests()
    ensures Plain("requests_base_total") && Plain("jobs_in_progress")
  {
  }

  lemma PlainDuration()
    ensures Plain("requests_base_duration_seconds_total_sum") && Plain("requests_base_duration_seconds_total_count")
  {
  }

  lemma PlainPost()
    ensures Plain("post_processing_duration_seconds_sum") && Plain("post_processing_duration_seconds_count")
  {
  }

  lemma PlainPre()
    ensures Plain("pre_processing_duration_seconds_sum") && Plain("pre_processing_duration_seconds_count")
  {
  }

  lemma PlainInference()
    ensures Plain("model_inference_duration_seconds_sum") && Plain("model_inference_duration_seconds_count")
  {
  }

  lemma PlainWarmup()
    ensures Plain("device_warmup_duration_seconds_sum") && Plain("device_warmup_duration_seconds_count")
  {
  }

  lemma PlainName(f: Field)
    ensures Plain(NAMESPACE + NameOf(f)) && |NAMESPACE| == 16
  {
    PlainNamespace();
    PlainRequests();
    PlainDuration();
    PlainPost();
    PlainPre();
    PlainInference();
    PlainWarmup();
  }

  predicate SameName(f: Field, g: Field) {
    f == g || (f.Requests? && g.Errored?) || (f.Errored? && g.Requests?)
  }

  /** A name is known by its length and first letter, up to the two request counters. */
  lemma NamesDiffer(f: Field, g: Field)
    requires NameOf(f) == NameOf(g)
    ensures SameName(f, g)
  {
    NameSize(f);
    NameSize(g);
  }

  function Size(f: Field): (nat, char) {
    match f
    case Requests => (19, 'r')
    case Errored => (19, 'r')
    case Jobs => (16, 'j')
    case DurationSum => (40, 'r')
    case DurationCount => (42, 'r')
    case PostSum => (36, 'p')
    case PostCount => (38, 'p')
    case PreSum => (35, 'p')
    case PreCount => (37, 'p')
    case InferenceSum => (36, 'm')
    case InferenceCount => (38, 'm')
    case WarmupSum => (34, 'd')
    case WarmupCount => (36, 'd')
  }

  lemma NameSize(f: Field)
    ensures |NameOf(f)| == Size(f).0 && NameOf(f)[0] == Size(f).1
  {
  }

  lemma {:induction false} MetricNameOf(name: string, rest: string)
    requires '{' !in name && ' ' !in name && (rest == "" || rest[0] == '{' || rest[0] == ' ')
    ensures MetricName(name + rest) == name
  {
    if name == "" {
      assert name + rest == rest;
    } else {
      assert (name + rest)[1..] == name[1..] + rest;
      MetricNameOf(name[1..], rest);
    }
  }

  /** The value is the text after the last space, and nothing is trimmed. */
  lemma LineParts(head: string, text: string)
    requires head != "" && !IsWhitespace(head[0]) && IsWord(text)
    ensures Trim(head + " " + text) == head + " " + text
    ensures Trim(Remainder(head + " " + text, ' ')) == text
  {
    var line := head + " " + text;
    assert line[0] == head[0] && line[|line| - 1] == text[|text| - 1];
    SnocPieces(head, ' ', ' ');
    NoDelimiter(head + " ", text, ' ');
    assert [] + text == text;
  }

  lemma BareKey(name: string, text: string)
    requires name != "" && Plain(name) && IsWord(text)
    ensures SeriesKey(name + " " + text) == name
  {
    var line := name + " " + text;
    assert forall k :: 0 <= k < |name| ==> line[k] == name[k];
    assert forall k :: |name| < k < |line| ==> line[k] == text[k - |name| - 1] && text[k - |name| - 1] in text;
    assert LastBrace(line) == None;
    RunExtends("", name);
    assert "" + name == name;
    TokensThenWord(name, text);
  }

  lemma LabelledKey(head: string, text: string)
    requires head != "" && head[|head| - 1] == '}' && IsWord(text)
    ensures SeriesKey(head + " " + text) == head
  {
    var line := head + " " + text;
    assert forall k :: |head| < k < |line| ==> line[k] == text[k - |head| - 1] && text[k - |head| - 1] in text;
    assert line[|head| - 1] == '}';
    assert LastBrace(line) == Some((|head| - 1) as nat);
    assert line[..|head|] == head;
  }

  lemma KeyOf(name: string, labels: string, text: string)
    requires name != "" && Plain(name) && IsWord(text)
    requires labels == "" || labels[|labels| - 1] == '}'
    ensures SeriesKey(name + labels + " " + text) == name + labels
  {
    if labels == "" {
      assert name + labels == name;
      BareKey(name, text);
    } else {
      LabelledKey(name + labels, text);
    }
  }

  /** A label holds the text exactly when the whole line does. */
  lemma FoundInLabels(name: string, labels: string, text: string, p: string)
    requires Plain(name) && IsWord(text)
    requires labels == "" || labels[0] == '{'
    requires '=' in p && '{' !in p && ' ' !in p
    ensures Contains(name + labels + " " + text, p) <==> Contains(labels, p)
  {
    var line := name + labels + " " + text;
    assert forall k :: 0 <= k < |labels| ==> line[|name| + k] == labels[k];
    if Contains(labels, p) {
      var i := Find(labels, p).value;
      assert forall k :: 0 <= k < |p| ==> line[|name| + i + k] == p[k];
      assert At(line, p, |name| + i);
    }
    if Contains(line, p) {
      var i := Find(line, p).value;
      FoundBetween(name, labels, text, p, i, line);
      assert forall k :: 0 <= k < |p| ==> labels[i - |name| + k] == p[k];
      assert At(labels, p, i - |name|);
    }
  }

  /** A text that cannot hold the two characters around a part lies on one side of them. */
  lemma NotAcross(line: string, p: string, i: nat, k: nat)
    requires At(line, p, i) && k < |line| && line[k] !in p
    ensures k < i || i + |p| <= k
  {
    if k >= i && k < i + |p| {
      At1(line, p, i, k - i);
    }
  }

  lemma At1(line: string, p: string, i: nat, j: nat)
    requires At(line, p, i) && j < |p|
    ensures line[i + j] in p
  {
    assert line[i + j] == p[j];
  }

  lemma FoundBetween(name: string, labels: string, text: string, p: string, i: nat, line: string)
    requires Plain(name) && IsWord(text) && line == name + labels + " " + text
    requires labels == "" || labels[0] == '{'
    requires '=' in p && '{' !in p && ' ' !in p
    requires At(line, p, i)
    ensures |name| <= i && i + |p| <= |name| + |labels|
  {
    var e :| 0 <= e < |p| && p[e] == '=';
    var space := |name| + |labels|;
    assert line[i + e] == '=' && line[space] == ' ';
    assert forall k :: 0 <= k < |name| ==> line[k] == name[k];
    assert forall k :: space < k < |line| ==> line[k] == text[k - space - 1] && text[k - space - 1] in text;
    assert labels != "" ==> line[|name|] == '{';
    NotAcross(line, p, i, space);
    NotAcross(line, p, i, |name|);
  }

  lemma FailedInLabels(name: string, labels: string, text: string)
    requires Plain(name) && IsWord(text)
    requires labels == "" || labels[0] == '{'
    ensures Failed(name + labels + " " + text) <==> SaysFailed(labels)
  {
    StatusTexts();
    FoundInLabels(name, labels, text, "status=\"error\"");
    FoundInLabels(name, labels, text, "status=\"failed\"");
    FoundInLabels(name, labels, text, "status=\"failure\"");
  }

  lemma StatusTexts()
    ensures '=' in "status=\"error\"" && '{' !in "status=\"error\"" && ' ' !in "status=\"error\""
    ensures '=' in "status=\"failed\"" && '{' !in "status=\"failed\"" && ' ' !in "status=\"failed\""
    ensures '=' in "status=\"failure\"" && '{' !in "status=\"failure\"" && ' ' !in "status=\"failure\""
  {
    assert "status=\"error\""[6] == '=' && "status=\"failed\""[6] == '=' && "status=\"failure\""[6] == '=';
  }

  // ----- one line, one field -----

  lemma Reads(f: Field, line: string, g: Field)
    requires MetricName(line) == NAMESPACE + NameOf(f)
    ensures IsMetric(line, NameOf(g)) <==> SameName(f, g)
  {
    if IsMetric(line, NameOf(g)) {
      SameTail(NAMESPACE, NameOf(f), NameOf(g));
      NamesDiffer(f, g);
    }
  }

  function Put(f: Field, v: Reading): Counters {
    var n, x := AsUnsigned(v, U64), NonNegative(v);
    match f
    case Requests => ZERO.(requests := n)
    case Errored => ZERO.(errored := n)
    case Jobs => ZERO.(jobs := AsUnsigned(v, U32))
    case DurationSum => ZERO.(durationSum := x)
    case DurationCount => ZERO.(durationCount := n)
    case PostSum => ZERO.(postSum := x)
    case PostCount => ZERO.(postCount := n)
    case PreSum => ZERO.(preSum := x)
    case PreCount => ZERO.(preCount := n)
    case InferenceSum => ZERO.(inferenceSum := x)
    case InferenceCount => ZERO.(inferenceCount := n)
    case WarmupSum => ZERO.(warmupSum := x)
    case WarmupCount => ZERO.(warmupCount := n)
  }

  lemma PutOne(f: Field, v: Reading, g: Field)
    ensures Get(Put(f, v), g) == if g == f then Taken(f, v) else 0.0
  {
  }

  lemma Feeds(f: Field, named: string -> bool, failed: bool, v: Reading)
    requires named("requests_base_total") <==> f == Requests || f == Errored
    requires named("jobs_in_progress") <==> f == Jobs
    requires named("requests_base_duration_seconds_total_sum") <==> f == DurationSum
    requires named("requests_base_duration_seconds_total_count") <==> f == DurationCount
    requires named("post_processing_duration_seconds_sum") <==> f == PostSum
    requires named("post_processing_duration_seconds_count") <==> f == PostCount
    requires named("pre_processing_duration_seconds_sum") <==> f == PreSum
    requires named("pre_processing_duration_seconds_count") <==> f == PreCount
    requires named("model_inference_duration_seconds_sum") <==> f == InferenceSum
    requires named("model_inference_duration_seconds_count") <==> f == InferenceCount
    requires named("device_warmup_duration_seconds_sum") <==> f == WarmupSum
    requires named("device_warmup_duration_seconds_count") <==> f == WarmupCount
    requires (f == Requests ==> !failed) && (f == Errored ==> failed)
    ensures Amount(named, failed, v) == Put(f, v)
  {
  }

  lemma RequestsNamed(f: Field, named: string -> bool)
    requires forall g: Field :: named(NameOf(g)) <==> SameName(f, g)
    ensures named("requests_base_total") <==> f == Requests || f == Errored
    ensures named("jobs_in_progress") <==> f == Jobs
    ensures named("requests_base_duration_seconds_total_sum") <==> f == DurationSum
    ensures named("requests_base_duration_seconds_total_count") <==> f == DurationCount
  {
    assert named(NameOf(Requests)) <==> SameName(f, Requests);
    assert named(NameOf(Jobs)) <==> SameName(f, Jobs);
    assert named(NameOf(DurationSum)) <==> SameName(f, DurationSum);
    assert named(NameOf(DurationCount)) <==> SameName(f, DurationCount);
  }

  lemma StagesNamed(f: Field, named: string -> bool)
    requires forall g: Field :: named(NameOf(g)) <==> SameName(f, g)
    ensures named("post_processing_duration_seconds_sum") <==> f == PostSum
    ensures named("post_processing_duration_seconds_count") <==> f == PostCount
    ensures named("pre_processing_duration_seconds_sum") <==> f == PreSum
    ensures named("pre_processing_duration_seconds_count") <==> f == PreCount
  {
    assert named(NameOf(PostSum)) <==> SameName(f, PostSum);
    assert named(NameOf(PostCount)) <==> SameName(f, PostCount);
    assert named(NameOf(PreSum)) <==> SameName(f, PreSum);
    assert named(NameOf(PreCount)) <==> SameName(f, PreCount);
  }

  lemma LaterStagesNamed(f: Field, named: string -> bool)
    requires forall g: Field :: named(NameOf(g)) <==> SameName(f, g)
    ensures named("model_inference_duration_seconds_sum") <==> f == InferenceSum
    ensures named("model_inference_duration_seconds_count") <==> f == InferenceCount
    ensures named("device_warmup_duration_seconds_sum") <==> f == WarmupSum
    ensures named("device_warmup_duration_seconds_count") <==> f == WarmupCount
  {
    assert named(NameOf(InferenceSum)) <==> SameName(f, InferenceSum);
    assert named(NameOf(InferenceCount)) <==> SameName(f, InferenceCount);
    assert named(NameOf(WarmupSum)) <==> SameName(f, WarmupSum);
    assert named(NameOf(WarmupCount)) <==> SameName(f, WarmupCount);
  }

  lemma AmountIs(f: Field, named: string -> bool, failed: bool, v: Reading)
    requires forall g: Field :: named(NameOf(g)) <==> SameName(f, g)
    requires (f == Requests ==> !failed) && (f == Errored ==> failed)
    ensures Amount(named, failed, v) == Put(f, v)
  {
    RequestsNamed(f, named);
    StagesNamed(f, named);
    LaterStagesNamed(f, named);
    Feeds(f, named, failed, v);
  }

  lemma ContributionIs(f: Field, line: string, v: Reading)
    requires MetricName(line) == NAMESPACE + NameOf(f)
    requires (f == Requests ==> !Failed(line)) && (f == Errored ==> Failed(line))
    ensures Contribution(line, v) == Put(f, v)
  {
    var named := name => IsMetric(line, name);
    forall g: Field
      ensures named(NameOf(g)) <==> SameName(f, g)
    {
      Reads(f, line, g);
    }
    AmountIs(f, named, Failed(line), v);
  }

  /** What is read of a line with any metric name. */
  lemma LineReads(name: string, labels: string, text: string, parse: NumberParser, line: string)
    requires line == name + labels + " " + text && Plain(name) && NAMESPACE <= name && IsWord(text)
    requires labels == "" || (labels[0] == '{' && labels[|labels| - 1] == '}')
    ensures IsMedia(line) && MetricName(line) == name && (Failed(line) <==> SaysFailed(labels))
    ensures SampleOf(line, parse)
            == match parse(text) case None => None case Some(v) => Some(Sample(name + labels, Contribution(line, v)))
  {
    var head := name + labels;
    StartsMedia(name, labels + " " + text);
    assert line == name + (labels + " " + text);
    assert head[0] == name[0];
    LineParts(head, text);
    KeyOf(name, labels, text);
    assert labels != "" ==> (labels + " " + text)[0] == '{';
    MetricNameOf(name, labels + " " + text);
    FailedInLabels(name, labels, text);
  }

  lemma StartsMedia(name: string, rest: string)
    requires NAMESPACE <= name
    ensures NAMESPACE <= name + rest && !("#" <= name + rest) && name != "" && !IsWhitespace(name[0])
  {
    assert name[0] == NAMESPACE[0] == 't';
    assert (name + rest)[..|NAMESPACE|] == name[..|NAMESPACE|];
  }

  lemma LineSample(f: Field, labels: string, text: string, parse: NumberParser)
    requires LabelsFor(f, labels) && IsWord(text)
    ensures IsMedia(Line(f, labels, text))
    ensures SampleOf(Line(f, labels, text), parse)
            == match parse(text) case None => None case Some(v) => Some(Sample(NAMESPACE + NameOf(f) + labels, Put(f, v)))
  {
    PlainName(f);
    LineReads(NAMESPACE + NameOf(f), labels, text, parse, Line(f, labels, text));
    if parse(text).Some? {
      ContributionIs(f, Line(f, labels, text), parse(text).value);
    }
  }

  /** A line of one metric changes that metric's field by the number it prints, and no other field. */
  lemma LineFeedsItsField(f: Field, labels: string, text: string, parse: NumberParser, v: Reading)
    requires LabelsFor(f, labels) && IsWord(text) && parse(text) == Some(v)
    ensures SampleOf(Line(f, labels, text), parse).Some?
    ensures var s := SampleOf(Line(f, labels, text), parse).value;
            && s.key == "tt_media_server_" + NameOf(f) + labels
            && forall g :: Get(s.amount, g) == if g == f then Taken(f, v) else 0.0
  {
    LineSample(f, labels, text, parse);
    forall g
      ensures Get(Put(f, v), g) == if g == f then Taken(f, v) else 0.0
    {
      PutOne(f, v, g);
    }
  }

  /** A value that is no number makes the line count for nothing, though it still marks the text. */
  lemma UnreadableLine(f: Field, labels: string, text: string, parse: NumberParser)
    requires LabelsFor(f, labels) && IsWord(text) && parse(text) == None
    ensures IsMedia(Line(f, labels, text)) && SampleOf(Line(f, labels, text), parse) == None
  {
    LineSample(f, labels, text, parse);
  }

  // ----- the printer -----

  /** One line per field, in any order. */
  function Printed(fields: seq<Field>, labels: Field -> string, show: Field -> string): (r: seq<string>)
    ensures |r| == |fields| && forall i :: 0 <= i < |r| ==> r[i] == Line(fields[i], labels(fields[i]), show(fields[i]))
  {
    seq(|fields|, i requires 0 <= i < |fields| => Line(fields[i], labels(fields[i]), show(fields[i])))
  }

  ghost predicate Distinct(fields: seq<Field>) {
    forall i, j :: 0 <= i < j < |fields| ==> fields[i] != fields[j]
  }

  ghost predicate Labelled(labels: Field -> string) {
    forall f: Field :: LabelsFor(f, labels(f))
  }

  /** The numbers `show` prints are those of `c`, and `parse` reads them. */
  ghost predicate Shows(c: Counters, labels: Field -> string, show: Field -> string, parse: NumberParser) {
    Labelled(labels) && forall f: Field :: IsWord(show(f)) && parse(show(f)) == Some(Number(Get(c, f)))
  }

  /** The counters as their fields can hold them. */
  predicate Fits(c: Counters) {
    && c.requests < 18446744073709551616 && c.errored < 18446744073709551616 && c.jobs < 4294967296
    && c.durationCount < 18446744073709551616 && c.postCount < 18446744073709551616
    && c.preCount < 18446744073709551616 && c.inferenceCount < 18446744073709551616
    && c.warmupCount < 18446744073709551616
    && c.durationSum >= 0.0 && c.postSum >= 0.0 && c.preSum >= 0.0 && c.inferenceSum >= 0.0 && c.warmupSum >= 0.0
  }

  lemma FitsAsIs(c: Counters)
    requires Fits(c)
    ensures Wrapped(c) == c
  {
  }

  lemma TakenBack(c: Counters, f: Field)
    requires Fits(c)
    ensures Taken(f, Number(Get(c, f))) == Get(c, f)
  {
  }

  lemma SameParts(m: string, n: string, a: string, b: string)
    requires Plain(m) && Plain(n) && m + a == n + b
    requires (a == "" || a[0] == '{') && (b == "" || b[0] == '{')
    ensures m == n && a == b
  {
    MetricNameOf(m, a);
    MetricNameOf(n, b);
    assert (m + a)[|m|..] == a && (n + b)[|n|..] == b;
  }

  lemma SeriesDiffer(f: Field, g: Field, a: string, b: string)
    requires LabelsFor(f, a) && LabelsFor(g, b)
    requires NAMESPACE + NameOf(f) + a == NAMESPACE + NameOf(g) + b
    ensures f == g
  {
    PlainName(f);
    PlainName(g);
    SameParts(NAMESPACE + NameOf(f), NAMESPACE + NameOf(g), a, b);
    SameTail(NAMESPACE, NameOf(f), NameOf(g));
    NamesDiffer(f, g);
  }

  lemma SameTail(head: string, a: string, b: string)
    requires head + a == head + b
    ensures a == b
  {
    assert (head + a)[|head|..] == a && (head + b)[|head|..] == b;
  }

  lemma GetPlus(a: Counters, b: Counters, f: Field)
    ensures Get(Plus(a, b), f) == Get(a, f) + Get(b, f)
  {
  }

  lemma SameFields(a: Counters, b: Counters)
    requires forall f: Field :: Get(a, f) == Get(b, f)
    ensures a == b
  {
    assert Get(a, Requests) == Get(b, Requests) && Get(a, Errored) == Get(b, Errored) && Get(a, Jobs) == Get(b, Jobs);
    assert Get(a, DurationSum) == Get(b, DurationSum) && Get(a, DurationCount) == Get(b, DurationCount);
    assert Get(a, PostSum) == Get(b, PostSum) && Get(a, PostCount) == Get(b, PostCount);
    assert Get(a, PreSum) == Get(b, PreSum) && Get(a, PreCount) == Get(b, PreCount);
    assert Get(a, InferenceSum) == Get(b, InferenceSum) && Get(a, InferenceCount) == Get(b, InferenceCount);
    assert Get(a, WarmupSum) == Get(b, WarmupSum) && Get(a, WarmupCount) == Get(b, WarmupCount);
  }

  /** The total of the printed lines has the numbers of the fields printed, and zero elsewhere. */
  ghost predicate TotalIs(c: Counters, fields: seq<Field>, labels: Field -> string, samples: seq<Sample>) {
    && (forall f: Field :: Get(Total(samples), f) == if f in fields then Get(c, f) else 0.0)
    && Keys(samples) == set f | f in fields :: SeriesOf(f, labels)
  }

  function SeriesOf(f: Field, labels: Field -> string): string {
    NAMESPACE + NameOf(f) + labels(f)
  }

  /** The sample of a line that prints `f`. */
  function SampleFor(c: Counters, f: Field, labels: Field -> string): Sample {
    Sample(SeriesOf(f, labels), Put(f, Number(Get(c, f))))
  }

  lemma NewSeries(init: seq<Field>, f: Field, labels: Field -> string)
    requires f !in init && Labelled(labels)
    ensures SeriesOf(f, labels) !in set g | g in init :: SeriesOf(g, labels)
  {
    forall g | g in init
      ensures SeriesOf(f, labels) != SeriesOf(g, labels)
    {
      if SeriesOf(f, labels) == SeriesOf(g, labels) {
        SeriesDiffer(f, g, labels(f), labels(g));
      }
    }
  }

  lemma OneMore(c: Counters, init: seq<Field>, f: Field, labels: Field -> string, before: seq<Sample>)
    requires TotalIs(c, init, labels, before) && f !in init && Labelled(labels) && Fits(c)
    ensures TotalIs(c, init + [f], labels, before + [SampleFor(c, f, labels)])
  {
    var s := SampleFor(c, f, labels);
    TotalSnoc(before, s);
    NewSeries(init, f, labels);
    forall g: Field
      ensures Get(Plus(Total(before), s.amount), g) == if g in init + [f] then Get(c, g) else 0.0
    {
      GetPlus(Total(before), s.amount, g);
      PutOne(f, Number(Get(c, f)), g);
      TakenBack(c, f);
    }
  }

  lemma DistinctPrefix(fields: seq<Field>)
    requires fields != [] && Distinct(fields)
    ensures var k := |fields| - 1;
            Distinct(fields[..k]) && fields[k] !in fields[..k] && fields == fields[..k] + [fields[k]]
  {
  }

  function SamplesFor(c: Counters, fields: seq<Field>, labels: Field -> string): (r: seq<Sample>)
    ensures |r| == |fields| && forall i :: 0 <= i < |r| ==> r[i] == SampleFor(c, fields[i], labels)
  {
    seq(|fields|, i requires 0 <= i < |fields| => SampleFor(c, fields[i], labels))
  }

  lemma SamplesForSnoc(c: Counters, init: seq<Field>, f: Field, labels: Field -> string)
    ensures SamplesFor(c, init + [f], labels) == SamplesFor(c, init, labels) + [SampleFor(c, f, labels)]
  {
  }

  lemma {:induction false} TotalOfSamples(c: Counters, fields: seq<Field>, labels: Field -> string)
    requires Distinct(fields) && Labelled(labels) && Fits(c)
    ensures TotalIs(c, fields, labels, SamplesFor(c, fields, labels))
  {
    if fields == [] {
      NothingYet(c, labels);
    } else {
      var init, f := fields[..|fields| - 1], fields[|fields| - 1];
      DistinctPrefix(fields);
      TotalOfSamples(c, init, labels);
      OneMore(c, init, f, labels, SamplesFor(c, init, labels));
      SamplesForSnoc(c, init, f, labels);
    }
  }

  lemma {:induction false} SamplesAre(lines: seq<string>, reader: Reader, samples: seq<Sample>)
    requires |samples| == |lines| && forall i :: 0 <= i < |lines| ==> reader.sample(lines[i]) == Some(samples[i])
    ensures Samples(lines, reader) == samples
  {
    if lines != [] {
      SamplesAre(lines[..|lines| - 1], reader, samples[..|lines| - 1]);
    }
  }

  lemma PrintedSample(
    c: Counters, f: Field, labels: Field -> string, show: Field -> string, parse: NumberParser, line: string)
    requires Fits(c) && Shows(c, labels, show, parse) && line == Line(f, labels(f), show(f))
    ensures SampleOf(line, parse) == Some(SampleFor(c, f, labels))
  {
    LineSample(f, labels(f), show(f), parse);
  }

  lemma PrintedTotal(
    c: Counters, fields: seq<Field>, labels: Field -> string, show: Field -> string, parse: NumberParser)
    requires Fits(c) && Distinct(fields) && Shows(c, labels, show, parse)
    ensures TotalIs(c, fields, labels, Samples(Printed(fields, labels, show), MediaReader(parse)))
  {
    var lines, reader := Printed(fields, labels, show), MediaReader(parse);
    forall i | 0 <= i < |fields|
      ensures reader.sample(lines[i]) == Some(SampleFor(c, fields[i], labels))
    {
      PrintedSample(c, fields[i], labels, show, parse, lines[i]);
    }
    SamplesAre(lines, reader, SamplesFor(c, fields, labels));
    TotalOfSamples(c, fields, labels);
  }

  lemma NothingYet(c: Counters, labels: Field -> string)
    ensures TotalIs(c, [], labels, [])
  {
  }

  lemma OneLine(f: Field, labels: string, text: string, line: string)
    requires LabelsFor(f, labels) && IsWord(text) && line == Line(f, labels, text)
    ensures '\n' !in line && Chomp(line, '\r') == line
  {
    PlainName(f);
    var name := NAMESPACE + NameOf(f);
    assert line == name + labels + " " + text;
    assert text[|text| - 1] in text && line[|line| - 1] == text[|text| - 1];
    assert '\n' !in name && '\n' !in text;
  }

  lemma LinesOfPrinted(
    c: Counters, fields: seq<Field>, labels: Field -> string, show: Field -> string, parse: NumberParser)
    requires Shows(c, labels, show, parse)
    ensures Lines(Unlines(Printed(fields, labels, show), '\n')) == Printed(fields, labels, show)
  {
    var lines := Printed(fields, labels, show);
    forall i | 0 <= i < |lines|
      ensures '\n' !in lines[i] && Chomp(lines[i], '\r') == lines[i]
    {
      OneLine(fields[i], labels(fields[i]), show(fields[i]), lines[i]);
    }
    LinesBack(lines);
  }

  lemma LinesBack(lines: seq<string>)
    requires forall i :: 0 <= i < |lines| ==> '\n' !in lines[i] && Chomp(lines[i], '\r') == lines[i]
    ensures Lines(Unlines(lines, '\n')) == lines
  {
    TerminatedUnlines(lines, '\n');
    assert Chomps(lines, '\r') == lines;
    assert lines + [] == lines;
  }

  /** Printing all counters, one line each in any order, and reading the text gives the counters back. */
  lemma PrintedReadsBack(
    c: Counters, fields: seq<Field>, labels: Field -> string, show: Field -> string, parse: NumberParser)
    requires Fits(c) && Distinct(fields) && (forall f: Field :: f in fields) && Shows(c, labels, show, parse)
    ensures var text := Unlines(Printed(fields, labels, show), '\n');
            && AnyMedia(Lines(text), MediaReader(parse))
            && Wrapped(Tally(text, MediaReader(parse))) == c
  {
    LinesOfPrinted(c, fields, labels, show, parse);
    PrintedTotal(c, fields, labels, show, parse);
    SameFields(Total(Samples(Printed(fields, labels, show), MediaReader(parse))), c);
    FitsAsIs(c);
    assert Requests in fields;
    LineSample(fields[0], labels(fields[0]), show(fields[0]), parse);
    assert IsMedia(Printed(fields, labels, show)[0]);
  }

  /** A line of anything else, or a comment, is no sample and does not make the text a media server's. */
  lemma OtherLinesIgnored(line: string, parse: NumberParser)
    requires Trim(line) == line && !("tt_media_server_" <= line)
    ensures !IsMedia(line) && SampleOf(line, parse) == None
  {
  }
}
