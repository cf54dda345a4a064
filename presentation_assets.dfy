/** The prompt parsers and the example selection of `create_presentation_assets.py`:
    `extract_question`, `extract_path` and the filtering and example-building part of
    `create_comparison_examples`. */
module PresentationAssets {
  import opened PyStr

  // ---------------------------------------------------------------------------
  // Order-preserving filtering (the list comprehensions and the `if` in loops)
  // ---------------------------------------------------------------------------

  /** `[x for x in xs if keep(x)]` */
  function Filter<T>(keep: T -> bool, xs: seq<T>): (r: seq<T>)
    ensures |r| <= |xs|
    ensures forall k :: 0 <= k < |r| ==> keep(r[k])
  {
    if xs == [] then []
    else (if keep(xs[0]) then [xs[0]] else []) + Filter(keep, xs[1..])
  }

  /** `xs` is `ys` with some elements dropped and the rest kept in their order. */
  ghost predicate IsSublist<T>(xs: seq<T>, ys: seq<T>)
    decreases |ys|
  {
    xs == []
    || (ys != [] && ((xs[0] == ys[0] && IsSublist(xs[1..], ys[1..])) || IsSublist(xs, ys[1..])))
  }

  /** Filtering a concatenation filters each part. */
  lemma {:induction false} FilterAppend<T>(keep: T -> bool, a: seq<T>, b: seq<T>)
    ensures Filter(keep, a + b) == Filter(keep, a) + Filter(keep, b)
  {
    if a != [] {
      assert (a + b)[0] == a[0] && (a + b)[1..] == a[1..] + b;
      FilterAppend(keep, a[1..], b);
    } else {
      assert a + b == b;
    }
  }

  /** What a filter keeps is an order-preserving sublist of its input. */
  lemma {:induction false} FilterIsSublist<T>(keep: T -> bool, xs: seq<T>)
    ensures IsSublist(Filter(keep, xs), xs)
  {
    if xs != [] {
      FilterIsSublist(keep, xs[1..]);
      var r := Filter(keep, xs);
      if keep(xs[0]) {
        assert r[0] == xs[0] && r[1..] == Filter(keep, xs[1..]);
      } else {
        assert r == Filter(keep, xs[1..]);
      }
    }
  }

  /** An element is kept exactly when it occurs in the input and satisfies `keep`. */
  lemma {:induction false} FilterMember<T>(keep: T -> bool, xs: seq<T>, x: T)
    ensures x in Filter(keep, xs) <==> x in xs && keep(x)
  {
    if xs != [] {
      FilterMember(keep, xs[1..], x);
      assert xs == [xs[0]] + xs[1..];
    }
  }

  /** The `i`-th input element, when kept, sits in the output right after the
      elements kept from before it. */
  lemma {:induction false} FilterAt<T>(keep: T -> bool, xs: seq<T>, i: nat)
    requires i < |xs| && keep(xs[i])
    ensures |Filter(keep, xs[..i])| < |Filter(keep, xs)|
    ensures Filter(keep, xs)[|Filter(keep, xs[..i])|] == xs[i]
  {
    assert xs == xs[..i] + ([xs[i]] + xs[i + 1..]);
    FilterAppend(keep, xs[..i], [xs[i]] + xs[i + 1..]);
    assert Filter(keep, [xs[i]] + xs[i + 1..]) == [xs[i]] + Filter(keep, xs[i + 1..]);
  }

  /** Every output element comes from an input position `i` that satisfies `keep` and
      has exactly as many kept elements before it as the output position. */
  lemma {:induction false} FilterOrigin<T>(keep: T -> bool, xs: seq<T>, k: nat) returns (i: nat)
    requires k < |Filter(keep, xs)|
    ensures i < |xs| && keep(xs[i]) && Filter(keep, xs)[k] == xs[i]
    ensures |Filter(keep, xs[..i])| == k
  {
    var rest := Filter(keep, xs[1..]);
    if keep(xs[0]) && k == 0 {
      i := 0;
      assert xs[..0] == [];
    } else {
      var k' := if keep(xs[0]) then k - 1 else k;
      var i' := FilterOrigin(keep, xs[1..], k');
      i := i' + 1;
      assert xs[..i] == [xs[0]] + xs[1..][..i'];
      FilterAppend(keep, [xs[0]], xs[1..][..i']);
    }
  }

  // ---------------------------------------------------------------------------
  // extract_question
  // ---------------------------------------------------------------------------

  const QuestionTag: string := "Question:"
  const UnknownQuestion: string := "Unknown question"

  /** `line.replace('Question:', '').strip()`: no longer than the line, and neither
      starting nor ending with whitespace. */
  function CleanQuestion(line: string): (q: string)
    ensures |q| <= |line|
    ensures q != [] ==> !IsSpace(q[0]) && !IsSpace(q[|q| - 1])
  {
    Strip(Remove(line, QuestionTag))
  }

  /** The first line starting with `Question:`, cleaned, or the fallback text
      (FirstQuestionMatch and NoQuestionLine state which). */
  function FirstQuestion(lines: seq<string>): string {
    if lines == [] then UnknownQuestion
    else if StartsWith(lines[0], QuestionTag) then CleanQuestion(lines[0])
    else FirstQuestion(lines[1..])
  }

  /** What `extract_question(prompt)` returns. */
  function QuestionOf(prompt: string): string {
    FirstQuestion(Split(prompt))
  }

  /** `extract_question`: scan the lines and return at the first `Question:` line. */
  method ExtractQuestion(prompt: string) returns (question: string)
    ensures question == QuestionOf(prompt)
  {
    var lines := Split(prompt);
    for i := 0 to |lines|
      invariant FirstQuestion(lines[i..]) == QuestionOf(prompt)
    {
      assert lines[i..][1..] == lines[i + 1..];
      if StartsWith(lines[i], QuestionTag) {
        return CleanQuestion(lines[i]);
      }
    }
    return UnknownQuestion;
  }

  /** When line `i` is the first to start with `Question:`, the result is that line,
      cleaned. */
  lemma {:induction false} FirstQuestionMatch(lines: seq<string>, i: nat)
    requires i < |lines| && StartsWith(lines[i], QuestionTag)
    requires forall j :: 0 <= j < i ==> !StartsWith(lines[j], QuestionTag)
    ensures FirstQuestion(lines) == CleanQuestion(lines[i])
  {
    if i > 0 {
      FirstQuestionMatch(lines[1..], i - 1);
    }
  }

  /** With no line starting with `Question:`, the fallback text is returned. */
  lemma {:induction false} QuestionFallback(prompt: string)
    requires forall j :: 0 <= j < |Split(prompt)| ==> !StartsWith(Split(prompt)[j], QuestionTag)
    ensures QuestionOf(prompt) == UnknownQuestion
  {
    NoQuestionLine(Split(prompt));
  }

  lemma {:induction false} NoQuestionLine(lines: seq<string>)
    requires forall j :: 0 <= j < |lines| ==> !StartsWith(lines[j], QuestionTag)
    ensures FirstQuestion(lines) == UnknownQuestion
  {
    if lines != [] {
      NoQuestionLine(lines[1..]);
    }
  }

  /** Only the first `Question:` line matters: whatever follows it in the prompt,
      the result is that line with `Question:` removed and then stripped. */
  lemma QuestionIgnoresLaterLines(before: seq<string>, line: string, after: seq<string>)
    requires forall j :: 0 <= j < |before| ==> Newline !in before[j] && !StartsWith(before[j], QuestionTag)
    requires Newline !in line && StartsWith(line, QuestionTag)
    requires forall j :: 0 <= j < |after| ==> Newline !in after[j]
    ensures QuestionOf(Join(before + [line] + after)) == Strip(Remove(line, QuestionTag))
  {
    var lines := before + [line] + after;
    SplitJoin(lines);
    FirstQuestionMatch(lines, |before|);
  }

  /** The question never starts or ends with whitespace. */
  lemma {:induction false} QuestionTrimmed(lines: seq<string>)
    ensures var q := FirstQuestion(lines);
      q != [] ==> !IsSpace(q[0]) && !IsSpace(q[|q| - 1])
  {
    if lines == [] {
      assert UnknownQuestion[0] == 'U' && UnknownQuestion[|UnknownQuestion| - 1] == 'n';
    } else if !StartsWith(lines[0], QuestionTag) {
      QuestionTrimmed(lines[1..]);
    }
  }

  // ---------------------------------------------------------------------------
  // extract_path
  // ---------------------------------------------------------------------------

  const DepthTag: string := "[Depth"

  predicate IsDepthLine(line: string) {
    StartsWith(line, DepthTag)
  }

  /** `[line.strip() for line in lines]` */
  function StripAll(lines: seq<string>): seq<string> {
    seq(|lines|, k requires 0 <= k < |lines| => Strip(lines[k]))
  }

  /** What `extract_path(prompt)` returns: the `[Depth` lines, stripped, one entry per
      `[Depth` line (PathOrigin and PathContains pin down each entry). */
  function PathOf(prompt: string): (path: seq<string>)
    ensures |path| == |Filter(IsDepthLine, Split(prompt))| <= |Split(prompt)|
  {
    StripAll(Filter(IsDepthLine, Split(prompt)))
  }

  /** `extract_path`: append each `[Depth` line, stripped, to a list that starts empty. */
  method ExtractPath(prompt: string) returns (path: seq<string>)
    ensures path == PathOf(prompt)
  {
    var lines := Split(prompt);
    path := [];
    for i := 0 to |lines|
      invariant path == StripAll(Filter(IsDepthLine, lines[..i]))
    {
      PathStep(lines, i);
      if IsDepthLine(lines[i]) {
        path := path + [Strip(lines[i])];
      }
    }
    assert lines[..|lines|] == lines;
  }

  /** One more line either adds its stripped copy to the path or leaves the path alone. */
  lemma PathStep(lines: seq<string>, i: nat)
    requires i < |lines|
    ensures StripAll(Filter(IsDepthLine, lines[..i + 1]))
      == StripAll(Filter(IsDepthLine, lines[..i]))
         + (if IsDepthLine(lines[i]) then [Strip(lines[i])] else [])
  {
    assert lines[..i + 1] == lines[..i] + [lines[i]];
    FilterAppend(IsDepthLine, lines[..i], [lines[i]]);
  }

  /** The path is the `[Depth` lines of the prompt, in their order: entry `k` is
      line `i` of the prompt with only its trailing whitespace removed, that line
      starts with `[Depth`, and exactly `k` lines before it do. So every entry starts
      with `[Depth` and does not end with whitespace. */
  lemma PathOrigin(prompt: string, k: nat) returns (i: nat)
    requires k < |PathOf(prompt)|
    ensures var lines := Split(prompt);
      i < |lines| && IsDepthLine(lines[i]) && |Filter(IsDepthLine, lines[..i])| == k
    ensures var e := PathOf(prompt)[k];
      e == Strip(Split(prompt)[i]) && e == Split(prompt)[i][..|e|]
    ensures var e := PathOf(prompt)[k];
      StartsWith(e, DepthTag) && !IsSpace(e[|e| - 1])
  {
    var lines := Split(prompt);
    i := FilterOrigin(IsDepthLine, lines, k);
    var line := lines[i];
    StripKeepsPrefix(line, DepthTag);
    var _, _ := StripShape(line);
  }

  /** Every `[Depth` line of the prompt is on the path, at the position given by the
      number of `[Depth` lines before it. */
  lemma PathContains(prompt: string, i: nat)
    requires i < |Split(prompt)| && IsDepthLine(Split(prompt)[i])
    ensures var k := |Filter(IsDepthLine, Split(prompt)[..i])|;
      k < |PathOf(prompt)| && PathOf(prompt)[k] == Strip(Split(prompt)[i])
  {
    FilterAt(IsDepthLine, Split(prompt), i);
  }

  /** The path is empty exactly when no line starts with `[Depth`, and never longer
      than the number of lines. */
  lemma PathEmptyIff(prompt: string)
    ensures |PathOf(prompt)| <= |Split(prompt)|
    ensures PathOf(prompt) == [] <==> forall j :: 0 <= j < |Split(prompt)| ==> !IsDepthLine(Split(prompt)[j])
  {
    var lines := Split(prompt);
    if j :| 0 <= j < |lines| && IsDepthLine(lines[j]) {
      FilterAt(IsDepthLine, lines, j);
    }
    if PathOf(prompt) != [] {
      var j := FilterOrigin(IsDepthLine, lines, 0);
    }
  }

  // ---------------------------------------------------------------------------
  // create_comparison_examples
  // ---------------------------------------------------------------------------

  datatype Metadata = Metadata(predictedOutcome: string, actualOutcome: string, cumulativeProbability: real)

  /** One DPO training sample: the prompt, the chosen and rejected completions and the
      metadata the selection reads. */
  datatype Sample = Sample(prompt: string, chosen: string, rejected: string, metadata: Metadata)

  datatype ModelSaid = ModelSaid(prediction: string, labelText: string, reasoning: string)
  datatype ActualOutcome = ActualOutcome(answer: string, labelText: string, reasoning: string)

  datatype Example = Example(
    exampleNumber: nat,
    question: string,
    scenarioPath: seq<string>,
    cumulativeProbability: real,
    modelSaid: ModelSaid,
    actualOutcome: ActualOutcome,
    dpoAction: string)

  datatype Comparison = Comparison(title: string, subtitle: string, examples: seq<Example>)

  const Title: string := "DPO Training: Learning from Mistakes"
  const Subtitle: string := "Teaching the model to prefer correct predictions over incorrect ones"
  const RejectedLabel: string := "REJECTED \U{274C}"
  const RejectedReasoning: string := "Model incorrectly predicted this outcome"
  const ChosenLabel: string := "CHOSEN \U{2713}"
  const ChosenReasoning: string := "Verified historical outcome"
  const MaxExamples: nat := 3

  predicate IsWrong(s: Sample) {
    s.metadata.predictedOutcome != s.metadata.actualOutcome
  }

  predicate IsRight(s: Sample) {
    s.metadata.predictedOutcome == s.metadata.actualOutcome
  }

  /** `wrong_predictions`: only samples whose prediction missed. */
  function Wrong(samples: seq<Sample>): (wrong: seq<Sample>)
    ensures |wrong| <= |samples|
    ensures forall k :: 0 <= k < |wrong| ==> IsWrong(wrong[k])
  {
    Filter(IsWrong, samples)
  }

  /** `right_predictions`: only samples whose prediction was correct. */
  function Right(samples: seq<Sample>): (right: seq<Sample>)
    ensures |right| <= |samples|
    ensures forall k :: 0 <= k < |right| ==> IsRight(right[k])
  {
    Filter(IsRight, samples)
  }

  /** The two lists split the samples: each is an order-preserving sublist, their
      lengths add up, and together they hold every sample exactly as often as the
      input does, each on the side its outcomes decide. */
  lemma {:induction false} WrongRightPartition(samples: seq<Sample>)
    ensures IsSublist(Wrong(samples), samples) && IsSublist(Right(samples), samples)
    ensures |Wrong(samples)| + |Right(samples)| == |samples|
    ensures multiset(Wrong(samples)) + multiset(Right(samples)) == multiset(samples)
    ensures forall s :: s in Wrong(samples) <==> s in samples && IsWrong(s)
    ensures forall s :: s in Right(samples) <==> s in samples && IsRight(s)
  {
    FilterIsSublist(IsWrong, samples);
    FilterIsSublist(IsRight, samples);
    forall s ensures s in Wrong(samples) <==> s in samples && IsWrong(s) {
      FilterMember(IsWrong, samples, s);
    }
    forall s ensures s in Right(samples) <==> s in samples && IsRight(s) {
      FilterMember(IsRight, samples, s);
    }
    PartitionCount(samples);
    assert |multiset(Wrong(samples))| == |Wrong(samples)|;
    assert |multiset(Right(samples))| == |Right(samples)|;
    assert |multiset(samples)| == |samples|;
    assert |multiset(Wrong(samples)) + multiset(Right(samples))|
      == |multiset(Wrong(samples))| + |multiset(Right(samples))|;
  }

  lemma {:induction false} PartitionCount(samples: seq<Sample>)
    ensures multiset(Wrong(samples)) + multiset(Right(samples)) == multiset(samples)
  {
    if samples != [] {
      var x, tail := samples[0], samples[1..];
      PartitionCount(tail);
      assert samples == [x] + tail;
      assert Wrong(samples) == (if IsWrong(x) then [x] else []) + Wrong(tail);
      assert Right(samples) == (if IsRight(x) then [x] else []) + Right(tail);
    }
  }

  /** The `dpo_action` text. */
  function DpoAction(s: Sample): string {
    "Decrease P('" + s.rejected + "') and Increase P('" + s.chosen + "')"
  }

  /** The example record numbered `n` built from sample `s`: it reports a prediction
      different from the answer exactly when the sample is a wrong prediction, and
      copies the cumulative probability unchanged. */
  function MakeExample(n: nat, s: Sample): (e: Example)
    ensures e.exampleNumber == n
    ensures e.modelSaid.prediction != e.actualOutcome.answer <==> IsWrong(s)
    ensures e.cumulativeProbability == s.metadata.cumulativeProbability
  {
    Example(
      n,
      QuestionOf(s.prompt),
      PathOf(s.prompt),
      s.metadata.cumulativeProbability,
      ModelSaid(s.metadata.predictedOutcome, RejectedLabel, RejectedReasoning),
      ActualOutcome(s.metadata.actualOutcome, ChosenLabel, ChosenReasoning),
      DpoAction(s))
  }

  function Min(a: nat, b: nat): nat {
    if a <= b then a else b
  }

  /** The examples `create_comparison_examples` builds: one per sample among the first
      three wrong predictions, numbered from 1, each reporting a prediction that differs
      from the actual outcome and the sample's cumulative probability unchanged. */
  function ComparisonExamples(samples: seq<Sample>): (examples: seq<Example>)
    ensures |examples| == Min(MaxExamples, |Wrong(samples)|)
    ensures forall k :: 0 <= k < |examples| ==>
      examples[k].exampleNumber == k + 1
      && examples[k].modelSaid.prediction != examples[k].actualOutcome.answer
      && examples[k].cumulativeProbability == Wrong(samples)[k].metadata.cumulativeProbability
  {
    var wrong := Wrong(samples);
    var n := Min(MaxExamples, |wrong|);
    seq(n, k requires 0 <= k < n => MakeExample(k + 1, wrong[k]))
  }

  /** `create_comparison_examples` without its file and console output. */
  method CreateComparisonExamples(samples: seq<Sample>) returns (comparison: Comparison)
    ensures comparison.title == Title && comparison.subtitle == Subtitle
    ensures comparison.examples == ComparisonExamples(samples)
  {
    var wrongPredictions := Wrong(samples);
    var examples: seq<Example> := [];
    var shown := wrongPredictions[..Min(MaxExamples, |wrongPredictions|)];
    for i := 0 to |shown|
      invariant |examples| == i
      invariant forall k :: 0 <= k < i ==> examples[k] == MakeExample(k + 1, shown[k])
    {
      var sample := shown[i];
      var question := ExtractQuestion(sample.prompt);
      var path := ExtractPath(sample.prompt);
      var example := Example(
        i + 1,
        question,
        path,
        sample.metadata.cumulativeProbability,
        ModelSaid(sample.metadata.predictedOutcome, RejectedLabel, RejectedReasoning),
        ActualOutcome(sample.metadata.actualOutcome, ChosenLabel, ChosenReasoning),
        DpoAction(sample));
      assert example == MakeExample(i + 1, sample);
      examples := examples + [example];
    }
    comparison := Comparison(Title, Subtitle, examples);
  }

  /** A wrong sample is shown exactly when fewer than three wrong samples precede it;
      it then becomes the example numbered one more than that count. */
  lemma ShownWrongSample(samples: seq<Sample>, i: nat)
    requires i < |samples| && IsWrong(samples[i])
    ensures var rank := |Wrong(samples[..i])|;
      (rank < |ComparisonExamples(samples)| <==> rank < MaxExamples)
      && (rank < MaxExamples ==> ComparisonExamples(samples)[rank] == MakeExample(rank + 1, samples[i]))
  {
    FilterAt(IsWrong, samples, i);
  }

  /** Every example comes from a wrong sample, and example `k + 1` from the wrong
      sample with exactly `k` wrong samples before it. */
  lemma ExampleOrigin(samples: seq<Sample>, k: nat) returns (i: nat)
    requires k < |ComparisonExamples(samples)|
    ensures i < |samples| && IsWrong(samples[i])
    ensures |Wrong(samples[..i])| == k
    ensures ComparisonExamples(samples)[k] == MakeExample(k + 1, samples[i])
  {
    i := FilterOrigin(IsWrong, samples, k);
  }
}
