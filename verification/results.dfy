/** The analytics view of survey-results.component.ts: reducing a question's
    raw answers to a frequency table, and the small decisions around it. */
module SurveyResults {
  import opened Wrappers
  import opened Seqs
  import opened Models
  import Json

  // ---------------------------------------------------------------------------
  // Contributions
  // ---------------------------------------------------------------------------

  /** The labels one answer adds to the table. A CHECKBOX answer is read as
      JSON: an array adds each of its elements, text that does not parse adds
      itself, and any other JSON value adds nothing. Other types add the
      answer verbatim. */
  function AnswerLabels(questionType: string, answer: string): seq<string> {
    if questionType == CHECKBOX then
      match Json.Parse(answer)
      case Arr(items) => items
      case Fail => [answer]
      case NotArray => []
    else [answer]
  }

  /** Every label contributed by `answers`, in `forEach` order. */
  function Contributions(questionType: string, answers: seq<string>): seq<string> {
    if answers == [] then []
    else AnswerLabels(questionType, answers[0]) + Contributions(questionType, answers[1..])
  }

  lemma {:induction false} ContributionsConcat(questionType: string, a: seq<string>, b: seq<string>)
    ensures Contributions(questionType, a + b)
      == Contributions(questionType, a) + Contributions(questionType, b)
  {
    if a == [] {
      assert a + b == b;
    } else {
      assert (a + b)[0] == a[0];
      assert (a + b)[1..] == a[1..] + b;
      ContributionsConcat(questionType, a[1..], b);
      var x := AnswerLabels(questionType, a[0]);
      assert x + (Contributions(questionType, a[1..]) + Contributions(questionType, b))
        == x + Contributions(questionType, a[1..]) + Contributions(questionType, b);
    }
  }

  /** For RADIO and SELECT (anything but CHECKBOX) every answer is one label,
      taken verbatim. */
  lemma {:induction false} SingleChoiceContributions(questionType: string, answers: seq<string>)
    requires questionType != CHECKBOX
    ensures Contributions(questionType, answers) == answers
  {
    if answers != [] {
      SingleChoiceContributions(questionType, answers[1..]);
      assert [answers[0]] + answers[1..] == answers;
    }
  }

  /** A CHECKBOX answer that is a JSON array of strings adds each element once
      per occurrence, so a label repeated inside one array counts twice. */
  lemma CheckboxArrayAnswer(answer: string, items: seq<string>, name: string)
    requires Json.Parse(answer) == Json.Arr(items)
    ensures Occurrences(AnswerLabels(CHECKBOX, answer), name) == Occurrences(items, name)
  {
  }

  /** A CHECKBOX answer that is not JSON counts as one literal label; one that
      is JSON but not an array adds nothing. */
  lemma CheckboxFallback(answer: string)
    ensures Json.Parse(answer).Fail? ==> AnswerLabels(CHECKBOX, answer) == [answer]
    ensures Json.Parse(answer).NotArray? ==> AnswerLabels(CHECKBOX, answer) == []
  {
  }

  // ---------------------------------------------------------------------------
  // Counting, in the insertion order of a JavaScript Map
  // ---------------------------------------------------------------------------

  /** One key of the count map with its running count. */
  datatype Entry = Entry(key: string, count: nat)

  function Labels(t: seq<Entry>): seq<string> {
    seq(|t|, k requires 0 <= k < |t| => t[k].key)
  }

  function SumEntries(t: seq<Entry>): nat {
    if t == [] then 0 else t[0].count + SumEntries(t[1..])
  }

  /** `map.set(x, (map.get(x) || 0) + 1)`: an existing key keeps its place
      and gains one, a new key goes last with count one. */
  function Bump(t: seq<Entry>, x: string): seq<Entry> {
    if t == [] then [Entry(x, 1)]
    else if t[0].key == x then [Entry(x, t[0].count + 1)] + t[1..]
    else [t[0]] + Bump(t[1..], x)
  }

  /** With distinct keys, `Bump` adds one to the entry of `x`, or appends a
      new entry for it, and changes nothing else. */
  lemma {:induction false} BumpFacts(t: seq<Entry>, x: string)
    requires NoDuplicates(Labels(t))
    ensures var r := Bump(t, x);
      && |r| == (if x in Labels(t) then |t| else |t| + 1)
      && (forall k :: 0 <= k < |t| ==> (r[k].key == t[k].key
            && r[k].count == t[k].count + (if t[k].key == x then 1 else 0)))
      && (x !in Labels(t) ==> r[|t|] == Entry(x, 1))
      && SumEntries(r) == SumEntries(t) + 1
  {
    if t != [] {
      assert Labels(t[1..]) == Labels(t)[1..];
      if t[0].key == x {
        forall k | 1 <= k < |t| ensures t[k].key != x {
          assert Labels(t)[k] != Labels(t)[0];
        }
        assert Labels(t)[0] == x;
      } else {
        BumpFacts(t[1..], x);
        assert x in Labels(t) <==> x in Labels(t[1..]);
      }
    }
  }

  /** `t` is what the source's Map holds after counting `labels`: distinct
      keys in first-occurrence order, each with its number of occurrences. */
  predicate Tallies(t: seq<Entry>, labels: seq<string>) {
    && NoDuplicates(Labels(t))
    && InFirstSeenOrder(Labels(t), labels)
    && (forall k :: 0 <= k < |labels| ==> labels[k] in Labels(t))
    && (forall k :: 0 <= k < |t| ==> t[k].count == Occurrences(labels, t[k].key))
  }

  /** The count map after `forEach` over `labels`. */
  function TallyOf(labels: seq<string>): (t: seq<Entry>)
    ensures Tallies(t, labels)
    ensures SumEntries(t) == |labels|
  {
    if labels == [] then []
    else
      var prefix := labels[..|labels| - 1];
      var x := labels[|labels| - 1];
      assert labels == prefix + [x];
      var t := TallyOf(prefix);
      BumpFacts(t, x);
      BumpTallies(t, prefix, x);
      Bump(t, x)
  }

  lemma BumpLabels(t: seq<Entry>, x: string)
    requires NoDuplicates(Labels(t))
    ensures Labels(Bump(t, x)) == if x in Labels(t) then Labels(t) else Labels(t) + [x]
  {
    BumpFacts(t, x);
    var r := Bump(t, x);
    if x in Labels(t) {
      assert forall k :: 0 <= k < |r| ==> Labels(r)[k] == Labels(t)[k];
    } else {
      var e := Labels(t) + [x];
      assert |Labels(r)| == |e|;
      forall k | 0 <= k < |r| ensures Labels(r)[k] == e[k] {
        if k < |t| { assert e[k] == Labels(t)[k]; }
      }
    }
  }

  lemma BumpTallies(t: seq<Entry>, labels: seq<string>, x: string)
    requires Tallies(t, labels)
    ensures Tallies(Bump(t, x), labels + [x])
  {
    var r := Bump(t, x);
    var ls := labels + [x];
    BumpLabels(t, x);
    FirstSeenExtend(Labels(t), labels, x);
    if x !in Labels(t) {
      assert x !in labels;
      assert NoDuplicates(Labels(r)) by {
        forall i, j | 0 <= i < j < |r| ensures Labels(r)[i] != Labels(r)[j] {
          if j < |t| { assert Labels(t)[i] != Labels(t)[j]; }
        }
      }
    }
    forall k | 0 <= k < |ls| ensures ls[k] in Labels(r) {
      if k < |labels| { assert ls[k] == labels[k]; }
    }
    BumpCounts(t, labels, x);
  }

  lemma BumpCounts(t: seq<Entry>, labels: seq<string>, x: string)
    requires Tallies(t, labels)
    ensures var r := Bump(t, x);
      forall k :: 0 <= k < |r| ==> r[k].count == Occurrences(labels + [x], r[k].key)
  {
    BumpFacts(t, x);
    var r := Bump(t, x);
    forall k | 0 <= k < |r| ensures r[k].count == Occurrences(labels + [x], r[k].key) {
      OccurrencesConcat(labels, [x], r[k].key);
      if k == |t| {
        assert x !in labels;
      } else {
        assert Labels(t)[k] == t[k].key;
      }
    }
  }

  // ---------------------------------------------------------------------------
  // Rows, percentages and the sort
  // ---------------------------------------------------------------------------

  /** `total > 0 ? (count / total) * 100 : 0`, over the reals. */
  function Percentage(count: nat, total: int): (p: real)
    ensures p >= 0.0
    ensures total <= 0 ==> p == 0.0
    ensures total > 0 && count <= total ==> p <= 100.0
  {
    if total > 0 then (count as real) * 100.0 / (total as real) else 0.0
  }

  function ToRows(t: seq<Entry>, total: int): (rows: seq<OptionCount>)
    ensures |rows| == |t|
  {
    seq(|t|, k requires 0 <= k < |t| => OptionCount(t[k].key, t[k].count, Percentage(t[k].count, total)))
  }

  function SumCounts(rows: seq<OptionCount>): nat {
    if rows == [] then 0 else rows[0].count + SumCounts(rows[1..])
  }

  /** Counts never increase along the sequence. */
  predicate Descending(rows: seq<OptionCount>) {
    forall i, j :: 0 <= i < j < |rows| ==> rows[i].count >= rows[j].count
  }

  /** Puts `x` in front of the first row whose count is not greater, so rows
      with the count of `x` that came after it in the input stay after it. */
  function Insert(x: OptionCount, t: seq<OptionCount>): seq<OptionCount> {
    if t == [] || t[0].count <= x.count then [x] + t
    else [t[0]] + Insert(x, t[1..])
  }

  lemma {:induction false} InsertElements(x: OptionCount, t: seq<OptionCount>)
    ensures |Insert(x, t)| == |t| + 1
    ensures multiset(Insert(x, t)) == multiset(t) + multiset{x}
    ensures forall y :: y in Insert(x, t) <==> y == x || y in t
    ensures SumCounts(Insert(x, t)) == x.count + SumCounts(t)
  {
    if t != [] && t[0].count > x.count {
      InsertElements(x, t[1..]);
      assert t == [t[0]] + t[1..];
    }
  }

  lemma {:induction false} InsertDescending(x: OptionCount, t: seq<OptionCount>)
    requires Descending(t)
    ensures Descending(Insert(x, t))
  {
    if t != [] && t[0].count > x.count {
      InsertDescending(x, t[1..]);
      InsertElements(x, t[1..]);
      var r := Insert(x, t[1..]);
      forall k | 0 <= k < |r| ensures r[k].count <= t[0].count {
        assert r[k] in r;
      }
    }
  }

  /** No option is listed twice. */
  predicate DistinctOptions(rows: seq<OptionCount>) {
    forall i, j :: 0 <= i < j < |rows| ==> rows[i].option != rows[j].option
  }

  lemma {:induction false} InsertDistinct(x: OptionCount, t: seq<OptionCount>)
    requires DistinctOptions(t)
    requires forall k :: 0 <= k < |t| ==> t[k].option != x.option
    ensures DistinctOptions(Insert(x, t))
  {
    if t != [] && t[0].count > x.count {
      InsertDistinct(x, t[1..]);
      InsertElements(x, t[1..]);
      var r := Insert(x, t[1..]);
      forall k | 0 <= k < |r| ensures r[k].option != t[0].option {
        assert r[k] in r;
      }
    }
  }

  /** `rows.sort((a, b) => b.count - a.count)`: a stable sort by count,
      largest first (Array.prototype.sort is stable since ECMAScript 2019). */
  function SortByCount(rows: seq<OptionCount>): (r: seq<OptionCount>)
    ensures multiset(r) == multiset(rows) && |r| == |rows|
    ensures forall y :: y in r <==> y in rows
    ensures SumCounts(r) == SumCounts(rows)
    ensures Descending(r)
    ensures DistinctOptions(rows) ==> DistinctOptions(r)
  {
    if rows == [] then []
    else
      var s := SortByCount(rows[1..]);
      SortStep(rows, s);
      Insert(rows[0], s)
  }

  /** Inserting the first row into the sorted rest sorts the whole. */
  lemma SortStep(rows: seq<OptionCount>, s: seq<OptionCount>)
    requires rows != []
    requires multiset(s) == multiset(rows[1..]) && |s| == |rows| - 1
    requires forall y :: y in s <==> y in rows[1..]
    requires SumCounts(s) == SumCounts(rows[1..])
    requires Descending(s)
    requires DistinctOptions(rows[1..]) ==> DistinctOptions(s)
    ensures var r := Insert(rows[0], s);
      && multiset(r) == multiset(rows) && |r| == |rows|
      && (forall y :: y in r <==> y in rows)
      && SumCounts(r) == SumCounts(rows)
      && Descending(r)
      && (DistinctOptions(rows) ==> DistinctOptions(r))
  {
    assert rows == [rows[0]] + rows[1..];
    InsertElements(rows[0], s);
    InsertDescending(rows[0], s);
    SortDistinct(rows, s);
  }

  lemma SortDistinct(rows: seq<OptionCount>, s: seq<OptionCount>)
    requires rows != [] && (DistinctOptions(rows[1..]) ==> DistinctOptions(s))
    requires forall y :: y in s <==> y in rows[1..]
    ensures DistinctOptions(rows) ==> DistinctOptions(Insert(rows[0], s))
  {
    if DistinctOptions(rows) {
      assert DistinctOptions(rows[1..]) by {
        forall i, j | 0 <= i < j < |rows| - 1 ensures rows[1..][i].option != rows[1..][j].option {
          assert rows[i + 1].option != rows[j + 1].option;
        }
      }
      forall k | 0 <= k < |s| ensures s[k].option != rows[0].option {
        assert s[k] in rows[1..];
      }
      InsertDistinct(rows[0], s);
    }
  }

  /** Position of a label's first contribution; labels never contributed
      come last. */
  function Rank(labels: seq<string>, x: string): nat {
    if x in labels then FirstIndex(labels, x) else |labels|
  }

  /** Larger counts first, and equal counts in first-occurrence order. */
  predicate CountThenFirstSeen(rows: seq<OptionCount>, labels: seq<string>) {
    forall i, j :: 0 <= i < j < |rows| ==>
      rows[i].count > rows[j].count
      || (rows[i].count == rows[j].count && Rank(labels, rows[i].option) < Rank(labels, rows[j].option))
  }

  lemma {:induction false} InsertFirstSeen(x: OptionCount, t: seq<OptionCount>, labels: seq<string>)
    requires CountThenFirstSeen(t, labels)
    requires forall k :: 0 <= k < |t| ==> Rank(labels, x.option) < Rank(labels, t[k].option)
    ensures CountThenFirstSeen(Insert(x, t), labels)
  {
    if t == [] || t[0].count <= x.count {
    } else {
      InsertFirstSeen(x, t[1..], labels);
      var r := Insert(x, t);
      var ins := Insert(x, t[1..]);
      assert r == [t[0]] + ins;
      InsertElements(x, t[1..]);
      forall k | 0 <= k < |ins|
        ensures t[0].count > ins[k].count
          || (t[0].count == ins[k].count && Rank(labels, t[0].option) < Rank(labels, ins[k].option))
      {
        assert ins[k] in ins;
      }
    }
  }

  /** The stable sort of rows listed in first-occurrence order orders equal
      counts by first occurrence. */
  lemma {:induction false} SortFirstSeen(rows: seq<OptionCount>, labels: seq<string>)
    requires forall i, j :: 0 <= i < j < |rows| ==> Rank(labels, rows[i].option) < Rank(labels, rows[j].option)
    ensures CountThenFirstSeen(SortByCount(rows), labels)
  {
    if rows != [] {
      SortFirstSeen(rows[1..], labels);
      var s := SortByCount(rows[1..]);
      forall k | 0 <= k < |s| ensures Rank(labels, rows[0].option) < Rank(labels, s[k].option) {
        assert s[k] in s;
      }
      InsertFirstSeen(rows[0], s, labels);
    }
  }

  // ---------------------------------------------------------------------------
  // processOptionsData
  // ---------------------------------------------------------------------------

  function Options(rows: seq<OptionCount>): seq<string> {
    seq(|rows|, k requires 0 <= k < |rows| => rows[k].option)
  }

  /** `processOptionsData(question)`: one row per distinct contributed label,
      with its number of contributions and its share of `totalAnswers`,
      largest count first and equal counts in first-occurrence order. */
  function ProcessOptionsData(q: QuestionAnalytics): (r: seq<OptionCount>)
    ensures var labels := Contributions(q.questionType, q.answers);
      && DistinctOptions(r)
      && (forall k :: 0 <= k < |r| ==> r[k].option in labels)
      && (forall k :: 0 <= k < |labels| ==> labels[k] in Options(r))
      && (forall k :: 0 <= k < |r| ==> r[k].count == Occurrences(labels, r[k].option))
      && (forall k :: 0 <= k < |r| ==> r[k].percentage == Percentage(r[k].count, q.totalAnswers))
      && SumCounts(r) == |labels|
      && CountThenFirstSeen(r, labels)
  {
    Table(Contributions(q.questionType, q.answers), q.totalAnswers)
  }

  /** The table built from a sequence of contributed labels: the tally's rows
      sorted by count. */
  function Table(labels: seq<string>, total: int): (r: seq<OptionCount>)
    ensures && DistinctOptions(r)
      && (forall k :: 0 <= k < |r| ==> r[k].option in labels)
      && (forall k :: 0 <= k < |labels| ==> labels[k] in Options(r))
      && (forall k :: 0 <= k < |r| ==> r[k].count == Occurrences(labels, r[k].option))
      && (forall k :: 0 <= k < |r| ==> r[k].percentage == Percentage(r[k].count, total))
      && SumCounts(r) == |labels|
      && CountThenFirstSeen(r, labels)
  {
    TableContents(labels, total);
    TableOrder(labels, total);
    SortByCount(ToRows(TallyOf(labels), total))
  }

  /** The sorted rows are exactly the tallied labels, each with its count
      and share. */
  lemma TableContents(labels: seq<string>, total: int)
    ensures var r := SortByCount(ToRows(TallyOf(labels), total));
      && (forall k :: 0 <= k < |r| ==> r[k].option in labels)
      && (forall k :: 0 <= k < |labels| ==> labels[k] in Options(r))
      && (forall k :: 0 <= k < |r| ==> r[k].count == Occurrences(labels, r[k].option))
      && (forall k :: 0 <= k < |r| ==> r[k].percentage == Percentage(r[k].count, total))
  {
    var t := TallyOf(labels);
    var rows := ToRows(t, total);
    RowsFacts(t, labels, total);
    var r := SortByCount(rows);
    SortedOptions(rows, r, labels);
    SortedRows(rows, r, labels, total);
  }

  /** The sorted rows have distinct labels, add up to every contribution and
      are ordered by count, then by first occurrence. */
  lemma TableOrder(labels: seq<string>, total: int)
    ensures var r := SortByCount(ToRows(TallyOf(labels), total));
      && DistinctOptions(r)
      && SumCounts(r) == |labels|
      && CountThenFirstSeen(r, labels)
  {
    var t := TallyOf(labels);
    var rows := ToRows(t, total);
    RowsFacts(t, labels, total);
    SortFirstSeen(rows, labels);
  }

  /** What `processOptionsData` promises of each single row. */
  predicate RowAgrees(row: OptionCount, labels: seq<string>, total: int) {
    && row.option in labels
    && row.count == Occurrences(labels, row.option)
    && row.percentage == Percentage(row.count, total)
  }

  lemma SortedRows(rows: seq<OptionCount>, r: seq<OptionCount>, labels: seq<string>, total: int)
    requires forall y :: y in r <==> y in rows
    requires forall k :: 0 <= k < |rows| ==> rows[k].option in labels
    requires forall k :: 0 <= k < |rows| ==> rows[k].count == Occurrences(labels, rows[k].option)
    requires forall k :: 0 <= k < |rows| ==> rows[k].percentage == Percentage(rows[k].count, total)
    ensures forall k :: 0 <= k < |r| ==> RowAgrees(r[k], labels, total)
  {
    forall k | 0 <= k < |r| ensures RowAgrees(r[k], labels, total) {
      assert r[k] in rows;
      var i :| 0 <= i < |rows| && rows[i] == r[k];
    }
  }

  lemma RowsFacts(t: seq<Entry>, labels: seq<string>, total: int)
    requires Tallies(t, labels) && SumEntries(t) == |labels|
    ensures var rows := ToRows(t, total);
      && DistinctOptions(rows)
      && (forall k :: 0 <= k < |rows| ==> rows[k].option in labels)
      && (forall k :: 0 <= k < |labels| ==> labels[k] in Options(rows))
      && (forall k :: 0 <= k < |rows| ==> rows[k].count == Occurrences(labels, rows[k].option))
      && (forall k :: 0 <= k < |rows| ==> rows[k].percentage == Percentage(rows[k].count, total))
      && (forall i, j :: 0 <= i < j < |rows| ==> Rank(labels, rows[i].option) < Rank(labels, rows[j].option))
      && SumCounts(rows) == |labels|
  {
    var rows := ToRows(t, total);
    assert Options(rows) == Labels(t);
    forall k | 0 <= k < |rows| ensures rows[k].option in labels && rows[k].count == Occurrences(labels, rows[k].option) {
      assert Labels(t)[k] == t[k].key;
    }
    forall i, j | 0 <= i < j < |rows| ensures rows[i].option != rows[j].option {
      assert Labels(t)[i] != Labels(t)[j];
    }
    SumRows(t, total);
  }

  lemma {:induction false} SumRows(t: seq<Entry>, total: int)
    ensures SumCounts(ToRows(t, total)) == SumEntries(t)
  {
    if t != [] {
      SumRows(t[1..], total);
      assert ToRows(t, total)[1..] == ToRows(t[1..], total);
    }
  }

  /** The sort keeps the rows, so every contributed label still has one. */
  lemma SortedOptions(rows: seq<OptionCount>, r: seq<OptionCount>, labels: seq<string>)
    requires forall y :: y in r <==> y in rows
    requires forall k :: 0 <= k < |labels| ==> labels[k] in Options(rows)
    ensures forall k :: 0 <= k < |labels| ==> labels[k] in Options(r)
  {
    forall k | 0 <= k < |labels| ensures labels[k] in Options(r) {
      var i :| 0 <= i < |rows| && Options(rows)[i] == labels[k];
      assert rows[i] in r;
      var j :| 0 <= j < |r| && r[j] == rows[i];
      assert Options(r)[j] == labels[k];
    }
  }
}

module SurveyResultsViews {
  import opened Wrappers
  import opened Seqs
  import opened Models
  import opened SurveyResults
  import Json

  /** For RADIO and SELECT the table counts every answer verbatim exactly
      once: the counts are the answers' multiplicities and add up to the
      number of answers. */
  lemma SingleChoiceTable(q: QuestionAnalytics)
    requires q.questionType != CHECKBOX
    ensures var r := ProcessOptionsData(q);
      && SumCounts(r) == |q.answers|
      && (forall k :: 0 <= k < |r| ==> r[k].option in q.answers && r[k].count == Occurrences(q.answers, r[k].option))
      && (forall k :: 0 <= k < |q.answers| ==> q.answers[k] in Options(r))
  {
    SingleChoiceContributions(q.questionType, q.answers);
  }

  /** No answers, no rows. */
  lemma NoAnswersNoRows(q: QuestionAnalytics)
    requires q.answers == []
    ensures ProcessOptionsData(q) == []
  {
  }

  /** Percentages are never negative, are all zero when the server reports
      no answers, and are the count's share of `totalAnswers` otherwise. */
  lemma PercentageRule(q: QuestionAnalytics)
    ensures var r := ProcessOptionsData(q);
      forall k :: 0 <= k < |r| ==>
        && r[k].percentage >= 0.0
        && (q.totalAnswers <= 0 ==> r[k].percentage == 0.0)
        && (q.totalAnswers > 0 ==> r[k].percentage == (r[k].count as real) * 100.0 / (q.totalAnswers as real))
  {
    var r := ProcessOptionsData(q);
    var labels := Contributions(q.questionType, q.answers);
    forall k | 0 <= k < |r|
      ensures && r[k].percentage >= 0.0
        && (q.totalAnswers <= 0 ==> r[k].percentage == 0.0)
        && (q.totalAnswers > 0 ==> r[k].percentage == (r[k].count as real) * 100.0 / (q.totalAnswers as real))
    {
      var p := Percentage(r[k].count, q.totalAnswers);
      assert r[k].percentage == p by {
        assert RowAgrees(r[k], labels, q.totalAnswers);
      }
    }
  }

  /** With one label per answer and a denominator no smaller than the number
      of answers, no percentage exceeds 100. */
  lemma SingleChoiceAtMost100(q: QuestionAnalytics)
    requires q.questionType != CHECKBOX && q.totalAnswers >= |q.answers|
    ensures var r := ProcessOptionsData(q);
      forall k :: 0 <= k < |r| ==> 0.0 <= r[k].percentage <= 100.0
  {
    SingleChoiceTable(q);
    PercentageRule(q);
  }

  /** Distinct options drawn from two labels make at most two rows, and
      from one label at most one. */
  lemma FewLabelsFewRows(r: seq<OptionCount>, a: string, b: string)
    requires forall k :: 0 <= k < |r| ==> r[k].option == a || r[k].option == b
    ensures DistinctOptions(r) ==> |r| <= 2
    ensures DistinctOptions(r) && a == b ==> |r| <= 1
  {
    if |r| > 2 {
      assert r[0].option == r[1].option || r[0].option == r[2].option || r[1].option == r[2].option;
    }
    if |r| > 1 && a == b {
      assert r[0].option == r[1].option;
    }
  }

  /** When every contribution is one of two labels, the more frequent one
      heads a two-row table. */
  lemma TwoLabelTable(labels: seq<string>, total: int, a: string, b: string)
    requires a != b
    requires forall k :: 0 <= k < |labels| ==> labels[k] == a || labels[k] == b
    requires Occurrences(labels, a) > Occurrences(labels, b) > 0
    ensures var na := Occurrences(labels, a);
      var nb := Occurrences(labels, b);
      Table(labels, total) == [OptionCount(a, na, Percentage(na, total)), OptionCount(b, nb, Percentage(nb, total))]
  {
    var na := Occurrences(labels, a);
    var nb := Occurrences(labels, b);
    var r := Table(labels, total);
    TwoLabelRows(labels, total, a, b);
    assert r[0].count >= r[1].count;
    TwoRowsInOrder(r, OptionCount(a, na, Percentage(na, total)), OptionCount(b, nb, Percentage(nb, total)));
  }

  /** Two rows for two labels, larger count first, are the row of the more
      frequent label and then the other. */
  lemma TwoRowsInOrder(r: seq<OptionCount>, a: OptionCount, b: OptionCount)
    requires |r| == 2 && r[0].option != r[1].option && r[0].count >= r[1].count
    requires a.count > b.count
    requires forall k :: 0 <= k < |r| ==> r[k].option == a.option || r[k].option == b.option
    requires forall k :: 0 <= k < |r| && r[k].option == a.option ==> r[k] == a
    requires forall k :: 0 <= k < |r| && r[k].option == b.option ==> r[k] == b
    ensures r == [a, b]
  {
    assert r[0] == a && r[1] == b;
  }

  lemma TwoLabelRows(labels: seq<string>, total: int, a: string, b: string)
    requires a != b
    requires forall k :: 0 <= k < |labels| ==> labels[k] == a || labels[k] == b
    requires Occurrences(labels, a) > 0 && Occurrences(labels, b) > 0
    ensures var r := Table(labels, total);
      |r| == 2 && (forall k :: 0 <= k < |r| ==> r[k].option == a || r[k].option == b)
  {
    var r := Table(labels, total);
    forall k | 0 <= k < |r| ensures r[k].option == a || r[k].option == b {
      var i := FirstIndex(labels, r[k].option);
    }
    FewLabelsFewRows(r, a, b);
    var ia := FirstIndex(labels, a);
    var ib := FirstIndex(labels, b);
    assert labels[ia] in Options(r) && labels[ib] in Options(r);
  }

  /** When every contribution is the same label, the table has one row. */
  lemma OneLabelTable(labels: seq<string>, total: int, a: string)
    requires labels != []
    requires forall k :: 0 <= k < |labels| ==> labels[k] == a
    ensures var n := |labels|;
      Table(labels, total) == [OptionCount(a, n, Percentage(n, total))]
  {
    var r := Table(labels, total);
    forall k | 0 <= k < |r| ensures r[k].option == a {
      var i := FirstIndex(labels, r[k].option);
    }
    assert labels[0] in Options(r);
    FewLabelsFewRows(r, a, a);
    assert SumCounts(r) == r[0].count + SumCounts(r[1..]);
  }

  /** A worked table: four RADIO answers, three of them `a`. */
  lemma RadioExample(a: string, b: string)
    requires a != b
    ensures ProcessOptionsData(QuestionAnalytics(1, "Q", RADIO, 4, [a, b, a, a]))
      == [OptionCount(a, 3, 75.0), OptionCount(b, 1, 25.0)]
  {
    var answers := [a, b, a, a];
    SingleChoiceContributions(RADIO, answers);
    CountFour(a, b);
    TwoLabelTable(answers, 4, a, b);
    assert Percentage(3, 4) == 75.0 && Percentage(1, 4) == 25.0;
  }

  lemma CountFour(a: string, b: string)
    requires a != b
    ensures Occurrences([a, b, a, a], a) == 3 && Occurrences([a, b, a, a], b) == 1
  {
    var s := [a, b, a, a];
    assert s[1..] == [b, a, a] && s[1..][1..] == [a, a] && s[1..][1..][1..] == [a];
    assert Occurrences([a], a) == 1 && Occurrences([a], b) == 0;
    assert Occurrences([a, a], a) == 2 && Occurrences([a, a], b) == 0;
    assert Occurrences([b, a, a], a) == 2 && Occurrences([b, a, a], b) == 1;
  }

  /** One stored CHECKBOX answer contributes exactly its selection. */
  lemma SingleSelection(selected: seq<string>)
    ensures Contributions(CHECKBOX, [Json.Stringify(selected)]) == selected
  {
    var v := Json.Stringify(selected);
    CheckboxRoundTrip(selected);
    assert AnswerLabels(CHECKBOX, v) == selected;
    assert [v][0] == v && [v][1..] == [];
    assert Contributions(CHECKBOX, [v]) == AnswerLabels(CHECKBOX, v) + Contributions(CHECKBOX, []);
  }

  /** A repeated label inside one CHECKBOX array counts twice, so with the
      server's `totalAnswers` of one respondent its share is 200. */
  lemma RepeatedLabelExceeds100(a: string)
    ensures ProcessOptionsData(QuestionAnalytics(1, "Q", CHECKBOX, 1, [Json.Stringify([a, a])]))
      == [OptionCount(a, 2, 200.0)]
  {
    SingleSelection([a, a]);
    OneLabelTable([a, a], 1, a);
    assert Percentage(2, 1) == 200.0;
  }

  /** An empty JSON array answer adds nothing, so a CHECKBOX question whose
      only respondent ticked nothing has no rows at all. */
  lemma EmptySelectionAddsNothing()
    ensures ProcessOptionsData(QuestionAnalytics(1, "Q", CHECKBOX, 1, [Json.Stringify([])])) == []
  {
    SingleSelection([]);
    NoLabelsNoRows(QuestionAnalytics(1, "Q", CHECKBOX, 1, [Json.Stringify([])]));
  }

  /** Answers that contribute no label make no rows. */
  lemma NoLabelsNoRows(q: QuestionAnalytics)
    requires Contributions(q.questionType, q.answers) == []
    ensures ProcessOptionsData(q) == []
  {
    assert TallyOf([]) == [];
    assert ToRows([], q.totalAnswers) == [];
    assert SortByCount([]) == [];
  }

  /** `parseCheckboxAnswer(value)`: the array when the value is a JSON array
      of strings, otherwise the value itself as the only element. It agrees
      with the table's reading of a CHECKBOX answer except on JSON that is
      not an array, which the table drops and this keeps. */
  function ParseCheckboxAnswer(value: string): (r: seq<string>)
    ensures r == [] ==> Json.Parse(value) == Json.Arr([])
  {
    match Json.Parse(value)
    case Arr(items) => items
    case _ => [value]
  }

  /** Wherever the value is an array or not JSON at all, both readings give
      the same labels. */
  lemma CheckboxReadingsAgree(value: string)
    requires !Json.Parse(value).NotArray?
    ensures ParseCheckboxAnswer(value) == AnswerLabels(CHECKBOX, value)
  {
  }

  /** JSON that is not an array is one label here and none in the table. */
  lemma CheckboxReadingsDiffer(value: string)
    requires Json.Parse(value).NotArray?
    ensures ParseCheckboxAnswer(value) == [value] && AnswerLabels(CHECKBOX, value) == []
  {
  }

  /** A JSON number such as `42` as a CHECKBOX answer: the table drops it,
      while `parseCheckboxAnswer` keeps it as a one-element selection. */
  lemma NumberDivergence(value: string)
    requires value != [] && value[0] != '0'
    requires forall k :: 0 <= k < |value| ==> Json.IsDigit(value[k])
    ensures AnswerLabels(CHECKBOX, value) == [] && ParseCheckboxAnswer(value) == [value]
  {
    Json.NumeralIsNotArray(value);
  }

  /** Text that is not JSON at all (a word such as `Red`) is a literal label
      for both readings. */
  lemma WordIsLiteral(value: string)
    requires value != [] && Json.CannotStartJson(value[0])
    ensures AnswerLabels(CHECKBOX, value) == [value] == ParseCheckboxAnswer(value)
  {
    Json.NotJsonStart(value);
  }

  /** Decoding what the answer form stored for a CHECKBOX question gives back
      the selection. */
  lemma CheckboxRoundTrip(selected: seq<string>)
    ensures ParseCheckboxAnswer(Json.Stringify(selected)) == selected
    ensures AnswerLabels(CHECKBOX, Json.Stringify(selected)) == selected
  {
    Json.StringifyRoundTrip(selected);
  }

  /** The CHECKBOX answers as the answer form stores them. */
  function StoredSelections(selections: seq<seq<string>>): seq<string> {
    seq(|selections|, i requires 0 <= i < |selections| => Json.Stringify(selections[i]))
  }

  function Flatten(selections: seq<seq<string>>): seq<string> {
    if selections == [] then [] else selections[0] + Flatten(selections[1..])
  }

  /** Aggregating stored CHECKBOX answers counts exactly the selected
      options, each respondent contributing one per selected label. */
  lemma {:induction false} CheckboxContributions(selections: seq<seq<string>>)
    ensures Contributions(CHECKBOX, StoredSelections(selections)) == Flatten(selections)
  {
    if selections != [] {
      var stored := StoredSelections(selections);
      assert stored[1..] == StoredSelections(selections[1..]);
      CheckboxRoundTrip(selections[0]);
      CheckboxContributions(selections[1..]);
    }
  }

  /** So a label's count is the number of times it was selected. */
  lemma CheckboxCounts(q: QuestionAnalytics, selections: seq<seq<string>>)
    requires q.questionType == CHECKBOX && q.answers == StoredSelections(selections)
    ensures var r := ProcessOptionsData(q);
      && SumCounts(r) == |Flatten(selections)|
      && forall k :: 0 <= k < |r| ==> r[k].count == Occurrences(Flatten(selections), r[k].option)
  {
    CheckboxContributions(selections);
  }

  /** `hasOptions(type)`: the types answered by picking options. */
  function HasOptions(questionType: string): (b: bool)
    ensures b <==> questionType == RADIO || questionType == CHECKBOX || questionType == SELECT
  {
    questionType in ChoiceTypes
  }

  /** `getQuestionTypeLabel(type)`: the display name of a known type, the
      type itself otherwise. */
  function QuestionTypeLabel(questionType: string): (r: string)
    ensures r == questionType <==> questionType !in KnownTypes
  {
    if questionType == TEXT then "Texto Corto"
    else if questionType == TEXTAREA then "Texto Largo"
    else if questionType == RADIO then "Opción Única"
    else if questionType == CHECKBOX then "Opción Múltiple"
    else if questionType == SELECT then "Lista Desplegable"
    else questionType
  }

  const KnownTypes: seq<string> := [TEXT, TEXTAREA, RADIO, CHECKBOX, SELECT]

  /** Unknown types come back unchanged, and the five known types get five
      different labels none of which is itself a type name. */
  lemma QuestionTypeLabels(questionType: string)
    ensures questionType !in KnownTypes ==> QuestionTypeLabel(questionType) == questionType
    ensures forall i, j :: 0 <= i < j < |KnownTypes| ==> QuestionTypeLabel(KnownTypes[i]) != QuestionTypeLabel(KnownTypes[j])
    ensures forall i :: 0 <= i < |KnownTypes| ==> QuestionTypeLabel(KnownTypes[i]) !in KnownTypes
  {
    KnownTypeLabels();
  }

  /** The label of each known type, spelled out. */
  lemma KnownTypeLabels()
    ensures QuestionTypeLabel(KnownTypes[0]) == "Texto Corto"
    ensures QuestionTypeLabel(KnownTypes[1]) == "Texto Largo"
    ensures QuestionTypeLabel(KnownTypes[2]) == "Opción Única"
    ensures QuestionTypeLabel(KnownTypes[3]) == "Opción Múltiple"
    ensures QuestionTypeLabel(KnownTypes[4]) == "Lista Desplegable"
  {
  }

  /** The two tabs of the results page. */
  datatype View = AnalyticsView | ResponsesView

  /** `switchView(view)`: the new tab, and whether `loadResponses` is
      called, which happens only when switching to the responses while the
      list is empty. */
  function SwitchView(view: View, loadedResponses: nat): (r: (View, bool))
    ensures r.0 == view
    ensures r.1 <==> view == ResponsesView && loadedResponses == 0
  {
    (view, view == ResponsesView && loadedResponses == 0)
  }

  /** The number of `loadResponses` calls a run of tab switches makes,
      starting with `loaded` responses on the page, when each reply comes
      back before the next switch with `served` responses (the reply then
      replaces the list). */
  function Fetches(views: seq<View>, loaded: nat, served: nat): (n: nat)
    ensures n <= |views|
    decreases |views|
  {
    if views == [] then 0
    else
      var (_, fetch) := SwitchView(views[0], loaded);
      (if fetch then 1 else 0) + Fetches(views[1..], if fetch then served else loaded, served)
  }

  /** With responses on the page, switching never calls `loadResponses`. */
  lemma {:induction false} LoadedNeverFetches(views: seq<View>, loaded: nat, served: nat)
    requires loaded > 0
    ensures Fetches(views, loaded, served) == 0
    decreases |views|
  {
    if views != [] {
      LoadedNeverFetches(views[1..], loaded, served);
    }
  }

  /** A survey with responses has them loaded at most once, however often
      the user switches tabs, as long as each reply lands before the next
      switch. */
  lemma {:induction false} FetchAtMostOnce(views: seq<View>, served: nat)
    requires served > 0
    ensures Fetches(views, 0, served) <= 1
    decreases |views|
  {
    if views != [] {
      if views[0] == ResponsesView {
        LoadedNeverFetches(views[1..], served, served);
      } else {
        FetchAtMostOnce(views[1..], served);
      }
    }
  }

  /** While the list stays empty, every switch to the responses tab calls
      `loadResponses` again, since the empty list looks as if nothing was
      loaded: so it is for a survey without responses, and so it is for any
      survey while the first reply is still on its way. */
  lemma {:induction false} EmptyRefetched(views: seq<View>)
    ensures Fetches(views, 0, 0) == Occurrences(views, ResponsesView)
    decreases |views|
  {
    if views != [] {
      EmptyRefetched(views[1..]);
    }
  }
}
