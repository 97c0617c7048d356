/** What a successful report guarantees, and a table on which the reliability computed
    by the script exceeds 1. */
module AnalyzeLaws {
  import opened Text
  import opened Analyze

  /** The question loop yields one record per question, each from a question that at
      least two students answered. */
  lemma {:induction false} ItemsFromShape(ss: seq<Student>, names: seq<string>, sigSq: real, q: nat)
    requires q <= |names|
    requires ItemsFrom(ss, names, sigSq, q).Ok?
    ensures |ItemsFrom(ss, names, sigSq, q).value| == |names| - q
    ensures forall k :: q <= k < |names| ==>
              && Answered(ss, k) >= 2
              && ItemsFrom(ss, names, sigSq, q).value[k - q]
                 == Item(names[k], CountsAt(ss, k), Answered(ss, k), SumsAt(ss, k))
    decreases |names| - q
  {
    if q < |names| {
      ItemsFromShape(ss, names, sigSq, q + 1);
      var items := ItemsFrom(ss, names, sigSq, q).value;
      var rest := ItemsFrom(ss, names, sigSq, q + 1).value;
      assert Answered(ss, q) >= 2 && sigSq != 0.0;
      assert items == [Item(names[q], CountsAt(ss, q), Answered(ss, q), SumsAt(ss, q))] + rest;
    }
  }

  /** Every question record has at least two answers, a difficulty in [0, 1] and
      group means in [0, c] when every score lies in [0, c]. */
  lemma ItemsFacts(ss: seq<Student>, names: seq<string>, sigSq: real, c: nat)
    requires ItemsFrom(ss, names, sigSq, 0).Ok?
    requires forall i :: 0 <= i < |ss| ==> ss[i].score <= c
    ensures var items := ItemsFrom(ss, names, sigSq, 0).value;
            && |items| == |names|
            && forall i :: 0 <= i < |items| ==>
                 && items[i].answered >= 2
                 && 0.0 <= items[i].difficulty <= 1.0
                 && |items[i].meanIn| == Buckets && |items[i].meanOut| == Buckets
                 && forall b :: 0 <= b < Buckets ==>
                      0.0 <= items[i].meanIn[b] <= c as real && 0.0 <= items[i].meanOut[b] <= c as real
  {
    ItemsFromShape(ss, names, sigSq, 0);
    var items := ItemsFrom(ss, names, sigSq, 0).value;
    forall i | 0 <= i < |items|
      ensures && items[i].answered >= 2
              && 0.0 <= items[i].difficulty <= 1.0
              && |items[i].meanIn| == Buckets && |items[i].meanOut| == Buckets
              && forall b :: 0 <= b < Buckets ==>
                   0.0 <= items[i].meanIn[b] <= c as real && 0.0 <= items[i].meanOut[b] <= c as real
    {
      assert items[i - 0] == Item(names[i], CountsAt(ss, i), Answered(ss, i), SumsAt(ss, i));
      ItemBounds(ss, i, c, names[i]);
    }
  }

  /** The statistics of students with one nonempty response list per question and
      scores in [0, n_q]: see ReportFacts. */
  lemma StatisticsFacts(ss: seq<Student>, names: seq<string>)
    requires Statistics(ss, names).Ok?
    requires forall i :: 0 <= i < |ss| ==> |ss[i].responses| == |names| && ss[i].responses != []
    requires forall i :: 0 <= i < |ss| ==> ss[i].score <= |names|
    ensures var r := Statistics(ss, names).value;
            && 2 <= r.nStudents == |ss|
            && 2 <= r.nQuestions == |names|
            && 0.0 <= r.average <= r.nQuestions as real
            && r.sigSq > 0.0 && !AllEqual(Scores(ss))
            && (forall i :: 0 <= i < |ss| ==> r.minScore <= ss[i].score <= r.maxScore)
            && 0.0 <= r.pq <= r.nQuestions as real / 4.0
            && r.kr20 == KR20(r.nQuestions, r.pq, r.sigSq) && r.kr20 < 1.0
            && r.items == ItemsFrom(ss, names, r.sigSq, 0).value
  {
    var nq := |names|;
    var xs := Scores(ss);
    assert |ss| >= 2;
    assert nq >= 1 by { assert |ss[0].responses| == nq && ss[0].responses != []; }
    SigSqSign(xs);
    MinMaxBounds(MaxSize, -MaxSize - 1, xs);
    SumBound(xs, nq);
    MeanBound(Sum(xs), |ss|, nq);
    PQBounds(ss, nq);
  }

  /** A report is produced only for at least two retained students and two questions and
      scores that are not all equal; its average lies in [0, n_q], every score lies
      between its minimum and maximum, 0 ≤ pq ≤ n_q/4, its KR-20 is the formula's value
      and below 1, and every question record has at least two answers, a difficulty in
      [0, 1] and group means in [0, n_q]. */
  lemma ReportFacts(fields: seq<string>, rows: seq<Row>, nskip: int)
    requires RowsComplete(fields, rows)
    requires Analysis(fields, rows, nskip).Ok?
    ensures var r := Analysis(fields, rows, nskip).value;
            var cols := QuestionColumns(fields);
            RowsHave(rows, cols) &&
            var ss := Students(rows, cols, nskip);
            && 2 <= r.nStudents == |ss| <= |rows|
            && 2 <= r.nQuestions == |cols| - SkipWidth(nskip)
            && 0.0 <= r.average <= r.nQuestions as real
            && r.sigSq > 0.0 && !AllEqual(Scores(ss))
            && (forall i :: 0 <= i < |ss| ==> r.minScore <= ss[i].score <= r.maxScore)
            && 0.0 <= r.pq <= r.nQuestions as real / 4.0
            && r.kr20 == KR20(r.nQuestions, r.pq, r.sigSq) && r.kr20 < 1.0
            && |r.items| == r.nQuestions
            && forall i :: 0 <= i < |r.items| ==>
                 && r.items[i].answered >= 2
                 && 0.0 <= r.items[i].difficulty <= 1.0
                 && |r.items[i].meanIn| == Buckets && |r.items[i].meanOut| == Buckets
                 && forall b :: 0 <= b < Buckets ==>
                      0.0 <= r.items[i].meanIn[b] <= r.nQuestions as real
                      && 0.0 <= r.items[i].meanOut[b] <= r.nQuestions as real
  {
    var cols := QuestionColumns(fields);
    assert RowsHave(rows, cols);
    var ss := Students(rows, cols, nskip);
    var names := cols[SkipWidth(nskip)..];
    StudentsShape(rows, cols, nskip);
    assert Analysis(fields, rows, nskip) == Statistics(ss, names);
    StatisticsFacts(ss, names);
    ItemsFacts(ss, names, Statistics(ss, names).value.sigSq, |names|);
  }

  /** Two students and two questions: one answers both correctly, the other neither.
      Then pq = 1/2 and sig² = 2, so KR-20 = 2·(1 − 1/4) = 3/2 and the report aborts at
      math.sqrt(1 - r20), although the two questions agree perfectly. */
  lemma ReliabilityCanExceedOne()
    ensures var ss := [Student(2, ["1", "1"]), Student(0, ["2", "2"])];
            && SigSq(Scores(ss)) == 2.0
            && PQ(ss, 2) == 0.5
            && KR20(2, PQ(ss, 2), SigSq(Scores(ss))) == 1.5
            && Statistics(ss, ["Q1", "Q2"]) == Err(ReliabilityAboveOne)
  {
    var ss := [Student(2, ["1", "1"]), Student(0, ["2", "2"])];
    var xs := Scores(ss);
    assert xs == [2, 0];
    assert xs[..1] == [2];
    assert [2][..0] == [];
    assert Sum([2]) == 2 && SumSq([2]) == 4;
    assert Sum(xs) == Sum(xs[..1]) + 0 && SumSq(xs) == SumSq(xs[..1]) + 0;
    assert ss[..1] == [ss[0]];
    assert Count(ss, 0, 0) == 1 && Answered(ss, 0) == 2;
    assert Count(ss, 1, 0) == 1 && Answered(ss, 1) == 2;
    assert Difficulty(ss, 0) == 0.5 && Difficulty(ss, 1) == 0.5;
    assert PQ(ss, 2) == 0.5;
    assert ItemsFrom(ss, ["Q1", "Q2"], 2.0, 0).Ok?;
  }
}
