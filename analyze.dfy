/** examtex/analyze.py: classical item analysis of a normalised result table. Students
    are admitted by their version-marker columns and scored by their "1" answers; the
    report holds score aggregates, per-question bucket tallies and group means, the
    difficulty of every question and the KR-20 reliability, all with exact reals. */
module Analyze {
  import opened Text

  /** A table row as csv.DictReader yields it: column name to cell text. */
  type Row = map<string, string>

  /** An admitted student: the number of "1" answers, and the non-marker responses. */
  datatype Student = Student(score: nat, responses: seq<string>)

  /** The exceptions that abort the report. */
  datatype AnalysisError =
    | NoRows                  // q_list is still None after the read loop
    | TooManySkips            // q_list.pop(0) on an empty list
    | NoStudents              // sum_s1/num_s with num_s == 0
    | OneStudent              // division by num_s*(num_s-1) == 0 in sig
    | NoResponses(q: nat)     // N_A[q]/N_all[q] with N_all[q] == 0
    | SingleResponse(q: nat)  // division by N_all[q]*(N_all[q]-1) == 0 in cor_a
    | ZeroVariance            // division by sig == 0
    | OneQuestion             // n_q/(n_q-1) with n_q == 1
    | ReliabilityAboveOne     // math.sqrt(1-r20) with r20 > 1
    | ReliabilityOne          // range_s/stderr with stderr == 0

  // ------------------------------------------------------------------------
  // Reading the students (lines 28-60)

  /** reader.fieldnames[5:] */
  function QuestionColumns(fields: seq<string>): (cols: seq<string>)
    ensures forall f :: f in cols ==> f in fields
  {
    if |fields| <= 5 then [] else fields[5..]
  }

  /** len(range(nskip)): how many leading columns are version markers. */
  function SkipWidth(nskip: int): nat
  {
    if nskip < 0 then 0 else nskip
  }

  predicate HasColumns(row: Row, cols: seq<string>)
  {
    forall f :: f in cols ==> f in row
  }

  /** Every row has a cell for every header field, as csv.DictReader guarantees. */
  predicate RowsComplete(fields: seq<string>, rows: seq<Row>)
  {
    forall i :: 0 <= i < |rows| ==> HasColumns(rows[i], fields)
  }

  /** Every version-marker column among the first q holds "1". */
  predicate MarkersUpTo(row: Row, cols: seq<string>, nskip: int, q: nat)
    requires q <= |cols| && HasColumns(row, cols)
  {
    forall p :: 0 <= p < q && p < nskip ==> row[cols[p]] == "1"
  }

  predicate Admitted(row: Row, cols: seq<string>, nskip: int)
    requires HasColumns(row, cols)
  {
    MarkersUpTo(row, cols, nskip, |cols|)
  }

  /** The responses outside the marker columns among the first q columns, in order. */
  function KeptUpTo(row: Row, cols: seq<string>, nskip: int, q: nat): seq<string>
    requires q <= |cols| && HasColumns(row, cols)
  {
    if q == 0 then []
    else KeptUpTo(row, cols, nskip, q - 1) + (if q - 1 < nskip then [] else [row[cols[q - 1]]])
  }

  function Kept(row: Row, cols: seq<string>, nskip: int): seq<string>
    requires HasColumns(row, cols)
  {
    KeptUpTo(row, cols, nskip, |cols|)
  }

  /** The number of "1" responses. */
  function CountOnes(xs: seq<string>): (n: nat)
    ensures n <= |xs|
  {
    if xs == [] then 0
    else CountOnes(xs[..|xs| - 1]) + (if xs[|xs| - 1] == "1" then 1 else 0)
  }

  function Min(a: int, b: int): int { if a < b then a else b }

  /** The kept responses are exactly the columns after the markers. */
  lemma {:induction false} KeptShape(row: Row, cols: seq<string>, nskip: int, q: nat)
    requires q <= |cols| && HasColumns(row, cols)
    ensures |KeptUpTo(row, cols, nskip, q)| == q - Min(SkipWidth(nskip), q)
    ensures forall j :: 0 <= j < |KeptUpTo(row, cols, nskip, q)| ==>
              KeptUpTo(row, cols, nskip, q)[j] == row[cols[Min(SkipWidth(nskip), q) + j]]
  {
    if q > 0 {
      KeptShape(row, cols, nskip, q - 1);
    }
  }

  /** Lines 35-55 for one row: stop at the first marker that is not "1"; otherwise
      keep every other response and count the "1"s. */
  method ReadResponses(row: Row, cols: seq<string>, nskip: int) returns (responses: seq<string>, score: nat)
    requires HasColumns(row, cols)
    ensures Admitted(row, cols, nskip) ==> responses == Kept(row, cols, nskip) && score == CountOnes(responses)
    ensures !Admitted(row, cols, nskip) ==> responses == [] && score == 0
  {
    responses := [];
    score := 0;
    var q := 0;
    while q < |cols|
      invariant 0 <= q <= |cols|
      invariant MarkersUpTo(row, cols, nskip, q)
      invariant responses == KeptUpTo(row, cols, nskip, q)
      invariant score == CountOnes(responses)
    {
      var a := row[cols[q]];
      if 0 <= q < nskip {
        if a != "1" {
          KeptShape(row, cols, nskip, q);
          return [], 0;
        }
      } else {
        if a == "1" {
          score := score + 1;
        }
        assert (responses + [a])[..|responses|] == responses;
        responses := responses + [a];
      }
      q := q + 1;
    }
  }

  /** The student a row yields, if any: only an admitted row with a kept response. */
  function StudentOf(row: Row, cols: seq<string>, nskip: int): Option<Student>
    requires HasColumns(row, cols)
  {
    var kept := Kept(row, cols, nskip);
    if Admitted(row, cols, nskip) && kept != [] then Some(Student(CountOnes(kept), kept)) else None
  }

  predicate RowsHave(rows: seq<Row>, cols: seq<string>)
  {
    forall i :: 0 <= i < |rows| ==> HasColumns(rows[i], cols)
  }

  function Students(rows: seq<Row>, cols: seq<string>, nskip: int): seq<Student>
    requires RowsHave(rows, cols)
    decreases |rows|
  {
    if rows == [] then []
    else
      var init := rows[..|rows| - 1];
      assert forall i :: 0 <= i < |init| ==> init[i] == rows[i];
      var s := StudentOf(rows[|rows| - 1], cols, nskip);
      Students(init, cols, nskip) + (if s.Some? then [s.value] else [])
  }

  /** A row is retained exactly when there is a column after the markers and every
      marker column holds "1"; the student's responses are then those columns and the
      score is the number of them that are "1". */
  lemma StudentOfIff(row: Row, cols: seq<string>, nskip: int)
    requires HasColumns(row, cols)
    ensures StudentOf(row, cols, nskip).Some?
        <==> SkipWidth(nskip) < |cols| && forall p :: 0 <= p < |cols| && p < nskip ==> row[cols[p]] == "1"
    ensures StudentOf(row, cols, nskip).Some? ==>
              var s := StudentOf(row, cols, nskip).value;
              && |s.responses| == |cols| - SkipWidth(nskip)
              && (forall j :: 0 <= j < |s.responses| ==> s.responses[j] == row[cols[SkipWidth(nskip) + j]])
              && s.score == CountOnes(s.responses)
  {
    var kept := Kept(row, cols, nskip);
    var k := SkipWidth(nskip);
    KeptShape(row, cols, nskip, |cols|);
    assert Admitted(row, cols, nskip) <==> forall p :: 0 <= p < |cols| && p < nskip ==> row[cols[p]] == "1";
    if k < |cols| {
      assert Min(k, |cols|) == k;
      if Admitted(row, cols, nskip) {
        assert StudentOf(row, cols, nskip) == Some(Student(CountOnes(kept), kept));
        KeptColumns(row, cols, nskip);
      }
    } else {
      assert |kept| == 0;
      assert StudentOf(row, cols, nskip) == None;
    }
  }

  lemma KeptColumns(row: Row, cols: seq<string>, nskip: int)
    requires HasColumns(row, cols) && SkipWidth(nskip) < |cols|
    ensures |Kept(row, cols, nskip)| == |cols| - SkipWidth(nskip)
    ensures forall j :: 0 <= j < |Kept(row, cols, nskip)| ==> Kept(row, cols, nskip)[j] == row[cols[SkipWidth(nskip) + j]]
  {
    KeptShape(row, cols, nskip, |cols|);
    assert Min(SkipWidth(nskip), |cols|) == SkipWidth(nskip);
  }

  /** Every retained student has one response per question after the markers, and a
      score no larger than that. */
  lemma {:induction false} StudentsShape(rows: seq<Row>, cols: seq<string>, nskip: int)
    requires RowsHave(rows, cols)
    ensures |Students(rows, cols, nskip)| <= |rows|
    ensures forall i :: 0 <= i < |Students(rows, cols, nskip)| ==>
              && |Students(rows, cols, nskip)[i].responses| == |cols| - SkipWidth(nskip)
              && Students(rows, cols, nskip)[i].responses != []
              && Students(rows, cols, nskip)[i].score == CountOnes(Students(rows, cols, nskip)[i].responses)
              && Students(rows, cols, nskip)[i].score <= |cols| - SkipWidth(nskip)
    decreases |rows|
  {
    if rows != [] {
      var init := rows[..|rows| - 1];
      assert forall i :: 0 <= i < |init| ==> init[i] == rows[i];
      StudentsShape(init, cols, nskip);
      StudentOfIff(rows[|rows| - 1], cols, nskip);
    }
  }

  /** Lines 22-60: read every row; q_list is taken from the header at the first row. */
  method ReadStudents(fields: seq<string>, rows: seq<Row>, nskip: int)
    returns (qList: Option<seq<string>>, students: seq<Student>)
    requires RowsComplete(fields, rows)
    ensures qList == if rows == [] then None else Some(QuestionColumns(fields))
    ensures RowsHave(rows, QuestionColumns(fields))
    ensures students == Students(rows, QuestionColumns(fields), nskip)
  {
    var cols := QuestionColumns(fields);
    assert RowsHave(rows, cols);
    qList := None;
    students := [];
    for i := 0 to |rows|
      invariant qList == if i == 0 then None else Some(cols)
      invariant RowsHave(rows[..i], cols)
      invariant students == Students(rows[..i], cols, nskip)
    {
      var row := rows[i];
      if qList.None? || qList.value == [] {
        qList := Some(QuestionColumns(fields));
      }
      var responses, score := ReadResponses(row, qList.value, nskip);
      assert rows[..i + 1][..i] == rows[..i];
      assert RowsHave(rows[..i + 1], cols);
      if responses != [] {
        students := students + [Student(score, responses)];
      }
    }
    assert rows[..|rows|] == rows;
  }

  // ------------------------------------------------------------------------
  // Score aggregates (lines 71-89)

  /** sys.maxsize on a 64-bit interpreter. */
  const MaxSize: int := 0x7FFF_FFFF_FFFF_FFFF

  function Scores(ss: seq<Student>): (xs: seq<int>)
    ensures |xs| == |ss|
    ensures forall i :: 0 <= i < |ss| ==> xs[i] == ss[i].score
  {
    seq(|ss|, i requires 0 <= i < |ss| => ss[i].score)
  }

  function Sum(xs: seq<int>): int
    decreases |xs|
  {
    if xs == [] then 0 else Sum(xs[..|xs| - 1]) + xs[|xs| - 1]
  }

  function SumSq(xs: seq<int>): int
    decreases |xs|
  {
    if xs == [] then 0 else SumSq(xs[..|xs| - 1]) + xs[|xs| - 1] * xs[|xs| - 1]
  }

  /** The running minimum, starting from m. */
  function MinFrom(m: int, xs: seq<int>): int
    decreases |xs|
  {
    if xs == [] then m
    else
      var r := MinFrom(m, xs[..|xs| - 1]);
      if xs[|xs| - 1] < r then xs[|xs| - 1] else r
  }

  /** The running maximum, starting from m. */
  function MaxFrom(m: int, xs: seq<int>): int
    decreases |xs|
  {
    if xs == [] then m
    else
      var r := MaxFrom(m, xs[..|xs| - 1]);
      if xs[|xs| - 1] > r then xs[|xs| - 1] else r
  }

  /** The running minimum is at most every score and is the start value or a score;
      likewise the running maximum. */
  lemma {:induction false} MinMaxBounds(lo: int, hi: int, xs: seq<int>)
    ensures forall i :: 0 <= i < |xs| ==> MinFrom(lo, xs) <= xs[i] <= MaxFrom(hi, xs)
    ensures MinFrom(lo, xs) <= lo && MaxFrom(hi, xs) >= hi
    ensures MinFrom(lo, xs) == lo || exists i :: 0 <= i < |xs| && MinFrom(lo, xs) == xs[i]
    ensures MaxFrom(hi, xs) == hi || exists i :: 0 <= i < |xs| && MaxFrom(hi, xs) == xs[i]
    decreases |xs|
  {
    if xs != [] {
      var init := xs[..|xs| - 1];
      MinMaxBounds(lo, hi, init);
      assert forall i :: 0 <= i < |init| ==> init[i] == xs[i];
    }
  }

  /** Lines 71-85: one pass over the students. */
  method Aggregate(ss: seq<Student>) returns (numS: nat, sum1: int, sum2: int, minS: int, maxS: int)
    ensures numS == |ss|
    ensures sum1 == Sum(Scores(ss)) && sum2 == SumSq(Scores(ss))
    ensures minS == MinFrom(MaxSize, Scores(ss)) && maxS == MaxFrom(-MaxSize - 1, Scores(ss))
  {
    ghost var xs := Scores(ss);
    numS, sum1, sum2 := 0, 0, 0;
    minS := MaxSize;
    maxS := -MaxSize - 1;
    for i := 0 to |ss|
      invariant numS == i
      invariant sum1 == Sum(xs[..i]) && sum2 == SumSq(xs[..i])
      invariant minS == MinFrom(MaxSize, xs[..i]) && maxS == MaxFrom(-MaxSize - 1, xs[..i])
    {
      assert xs[..i + 1][..i] == xs[..i];
      var s := ss[i].score;
      numS := numS + 1;
      sum1 := sum1 + s;
      sum2 := sum2 + s * s;
      if s < minS {
        minS := s;
      }
      if s > maxS {
        maxS := s;
      }
    }
    assert xs[..|ss|] == xs;
  }

  /** n·Σx² − (Σx)²: n(n−1) times the sample variance of the scores. */
  function Spread(xs: seq<int>): int
  {
    |xs| * SumSq(xs) - Sum(xs) * Sum(xs)
  }

  /** Σ (x − y)² */
  function SqDev(xs: seq<int>, y: int): int
    decreases |xs|
  {
    if xs == [] then 0
    else SqDev(xs[..|xs| - 1], y) + (xs[|xs| - 1] - y) * (xs[|xs| - 1] - y)
  }

  predicate AllEqual(xs: seq<int>)
  {
    forall i, j :: 0 <= i < |xs| && 0 <= j < |xs| ==> xs[i] == xs[j]
  }

  lemma {:induction false} SqDevExpand(xs: seq<int>, y: int)
    ensures SqDev(xs, y) == SumSq(xs) - 2 * y * Sum(xs) + |xs| * y * y
    decreases |xs|
  {
    if xs != [] {
      var init := xs[..|xs| - 1];
      var x := xs[|xs| - 1];
      SqDevExpand(init, y);
      ExpandStep(SqDev(init, y), SumSq(init), Sum(init), |init|, x, y);
    }
  }

  /** One more score in the expansion of Σ (x − y)². */
  lemma ExpandStep(d: int, q: int, s: int, n: int, x: int, y: int)
    requires d == q - 2 * y * s + n * y * y
    ensures d + (x - y) * (x - y) == (q + x * x) - 2 * y * (s + x) + (n + 1) * y * y
  {
  }

  lemma SquareSign(d: int)
    ensures d * d >= 0
    ensures d * d == 0 <==> d == 0
  {
  }

  lemma {:induction false} SqDevZero(xs: seq<int>, y: int)
    ensures SqDev(xs, y) >= 0
    ensures SqDev(xs, y) == 0 <==> forall i :: 0 <= i < |xs| ==> xs[i] == y
    decreases |xs|
  {
    if xs != [] {
      var init := xs[..|xs| - 1];
      var x := xs[|xs| - 1];
      SqDevZero(init, y);
      SquareSign(x - y);
      assert SqDev(xs, y) == SqDev(init, y) + (x - y) * (x - y);
      assert forall i :: 0 <= i < |init| ==> init[i] == xs[i];
    }
  }

  lemma SpreadStep(xs: seq<int>, y: int)
    ensures Spread(xs + [y]) == Spread(xs) + SqDev(xs, y)
  {
    var n := |xs|;
    assert (xs + [y])[..n] == xs;
    assert Sum(xs + [y]) == Sum(xs) + y;
    assert SumSq(xs + [y]) == SumSq(xs) + y * y;
    SqDevExpand(xs, y);
    SpreadAlgebra(n, Sum(xs), SumSq(xs), y, SqDev(xs, y));
  }

  /** (n+1)(q+y²) − (s+y)² = (nq − s²) + (q − 2ys + ny²). */
  lemma SpreadAlgebra(n: int, s: int, q: int, y: int, d: int)
    requires d == q - 2 * y * s + n * y * y
    ensures (n + 1) * (q + y * y) - (s + y) * (s + y) == (n * q - s * s) + d
  {
  }

  /** The radicand of sig is never negative, and it is zero exactly when every score is
      the same. */
  lemma {:induction false} SpreadSign(xs: seq<int>)
    ensures Spread(xs) >= 0
    ensures Spread(xs) == 0 <==> AllEqual(xs)
    decreases |xs|
  {
    if xs != [] {
      var init := xs[..|xs| - 1];
      var y := xs[|xs| - 1];
      assert xs == init + [y];
      SpreadSign(init);
      SpreadStep(init, y);
      SqDevZero(init, y);
      assert forall i :: 0 <= i < |init| ==> init[i] == xs[i];
      if AllEqual(xs) {
        assert forall i :: 0 <= i < |init| ==> init[i] == y;
      }
    }
  }

  /** sig²: the sample variance of the scores. */
  function SigSq(xs: seq<int>): real
    requires |xs| >= 2
  {
    (Spread(xs) as real) / ((|xs| * (|xs| - 1)) as real)
  }

  lemma SigSqSign(xs: seq<int>)
    requires |xs| >= 2
    ensures SigSq(xs) >= 0.0
    ensures SigSq(xs) == 0.0 <==> AllEqual(xs)
  {
    SpreadSign(xs);
    assert |xs| * (|xs| - 1) > 0;
  }

  /** 0 ≤ Σx ≤ n·c when every score lies in [0, c]. */
  lemma {:induction false} SumBound(xs: seq<int>, c: nat)
    requires forall i :: 0 <= i < |xs| ==> 0 <= xs[i] <= c
    ensures 0 <= Sum(xs) <= |xs| * c
    decreases |xs|
  {
    if xs != [] {
      var init := xs[..|xs| - 1];
      assert forall i :: 0 <= i < |init| ==> init[i] == xs[i];
      SumBound(init, c);
    }
  }

  // ------------------------------------------------------------------------
  // Bucket tallies (lines 92-123)

  /** The counter a response increments: "1".."5" are A..E, anything else none. */
  function Bucket(a: string): Option<nat>
  {
    if a == "1" then Some(0)
    else if a == "2" then Some(1)
    else if a == "3" then Some(2)
    else if a == "4" then Some(3)
    else if a == "5" then Some(4)
    else None
  }

  const Buckets: nat := 5

  /** Some student's response to question q falls in bucket b. */
  predicate InBucket(s: Student, q: nat, b: nat)
  {
    q < |s.responses| && Bucket(s.responses[q]) == Some(b)
  }

  predicate Answers(s: Student, q: nat)
  {
    q < |s.responses| && Bucket(s.responses[q]).Some?
  }

  /** N_X[q]: how many students answered q with bucket b. */
  function Count(ss: seq<Student>, q: nat, b: nat): nat
    decreases |ss|
  {
    if ss == [] then 0
    else Count(ss[..|ss| - 1], q, b) + (if InBucket(ss[|ss| - 1], q, b) then 1 else 0)
  }

  /** N_all[q]: how many students answered q with any of "1".."5". */
  function Answered(ss: seq<Student>, q: nat): nat
    decreases |ss|
  {
    if ss == [] then 0
    else Answered(ss[..|ss| - 1], q) + (if Answers(ss[|ss| - 1], q) then 1 else 0)
  }

  /** N_all is the sum of the five buckets: a response outside "1".."5" is counted in
      none of them. */
  lemma {:induction false} AnsweredIsTotal(ss: seq<Student>, q: nat)
    ensures Answered(ss, q) == Count(ss, q, 0) + Count(ss, q, 1) + Count(ss, q, 2) + Count(ss, q, 3) + Count(ss, q, 4)
    decreases |ss|
  {
    if ss != [] {
      AnsweredIsTotal(ss[..|ss| - 1], q);
    }
  }

  predicate Shaped(ss: seq<Student>, nq: nat)
  {
    forall i :: 0 <= i < |ss| ==> |ss[i].responses| == nq
  }

  /** Lines 92-123: zeroed counters, then one increment per response in "1".."5". */
  method Tally(ss: seq<Student>, nq: nat) returns (counts: seq<seq<nat>>, nAll: seq<nat>)
    requires Shaped(ss, nq)
    ensures |counts| == Buckets && (forall b :: 0 <= b < Buckets ==> |counts[b]| == nq) && |nAll| == nq
    ensures forall b, q :: 0 <= b < Buckets && 0 <= q < nq ==> counts[b][q] == Count(ss, q, b)
    ensures forall q :: 0 <= q < nq ==> nAll[q] == Answered(ss, q)
  {
    var zeros: seq<nat> := seq(nq, _ => 0);
    counts := [zeros, zeros, zeros, zeros, zeros];
    nAll := zeros;
    for i := 0 to |ss|
      invariant |counts| == Buckets && (forall b :: 0 <= b < Buckets ==> |counts[b]| == nq) && |nAll| == nq
      invariant forall b, q :: 0 <= b < Buckets && 0 <= q < nq ==> counts[b][q] == Count(ss[..i], q, b)
      invariant forall q :: 0 <= q < nq ==> nAll[q] == Answered(ss[..i], q)
    {
      var s := ss[i];
      assert ss[..i + 1][..i] == ss[..i];
      for q := 0 to |s.responses|
        invariant |counts| == Buckets && (forall b :: 0 <= b < Buckets ==> |counts[b]| == nq) && |nAll| == nq
        invariant forall b, p :: 0 <= b < Buckets && 0 <= p < nq ==>
                    counts[b][p] == Count(ss[..i], p, b) + (if p < q && InBucket(s, p, b) then 1 else 0)
        invariant forall p :: 0 <= p < nq ==>
                    nAll[p] == Answered(ss[..i], p) + (if p < q && Answers(s, p) then 1 else 0)
      {
        var b := Bucket(s.responses[q]);
        if b.Some? {
          counts := counts[b.value := counts[b.value][q := counts[b.value][q] + 1]];
          nAll := nAll[q := nAll[q] + 1];
        }
      }
    }
    assert ss[..|ss|] == ss;
  }

  // ------------------------------------------------------------------------
  // Per-question statistics (lines 125-209)

  /** sum_X: the total score of the students who answered q with bucket b. */
  function ScoreSum(ss: seq<Student>, q: nat, b: nat): int
    decreases |ss|
  {
    if ss == [] then 0
    else ScoreSum(ss[..|ss| - 1], q, b) + (if InBucket(ss[|ss| - 1], q, b) then ss[|ss| - 1].score else 0)
  }

  /** With every score in [0, c], a bucket's score total lies in [0, N_X·c]. */
  lemma {:induction false} ScoreSumBound(ss: seq<Student>, q: nat, b: nat, c: nat)
    requires forall i :: 0 <= i < |ss| ==> ss[i].score <= c
    ensures 0 <= ScoreSum(ss, q, b) <= Count(ss, q, b) * c
    decreases |ss|
  {
    if ss != [] {
      var init := ss[..|ss| - 1];
      var s := ss[|ss| - 1];
      assert forall i :: 0 <= i < |init| ==> init[i] == ss[i];
      ScoreSumBound(init, q, b, c);
      var m := Count(init, q, b);
      if InBucket(s, q, b) {
        assert ScoreSum(ss, q, b) == ScoreSum(init, q, b) + s.score;
        assert Count(ss, q, b) == m + 1;
        MulStep(m, c);
      } else {
        assert ScoreSum(ss, q, b) == ScoreSum(init, q, b);
        assert Count(ss, q, b) == m;
      }
    }
  }

  lemma MulStep(m: int, c: int)
    ensures (m + 1) * c == m * c + c
  {
  }

  /** Lines 137-155 for question q: the five score totals. */
  method BucketSums(ss: seq<Student>, q: nat) returns (sums: seq<int>)
    requires forall i :: 0 <= i < |ss| ==> q < |ss[i].responses|
    ensures |sums| == Buckets
    ensures forall b :: 0 <= b < Buckets ==> sums[b] == ScoreSum(ss, q, b)
  {
    sums := [0, 0, 0, 0, 0];
    for i := 0 to |ss|
      invariant |sums| == Buckets
      invariant forall b :: 0 <= b < Buckets ==> sums[b] == ScoreSum(ss[..i], q, b)
    {
      assert ss[..i + 1][..i] == ss[..i];
      var s := ss[i].score;
      var b := Bucket(ss[i].responses[q]);
      if b.Some? {
        sums := sums[b.value := sums[b.value] + s];
      }
    }
    assert ss[..|ss|] == ss;
  }

  /** The statistics printed for one question. */
  datatype ItemStats = ItemStats(
    name: string,
    answered: nat,          // N_all[q]
    difficulty: real,       // d = N_A/N_all
    share: seq<real>,       // f1..f5: percentage of the answers in each bucket
    meanIn: seq<real>,      // avg_X_c: mean score of those who answered X
    meanOut: seq<real>,     // avg_X_w: mean score of those who answered otherwise
    gap: seq<real>)         // del_X = avg_X_c - avg_X_w

  /** avg_X_c: 0 when nobody answered X. */
  function MeanIn(n: nat, sum: int): real
  {
    if n > 0 then sum as real / n as real else 0.0
  }

  /** avg_X_w: 0 when everybody who answered chose X. */
  function MeanOut(n: nat, nAll: nat, others: int): real
  {
    if n < nAll then others as real / (nAll - n) as real else 0.0
  }

  /** The sum of the other four bucket totals. */
  function Others(sums: seq<int>, b: nat): int
    requires |sums| == Buckets
  {
    (if b != 0 then sums[0] else 0) + (if b != 1 then sums[1] else 0) + (if b != 2 then sums[2] else 0)
    + (if b != 3 then sums[3] else 0) + (if b != 4 then sums[4] else 0)
  }

  function Item(name: string, counts: seq<nat>, nAll: nat, sums: seq<int>): ItemStats
    requires |counts| == Buckets && |sums| == Buckets && nAll > 0
  {
    var meanIn := seq(Buckets, b requires 0 <= b < Buckets => MeanIn(counts[b], sums[b]));
    var meanOut := seq(Buckets, b requires 0 <= b < Buckets => MeanOut(counts[b], nAll, Others(sums, b)));
    ItemStats(name, nAll, counts[0] as real / nAll as real,
              seq(Buckets, b requires 0 <= b < Buckets => 100.0 * counts[b] as real / nAll as real),
              meanIn, meanOut,
              seq(Buckets, b requires 0 <= b < Buckets => meanIn[b] - meanOut[b]))
  }

  function CountsAt(ss: seq<Student>, q: nat): seq<nat>
  {
    [Count(ss, q, 0), Count(ss, q, 1), Count(ss, q, 2), Count(ss, q, 3), Count(ss, q, 4)]
  }

  function SumsAt(ss: seq<Student>, q: nat): seq<int>
  {
    [ScoreSum(ss, q, 0), ScoreSum(ss, q, 1), ScoreSum(ss, q, 2), ScoreSum(ss, q, 3), ScoreSum(ss, q, 4)]
  }

  /** The loop over the questions from q on: the item records, or the first error. */
  function ItemsFrom(ss: seq<Student>, names: seq<string>, sigSq: real, q: nat): Result<seq<ItemStats>, AnalysisError>
    requires q <= |names|
    decreases |names| - q
  {
    if q == |names| then Ok([])
    else if Answered(ss, q) == 0 then Err(NoResponses(q))
    else if Answered(ss, q) == 1 then Err(SingleResponse(q))
    else if sigSq == 0.0 then Err(ZeroVariance)
    else Prefixed([Item(names[q], CountsAt(ss, q), Answered(ss, q), SumsAt(ss, q))], ItemsFrom(ss, names, sigSq, q + 1))
  }

  /** d for question q (0 when nobody answered, which the report never reaches). */
  function Difficulty(ss: seq<Student>, q: nat): real
  {
    if Answered(ss, q) == 0 then 0.0 else Count(ss, q, 0) as real / Answered(ss, q) as real
  }

  /** pq after the first q questions: Σ d(1 − d). */
  function PQ(ss: seq<Student>, q: nat): real
  {
    if q == 0 then 0.0 else PQ(ss, q - 1) + Difficulty(ss, q - 1) * (1.0 - Difficulty(ss, q - 1))
  }

  /** d lies in [0, 1] and d(1 − d) in [0, 1/4]. */
  lemma DifficultyBounds(ss: seq<Student>, q: nat)
    ensures 0.0 <= Difficulty(ss, q) <= 1.0
    ensures 0.0 <= Difficulty(ss, q) * (1.0 - Difficulty(ss, q)) <= 0.25
  {
    if Answered(ss, q) > 0 {
      CountAtMostAnswered(ss, q, 0);
      QuotientBounds(Count(ss, q, 0) as real, Answered(ss, q) as real);
    } else {
      assert Difficulty(ss, q) == 0.0;
    }
  }

  /** c/n lies in [0, 1] and (c/n)(1 − c/n) in [0, 1/4] when 0 ≤ c ≤ n. */
  lemma QuotientBounds(c: real, n: real)
    requires 0.0 <= c <= n && n > 0.0
    ensures 0.0 <= c / n <= 1.0
    ensures 0.0 <= (c / n) * (1.0 - c / n) <= 0.25
  {
    var d := c / n;
    assert d * n == c;
    assert d * (1.0 - d) == 0.25 - (d - 0.5) * (d - 0.5);
  }

  /** 0 ≤ pq ≤ q/4 after q questions. */
  lemma {:induction false} PQBounds(ss: seq<Student>, q: nat)
    ensures 0.0 <= PQ(ss, q) <= q as real / 4.0
  {
    if q > 0 {
      PQBounds(ss, q - 1);
      DifficultyBounds(ss, q - 1);
    }
  }

  /** The group means of a question lie between 0 and the number of questions c when
      every score does, and the five shares add up to 100. */
  lemma ItemBounds(ss: seq<Student>, q: nat, c: nat, name: string)
    requires forall i :: 0 <= i < |ss| ==> ss[i].score <= c
    requires Answered(ss, q) > 0
    ensures var it := Item(name, CountsAt(ss, q), Answered(ss, q), SumsAt(ss, q));
            && 0.0 <= it.difficulty <= 1.0
            && (forall b :: 0 <= b < Buckets ==> 0.0 <= it.meanIn[b] <= c as real && 0.0 <= it.meanOut[b] <= c as real)
            && it.share[0] + it.share[1] + it.share[2] + it.share[3] + it.share[4] == 100.0
  {
    var it := Item(name, CountsAt(ss, q), Answered(ss, q), SumsAt(ss, q));
    DifficultyBounds(ss, q);
    assert it.difficulty == Difficulty(ss, q);
    forall b | 0 <= b < Buckets
      ensures 0.0 <= it.meanIn[b] <= c as real && 0.0 <= it.meanOut[b] <= c as real
    {
      BucketMeans(ss, q, c, b);
    }
    AnsweredIsTotal(ss, q);
    ShareSum(Count(ss, q, 0), Count(ss, q, 1), Count(ss, q, 2), Count(ss, q, 3), Count(ss, q, 4), Answered(ss, q));
  }

  lemma ShareSum(c0: nat, c1: nat, c2: nat, c3: nat, c4: nat, n: nat)
    requires n > 0 && c0 + c1 + c2 + c3 + c4 == n
    ensures 100.0 * c0 as real / n as real + 100.0 * c1 as real / n as real + 100.0 * c2 as real / n as real
          + 100.0 * c3 as real / n as real + 100.0 * c4 as real / n as real == 100.0
  {
    var r := n as real;
    var x0, x1, x2, x3, x4 := 100.0 * c0 as real, 100.0 * c1 as real, 100.0 * c2 as real, 100.0 * c3 as real, 100.0 * c4 as real;
    assert x0 + x1 + x2 + x3 + x4 == 100.0 * r;
    ScaledQuotient(x0, r);
    ScaledQuotient(x1, r);
    ScaledQuotient(x2, r);
    ScaledQuotient(x3, r);
    ScaledQuotient(x4, r);
    var total := x0 / r + x1 / r + x2 / r + x3 / r + x4 / r;
    assert total * r == (x0 / r) * r + (x1 / r) * r + (x2 / r) * r + (x3 / r) * r + (x4 / r) * r;
    CancelPositive(total, 100.0, r);
  }

  lemma ScaledQuotient(x: real, r: real)
    requires r != 0.0
    ensures (x / r) * r == x
  {
  }

  lemma CancelPositive(x: real, y: real, r: real)
    requires r > 0.0 && x * r == y * r
    ensures x == y
  {
    assert (x - y) * r == 0.0;
  }

  /** Bucket b of question q: both group means lie in [0, c]. */
  lemma BucketMeans(ss: seq<Student>, q: nat, c: nat, b: nat)
    requires forall i :: 0 <= i < |ss| ==> ss[i].score <= c
    requires b < Buckets
    ensures 0.0 <= MeanIn(Count(ss, q, b), ScoreSum(ss, q, b)) <= c as real
    ensures 0.0 <= MeanOut(Count(ss, q, b), Answered(ss, q), Others(SumsAt(ss, q), b)) <= c as real
  {
    ScoreSumBound(ss, q, b, c);
    MeanBound(ScoreSum(ss, q, b), Count(ss, q, b), c);
    OthersBound(ss, q, b, c);
    CountAtMostAnswered(ss, q, b);
    if Count(ss, q, b) < Answered(ss, q) {
      MeanBound(Others(SumsAt(ss, q), b), Answered(ss, q) - Count(ss, q, b), c);
    }
  }

  lemma {:induction false} CountAtMostAnswered(ss: seq<Student>, q: nat, b: nat)
    ensures Count(ss, q, b) <= Answered(ss, q)
    decreases |ss|
  {
    if ss != [] {
      CountAtMostAnswered(ss[..|ss| - 1], q, b);
    }
  }

  /** The other four buckets hold at most (N_all − N_X)·c score points. */
  lemma {:induction false} OthersBound(ss: seq<Student>, q: nat, b: nat, c: nat)
    requires forall i :: 0 <= i < |ss| ==> ss[i].score <= c
    requires b < Buckets
    ensures Count(ss, q, b) <= Answered(ss, q)
    ensures 0 <= Others(SumsAt(ss, q), b) <= (Answered(ss, q) - Count(ss, q, b)) * c
    decreases |ss|
  {
    CountAtMostAnswered(ss, q, b);
    if ss != [] {
      var init := ss[..|ss| - 1];
      var s := ss[|ss| - 1];
      assert forall i :: 0 <= i < |init| ==> init[i] == ss[i];
      OthersBound(init, q, b, c);
      CountAtMostAnswered(init, q, b);
      var step := if Answers(s, q) && !InBucket(s, q, b) then s.score else 0;
      assert Others(SumsAt(ss, q), b) == Others(SumsAt(init, q), b) + step;
      var m := Answered(init, q) - Count(init, q, b);
      if Answers(s, q) && !InBucket(s, q, b) {
        assert Answered(ss, q) - Count(ss, q, b) == m + 1;
        MulStep(m, c);
      } else {
        assert Answered(ss, q) - Count(ss, q, b) == m;
      }
    }
  }

  lemma MeanBound(sum: int, n: nat, c: nat)
    requires 0 <= sum <= n * c
    ensures 0.0 <= MeanIn(n, sum) <= c as real
  {
    if n > 0 {
      assert (sum as real) <= (n as real) * (c as real);
    }
  }

  /** Lines 125-209: one pass over the questions, accumulating pq. */
  method ItemAnalysis(ss: seq<Student>, names: seq<string>, counts: seq<seq<nat>>, nAll: seq<nat>, sigSq: real)
    returns (items: Result<seq<ItemStats>, AnalysisError>, pq: real)
    requires Shaped(ss, |names|)
    requires |counts| == Buckets && (forall b :: 0 <= b < Buckets ==> |counts[b]| == |names|) && |nAll| == |names|
    requires forall b, q :: 0 <= b < Buckets && 0 <= q < |names| ==> counts[b][q] == Count(ss, q, b)
    requires forall q :: 0 <= q < |names| ==> nAll[q] == Answered(ss, q)
    ensures items == ItemsFrom(ss, names, sigSq, 0)
    ensures items.Ok? ==> pq == PQ(ss, |names|)
  {
    pq := 0.0;
    var done: seq<ItemStats> := [];
    PrefixedEmpty(ItemsFrom(ss, names, sigSq, 0));
    for q := 0 to |names|
      invariant ItemsFrom(ss, names, sigSq, 0) == Prefixed(done, ItemsFrom(ss, names, sigSq, q))
      invariant pq == PQ(ss, q)
    {
      if nAll[q] == 0 {
        assert ItemsFrom(ss, names, sigSq, q) == Err(NoResponses(q));
        return Err(NoResponses(q)), pq;
      }
      var d := counts[0][q] as real / nAll[q] as real;
      assert d == Difficulty(ss, q);
      pq := pq + d * (1.0 - d);
      var item := QuestionItem(ss, names, counts, nAll, sigSq, q);
      if item.Err? {
        return Err(item.error), pq;
      }
      PrefixedAppend(done, [item.value], ItemsFrom(ss, names, sigSq, q + 1));
      done := done + [item.value];
    }
    assert done + [] == done;
    items := Ok(done);
  }

  /** Lines 137-195 for one answered question: the bucket sums, the two remaining error
      checks and the item record. */
  method QuestionItem(ss: seq<Student>, names: seq<string>, counts: seq<seq<nat>>, nAll: seq<nat>, sigSq: real, q: nat)
    returns (item: Result<ItemStats, AnalysisError>)
    requires Shaped(ss, |names|) && q < |names|
    requires |counts| == Buckets && (forall b :: 0 <= b < Buckets ==> |counts[b]| == |names|) && |nAll| == |names|
    requires forall b :: 0 <= b < Buckets ==> counts[b][q] == Count(ss, q, b)
    requires nAll[q] == Answered(ss, q) > 0
    ensures item.Ok? ==> ItemsFrom(ss, names, sigSq, q) == Prefixed([item.value], ItemsFrom(ss, names, sigSq, q + 1))
    ensures item.Err? ==> ItemsFrom(ss, names, sigSq, q) == Err(item.error)
  {
    var sums := BucketSums(ss, q);
    if nAll[q] == 1 {
      return Err(SingleResponse(q));
    }
    if sigSq == 0.0 {
      return Err(ZeroVariance);
    }
    var here := [counts[0][q], counts[1][q], counts[2][q], counts[3][q], counts[4][q]];
    assert here == CountsAt(ss, q);
    assert sums == SumsAt(ss, q);
    item := Ok(Item(names[q], here, nAll[q], sums));
  }

  // ------------------------------------------------------------------------
  // The report (lines 62-68, 87-89, 213-218)

  /** KR-20 = (k/(k−1))(1 − pq/sig²). */
  function KR20(k: nat, pq: real, sigSq: real): real
    requires k != 1 && sigSq != 0.0
  {
    (k as real / (k as real - 1.0)) * (1.0 - pq / sigSq)
  }

  datatype Report = Report(
    nStudents: nat, nQuestions: nat,
    average: real, sigSq: real,
    minScore: int, maxScore: int,
    items: seq<ItemStats>, pq: real, kr20: real)

  /** What the script computes from the header, the rows and --nskip. */
  function Analysis(fields: seq<string>, rows: seq<Row>, nskip: int): Result<Report, AnalysisError>
    requires RowsComplete(fields, rows)
  {
    var cols := QuestionColumns(fields);
    assert RowsHave(rows, cols);
    if rows == [] then Err(NoRows)
    else if SkipWidth(nskip) > |cols| then Err(TooManySkips)
    else Statistics(Students(rows, cols, nskip), cols[SkipWidth(nskip)..])
  }

  /** Lines 62-218 once the students are read and the marker columns are dropped. */
  function Statistics(ss: seq<Student>, names: seq<string>): Result<Report, AnalysisError>
  {
    var xs := Scores(ss);
    if |ss| == 0 then Err(NoStudents)
    else if |ss| == 1 then Err(OneStudent)
    else
      var sigSq := SigSq(xs);
      var items :- ItemsFrom(ss, names, sigSq, 0);
      var k := |names|;
      if k == 1 then Err(OneQuestion)
      else if sigSq == 0.0 then Err(ZeroVariance)
      else
        var r20 := KR20(k, PQ(ss, k), sigSq);
        if r20 > 1.0 then Err(ReliabilityAboveOne)
        else if r20 == 1.0 then Err(ReliabilityOne)
        else Ok(Report(|ss|, k, Sum(xs) as real / |ss| as real, sigSq,
                       MinFrom(MaxSize, xs), MaxFrom(-MaxSize - 1, xs), items, PQ(ss, k), r20))
  }

  /** Lines 62-218: aggregates, tallies, the question loop and KR-20. */
  method Summarize(students: seq<Student>, names: seq<string>) returns (res: Result<Report, AnalysisError>)
    requires Shaped(students, |names|)
    ensures res == Statistics(students, names)
  {
    var nq := |names|;
    var numS, sum1, sum2, minS, maxS := Aggregate(students);
    if numS == 0 {
      return Err(NoStudents);
    }
    var avg := sum1 as real / numS as real;
    if numS * (numS - 1) == 0 {
      return Err(OneStudent);
    }
    var sigSq := (numS * sum2 - sum1 * sum1) as real / (numS * (numS - 1)) as real;
    assert sigSq == SigSq(Scores(students));
    var counts, nAll := Tally(students, nq);
    var items, pq := ItemAnalysis(students, names, counts, nAll, sigSq);
    if items.Err? {
      return Err(items.error);
    }
    if nq - 1 == 0 {
      return Err(OneQuestion);
    }
    if sigSq == 0.0 {
      return Err(ZeroVariance);
    }
    var r20 := (nq as real / (nq - 1) as real) * (1.0 - pq / sigSq);
    assert r20 == KR20(nq, pq, sigSq);
    if r20 > 1.0 {
      return Err(ReliabilityAboveOne);
    }
    if r20 == 1.0 {
      return Err(ReliabilityOne);
    }
    res := Ok(Report(numS, nq, avg, sigSq, minS, maxS, items.value, pq, r20));
  }

  /** The whole script up to the printed report. */
  method AnalyzeTable(fields: seq<string>, rows: seq<Row>, nskip: int) returns (res: Result<Report, AnalysisError>)
    requires RowsComplete(fields, rows)
    ensures res == Analysis(fields, rows, nskip)
  {
    var qList, students := ReadStudents(fields, rows, nskip);
    if qList.None? {
      return Err(NoRows);
    }
    var cols := qList.value;
    var names := cols;
    var k := SkipWidth(nskip);
    for i := 0 to k
      invariant i <= |cols| && names == cols[i..]
    {
      if names == [] {
        return Err(TooManySkips);
      }
      names := names[1..];
    }
    StudentsShape(rows, cols, nskip);
    res := Summarize(students, names);
  }
}
