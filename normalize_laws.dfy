/** What the normalisation promises: a response names the canonical choice the student
    saw, the correct answer becomes "1", every record comes from one student row and
    carries one answer per canonical question, and a missing map entry is reported only
    for a version that really lacks the question. */
module NormalizeLaws {
  import opened Text
  import opened Config
  import Util
  import opened Normalize

  // ------------------------------------------------------------------ remapping

  /** A response r in 1..len(perm) becomes perm[r-1]+1. */
  lemma RemapPositive(r: int, perm: seq<int>)
    requires 1 <= r <= |perm|
    ensures Remap(IntToString(r), perm) == IntToString(perm[r - 1] + 1)
  {
    ParseIntRoundTrip(r);
  }

  /** A response r with 1 - len(perm) <= r <= 0 indexes from the end of perm. */
  lemma RemapWraps(r: int, perm: seq<int>)
    requires 1 - |perm| <= r <= 0
    ensures Remap(IntToString(r), perm) == IntToString(perm[|perm| + r - 1] + 1)
  {
    ParseIntRoundTrip(r);
  }

  /** A response whose index is out of range is kept as written. */
  lemma RemapOutOfRange(r: int, perm: seq<int>)
    requires r > |perm| || r <= -|perm|
    ensures Remap(IntToString(r), perm) == IntToString(r)
  {
    ParseIntRoundTrip(r);
  }

  /** A response that is not an integer ("*", "-", " ") is kept as written. */
  lemma RemapKeepsNonNumeric(response: string, perm: seq<int>)
    requires ParseInt(response).None?
    ensures Remap(response, perm) == response
  {
  }

  /** Displayed choice r of a version shows canonical choice perm[r-1] (util.permute),
      and the normaliser records exactly that choice, numbered from 1. */
  lemma RemapNamesDisplayedChoice<T>(choices: seq<T>, perm: seq<int>, r: int)
    requires choices != [] && Util.IsBijection(perm, |choices|)
    requires 1 <= r <= |perm|
    ensures 0 in perm && Util.ValidIndices(perm, |choices|)
    ensures 0 <= perm[r - 1] < |choices|
    ensures Util.Permute(choices, perm).0[r - 1] == choices[perm[r - 1]]
    ensures Remap(IntToString(r), perm) == IntToString(perm[r - 1] + 1)
  {
    assert 0 in perm;
    RemapPositive(r, perm);
  }

  /** In every version the displayed position of the correct answer, written as the
      exam shows it (from 1), normalises to "1". */
  lemma CorrectAnswerNormalizesToOne<T>(choices: seq<T>, perm: seq<int>)
    requires choices != [] && Util.IsBijection(perm, |choices|)
    ensures 0 in perm && Util.ValidIndices(perm, |choices|)
    ensures Remap(IntToString(Util.Permute(choices, perm).1 + 1), perm) == "1"
  {
    assert 0 in perm;
    var c := Util.Permute(choices, perm).1;
    RemapPositive(c + 1, perm);
    assert IntToString(1) == "1";
  }

  /** With a bijection, two displayed choices normalise alike exactly when they are the
      same choice: no two choices are merged. */
  lemma RemapInjective(perm: seq<int>, r1: int, r2: int)
    requires Util.IsBijection(perm, |perm|)
    requires 1 <= r1 <= |perm| && 1 <= r2 <= |perm|
    ensures Remap(IntToString(r1), perm) == Remap(IntToString(r2), perm) <==> r1 == r2
  {
    RemapPositive(r1, perm);
    RemapPositive(r2, perm);
    IntToStringInjective(perm[r1 - 1] + 1, perm[r2 - 1] + 1);
  }

  /** Remapping with the inverse permutation gives back the displayed choice. */
  lemma RemapRoundTrip(perm: seq<int>, r: int)
    requires Util.IsBijection(perm, |perm|)
    requires 1 <= r <= |perm|
    ensures Remap(Remap(IntToString(r), perm), Util.Inverse(perm)) == IntToString(r)
  {
    var inv := Util.Inverse(perm);
    var c := perm[r - 1];
    RemapPositive(r, perm);
    RemapPositive(c + 1, inv);
    assert perm[inv[c]] == c;
    assert inv[c] == r - 1;
  }

  /** A blank response is scored as the key row's response in the same column. */
  lemma BlankTakesKey(student: Row, key: Row, e: Entry)
    requires Column(e.pos) in student && student[Column(e.pos)] == Blank
    ensures NormalizeAnswer(student, key, e)
         == if Column(e.pos) in key then Ok(Remap(key[Column(e.pos)], e.perm))
            else Err(MissingColumn(Column(e.pos)))
  {
  }

  // ------------------------------------------------------------------ records

  /** The answers of one student: one per canonical question, or the first error. */
  lemma {:induction false} NormalizeAnswersShape(student: Row, key: Row, qList: seq<string>, qs: CanonMap, fi: nat, from: nat)
    requires from <= |qList|
    ensures NormalizeAnswers(student, key, qList, qs, fi, from).Ok?
        <==> forall k :: from <= k < |qList| ==>
               Lookup(qs, qList[k], fi).Ok? && NormalizeAnswer(student, key, qs[qList[k]][fi]).Ok?
    ensures NormalizeAnswers(student, key, qList, qs, fi, from).Ok? ==>
              var m := NormalizeAnswers(student, key, qList, qs, fi, from).value;
              && (forall q :: q in m <==> q in qList[from..])
              && (forall k :: from <= k < |qList| ==>
                    m[qList[k]] == NormalizeAnswer(student, key, qs[qList[k]][fi]).value)
    decreases |qList| - from
  {
    if from < |qList| {
      NormalizeAnswersShape(student, key, qList, qs, fi, from + 1);
      assert qList[from..] == [qList[from]] + qList[from + 1..];
      var q := qList[from];
      var e := Lookup(qs, q, fi);
      if e.Ok? {
        assert e.value == qs[q][fi];
        var a := NormalizeAnswer(student, key, e.value);
        var next := NormalizeAnswers(student, key, qList, qs, fi, from + 1);
        if a.Ok? && next.Ok? {
          var m := map[q := a.value] + next.value;
          assert NormalizeAnswers(student, key, qList, qs, fi, from) == Ok(m);
        }
      }
    }
  }

  /** A student row yields a record exactly when its identity columns and raw score are
      present, the raw score is an integer, the skip count was assigned and every
      answer normalises; the record copies the identity columns, lowers the raw score by
      the skip count and holds one answer per canonical question. */
  lemma NormalizeStudentShape(student: Row, key: Row, qList: seq<string>, qs: CanonMap, fi: nat, nSkipped: Option<nat>)
    ensures NormalizeStudent(student, key, qList, qs, fi, nSkipped).Ok?
        <==> && "CWID" in student && "Mybama ID" in student && "Student Name" in student
             && "Raw Score" in student && ParseInt(student["Raw Score"]).Some?
             && nSkipped.Some?
             && NormalizeAnswers(student, key, qList, qs, fi, 0).Ok?
    ensures NormalizeStudent(student, key, qList, qs, fi, nSkipped).Ok? ==>
              var rec := NormalizeStudent(student, key, qList, qs, fi, nSkipped).value;
              && rec.cwid == student["CWID"]
              && rec.mybamaId == student["Mybama ID"]
              && rec.name == student["Student Name"]
              && rec.rawScore == ParseInt(student["Raw Score"]).value - nSkipped.value
              && forall q :: q in rec.answers <==> q in qList
  {
    var r := NormalizeAnswers(student, key, qList, qs, fi, 0);
    NormalizeAnswersShape(student, key, qList, qs, fi, 0);
    assert qList[0..] == qList;
  }

  /** One record per row after the key, in row order. */
  lemma {:induction false} NormalizeRowsShape(rows: seq<Row>, key: Row, qList: seq<string>, qs: CanonMap, fi: nat, nSkipped: Option<nat>, from: nat)
    requires from <= |rows|
    ensures NormalizeRows(rows, key, qList, qs, fi, nSkipped, from).Ok?
        <==> forall j :: from <= j < |rows| ==> NormalizeStudent(rows[j], key, qList, qs, fi, nSkipped).Ok?
    ensures NormalizeRows(rows, key, qList, qs, fi, nSkipped, from).Ok? ==>
              var recs := NormalizeRows(rows, key, qList, qs, fi, nSkipped, from).value;
              && |recs| == |rows| - from
              && forall j :: from <= j < |rows| ==>
                   NormalizeStudent(rows[j], key, qList, qs, fi, nSkipped) == Ok(recs[j - from])
    decreases |rows| - from
  {
    if from < |rows| {
      NormalizeRowsShape(rows, key, qList, qs, fi, nSkipped, from + 1);
      var s := NormalizeStudent(rows[from], key, qList, qs, fi, nSkipped);
      var next := NormalizeRows(rows, key, qList, qs, fi, nSkipped, from + 1);
      if s.Err? {
        assert NormalizeRows(rows, key, qList, qs, fi, nSkipped, from).Err?;
      } else if next.Err? {
        assert NormalizeRows(rows, key, qList, qs, fi, nSkipped, from).Err?;
      } else {
        var recs := [s.value] + next.value;
        assert NormalizeRows(rows, key, qList, qs, fi, nSkipped, from) == Ok(recs);
        forall j | from < j < |rows|
          ensures NormalizeStudent(rows[j], key, qList, qs, fi, nSkipped) == Ok(recs[j - from])
        {
          assert recs[j - from] == next.value[j - (from + 1)];
        }
      }
    }
  }

  /** The number of student rows (all rows but the first) of the files from `from` on. */
  function StudentRows(files: seq<ResultFile>, from: nat): nat
    requires from <= |files|
    decreases |files| - from
  {
    if from == |files| then 0
    else (if files[from].rows == [] then 0 else |files[from].rows| - 1) + StudentRows(files, from + 1)
  }

  /** rec is the normalisation of student row j (never the key row 0) of file fi against
      that file's key and version. */
  predicate StudentRecord(files: seq<ResultFile>, qList: seq<string>, qs: CanonMap, nSkipped: Option<nat>,
                          fi: int, j: int, rec: NormRecord)
  {
    && 0 <= fi < |files| && 1 <= j < |files[fi].rows|
    && NormalizeStudent(files[fi].rows[j], files[fi].rows[0], qList, qs, fi, nSkipped) == Ok(rec)
  }

  /** rec is the normalisation of a student row of one of the files from `from` on. */
  ghost predicate FromStudentRow(files: seq<ResultFile>, qList: seq<string>, qs: CanonMap, nSkipped: Option<nat>,
                           from: nat, rec: NormRecord)
  {
    exists fi, j :: from <= fi && StudentRecord(files, qList, qs, nSkipped, fi, j, rec)
  }

  /** When normalisation succeeds every file had a key row, there is one record per
      student row, and each record is the normalisation of a student row (never of a
      key row) against its own file's key and version. */
  lemma {:induction false} NormalizeFilesShape(files: seq<ResultFile>, qList: seq<string>, qs: CanonMap, nSkipped: Option<nat>, from: nat)
    requires from <= |files|
    requires NormalizeFiles(files, qList, qs, nSkipped, from).Ok?
    ensures forall fi :: from <= fi < |files| ==> files[fi].rows != []
    ensures var recs := NormalizeFiles(files, qList, qs, nSkipped, from).value;
            && |recs| == StudentRows(files, from)
            && forall k :: 0 <= k < |recs| ==> FromStudentRow(files, qList, qs, nSkipped, from, recs[k])
    decreases |files| - from
  {
    if from < |files| {
      var f := files[from];
      var fa := NormalizeFile(f, qList, qs, from, nSkipped);
      var fr := NormalizeFiles(files, qList, qs, nSkipped, from + 1);
      assert fa.Ok? && fr.Ok?;
      var a := fa.value;
      var rest := fr.value;
      var recs := NormalizeFiles(files, qList, qs, nSkipped, from).value;
      assert recs == a + rest;
      assert f.rows != [];
      assert fa == NormalizeRows(f.rows, f.rows[0], qList, qs, from, nSkipped, 1);
      NormalizeFilesShape(files, qList, qs, nSkipped, from + 1);
      NormalizeRowsShape(f.rows, f.rows[0], qList, qs, from, nSkipped, 1);
      forall k | 0 <= k < |recs|
        ensures FromStudentRow(files, qList, qs, nSkipped, from, recs[k])
      {
        if k < |a| {
          assert recs[k] == a[k];
          assert StudentRecord(files, qList, qs, nSkipped, from, k + 1, recs[k]);
          assert FromStudentRow(files, qList, qs, nSkipped, from, recs[k]);
        } else {
          assert recs[k] == rest[k - |a|];
          assert FromStudentRow(files, qList, qs, nSkipped, from + 1, rest[k - |a|]);
          var fi, j :| from + 1 <= fi && StudentRecord(files, qList, qs, nSkipped, fi, j, rest[k - |a|]);
          assert StudentRecord(files, qList, qs, nSkipped, fi, j, recs[k]);
          assert FromStudentRow(files, qList, qs, nSkipped, from, recs[k]);
        }
      }
    }
  }

  /** rec carries the CWID of row and its raw score less the skip count. */
  predicate RecordOf(row: Row, nSkipped: Option<nat>, rec: NormRecord)
  {
    && "CWID" in row && rec.cwid == row["CWID"]
    && "Raw Score" in row && ParseInt(row["Raw Score"]).Some? && nSkipped.Some?
    && rec.rawScore == ParseInt(row["Raw Score"]).value - nSkipped.value
  }

  /** Every output record describes one student row of one input file: its identity
      columns, its raw score less the skip count, and an answer for every canonical
      question and nothing else. */
  lemma EveryRecordFromStudentRow(files: seq<ResultFile>, qList: seq<string>, qs: CanonMap, nSkipped: Option<nat>)
    requires Normalization(files, qList, qs, nSkipped).Ok?
    ensures Normalization(files, qList, qs, nSkipped).value.header == Header(files, qList)
    ensures var recs := Normalization(files, qList, qs, nSkipped).value.records;
            && |recs| == StudentRows(files, 0)
            && forall k :: 0 <= k < |recs| ==>
                 && (forall q :: q in recs[k].answers <==> q in qList)
                 && exists fi, j :: 0 <= fi < |files| && 1 <= j < |files[fi].rows|
                      && RecordOf(files[fi].rows[j], nSkipped, recs[k])
  {
    var all := NormalizeFiles(files, qList, qs, nSkipped, 0);
    assert Normalization(files, qList, qs, nSkipped) == Ok(Normalized(Header(files, qList), all.value));
    var recs := all.value;
    NormalizeFilesShape(files, qList, qs, nSkipped, 0);
    forall k | 0 <= k < |recs|
      ensures && (forall q :: q in recs[k].answers <==> q in qList)
              && exists fi, j :: 0 <= fi < |files| && 1 <= j < |files[fi].rows|
                   && RecordOf(files[fi].rows[j], nSkipped, recs[k])
    {
      assert FromStudentRow(files, qList, qs, nSkipped, 0, recs[k]);
      var fi, j :| 0 <= fi && StudentRecord(files, qList, qs, nSkipped, fi, j, recs[k]);
      NormalizeStudentShape(files[fi].rows[j], files[fi].rows[0], qList, qs, fi, nSkipped);
      assert RecordOf(files[fi].rows[j], nSkipped, recs[k]);
    }
  }

  // ------------------------------------------------------------------ missing entries

  lemma {:induction false} AnswersNoEntry(student: Row, key: Row, qList: seq<string>, qs: CanonMap, fi: nat, from: nat, q: string, f: nat)
    requires from <= |qList|
    requires NormalizeAnswers(student, key, qList, qs, fi, from) == Err(NoEntry(q, f))
    ensures f == fi && q in qList && Lookup(qs, q, fi).Err?
    decreases |qList| - from
  {
    if from < |qList| {
      var e := Lookup(qs, qList[from], fi);
      if e.Ok? {
        var a := NormalizeAnswer(student, key, e.value);
        if a.Ok? {
          AnswersNoEntry(student, key, qList, qs, fi, from + 1, q, f);
        }
      }
    }
  }

  lemma {:induction false} RowsNoEntry(rows: seq<Row>, key: Row, qList: seq<string>, qs: CanonMap, fi: nat, nSkipped: Option<nat>, from: nat, q: string, f: nat)
    requires from <= |rows|
    requires NormalizeRows(rows, key, qList, qs, fi, nSkipped, from) == Err(NoEntry(q, f))
    ensures f == fi && q in qList && Lookup(qs, q, fi).Err? && from < |rows|
    decreases |rows| - from
  {
    if from < |rows| {
      var s := NormalizeStudent(rows[from], key, qList, qs, fi, nSkipped);
      if s.Ok? {
        RowsNoEntry(rows, key, qList, qs, fi, nSkipped, from + 1, q, f);
      } else {
        AnswersNoEntry(rows[from], key, qList, qs, fi, 0, q, f);
      }
    }
  }

  lemma {:induction false} FilesNoEntry(files: seq<ResultFile>, qList: seq<string>, qs: CanonMap, nSkipped: Option<nat>, from: nat, q: string, f: nat)
    requires from <= |files|
    requires NormalizeFiles(files, qList, qs, nSkipped, from) == Err(NoEntry(q, f))
    ensures from <= f < |files| && |files[f].rows| > 1 && q in qList && Lookup(qs, q, f).Err?
    decreases |files| - from
  {
    if from < |files| {
      var a := NormalizeFile(files[from], qList, qs, from, nSkipped);
      if a.Ok? {
        FilesNoEntry(files, qList, qs, nSkipped, from + 1, q, f);
      } else {
        RowsNoEntry(files[from].rows, files[from].rows[0], qList, qs, from, nSkipped, 1, q, f);
      }
    }
  }

  /** The KeyError on questions[q][qs] happens only for a file that has a student row and
      whose version either does not exist or records no slot for q (q absent from its
      order, or without a permuted definition there). */
  lemma NoEntryOnlyForMissingSlot(vs: seq<Version>, files: seq<ResultFile>, qList: seq<string>, q: string, f: nat)
    requires Normalization(files, qList, Canon(vs), SkipCount(vs)) == Err(NoEntry(q, f))
    ensures f < |files| && |files[f].rows| > 1 && q in qList
    ensures f >= |vs| || Slot(vs[f], q).None?
  {
    FilesNoEntry(files, qList, Canon(vs), SkipCount(vs), 0, q, f);
    CanonEntries(vs, q, f);
  }
}
