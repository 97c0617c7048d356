/** examtex/normalize.py: builds, for every canonical question and every version, the
    question's position and choice permutation in that version; then rewrites the
    student rows of every version's result file into canonical choice numbers. */
module Normalize {
  import opened Text
  import opened Config
  import Util

  /** Where a canonical question sits in one version, and its choice permutation there. */
  datatype Entry = Entry(pos: nat, perm: seq<int>)

  /** questions[qid][version index]: the "q<i>" and "p<i>" keys of the source, paired. */
  type CanonMap = map<string, map<nat, Entry>>

  // ------------------------------------------------------------------------
  // The canonical map as the loops of lines 32-48 build it

  predicate IsPermDef(d: QuestionDef, q: string) { d.perm.Some? && d.qid == q }

  /** Number of definitions without a `perm`: what one scan of the definitions adds to
      the skipped-question count. */
  function CountPermless(defs: seq<QuestionDef>): nat
    decreases |defs|
  {
    if defs == [] then 0
    else CountPermless(defs[..|defs| - 1]) + (if defs[|defs| - 1].perm.None? then 1 else 0)
  }

  /** questions[q][vi] := e, creating questions[q] first when it is absent. */
  function Put(qs: CanonMap, q: string, vi: nat, e: Entry): CanonMap
  {
    qs[q := (if q in qs then qs[q] else map[])[vi := e]]
  }

  /** The state after scanning the definitions for the order entry q at position i. */
  function ScanDefs(qs: CanonMap, vi: nat, i: nat, q: string, defs: seq<QuestionDef>): CanonMap
    decreases |defs|
  {
    if defs == [] then qs
    else
      var before := ScanDefs(qs, vi, i, q, defs[..|defs| - 1]);
      var d := defs[|defs| - 1];
      if IsPermDef(d, q) then Put(before, q, vi, Entry(i, d.perm.value)) else before
  }

  /** The state after walking a version's order (version number vi). */
  function AddOrder(qs: CanonMap, vi: nat, order: seq<string>, defs: seq<QuestionDef>): CanonMap
    decreases |order|
  {
    if order == [] then qs
    else
      var before := AddOrder(qs, vi, order[..|order| - 1], defs);
      var q := order[|order| - 1];
      if q != Placeholder then ScanDefs(before, vi, |order| - 1, q, defs) else before
  }

  /** The map the builder leaves after all versions. */
  function Canon(vs: seq<Version>): CanonMap
    decreases |vs|
  {
    if vs == [] then map[]
    else
      var v := vs[|vs| - 1];
      AddOrder(Canon(vs[..|vs| - 1]), |vs| - 1, v.order, v.questions)
  }

  /** The skipped-question count after walking one version's order: it is reset for every
      order entry, so only the last entry decides it; None stands for never assigned. */
  function SkipAfterOrder(n: Option<nat>, order: seq<string>, defs: seq<QuestionDef>): Option<nat>
  {
    if order == [] then n
    else if order[|order| - 1] == Placeholder then Some(0)
    else Some(CountPermless(defs))
  }

  function SkipCount(vs: seq<Version>): Option<nat>
    decreases |vs|
  {
    if vs == [] then None
    else
      var v := vs[|vs| - 1];
      SkipAfterOrder(SkipCount(vs[..|vs| - 1]), v.order, v.questions)
  }

  /** Lines 32-48: fill `questions` and track `n_skipped`. */
  method BuildCanonicalMap(vs: seq<Version>) returns (questions: CanonMap, nSkipped: Option<nat>)
    ensures questions == Canon(vs)
    ensures nSkipped == SkipCount(vs)
  {
    questions := map[];
    nSkipped := None;
    for vi := 0 to |vs|
      invariant questions == Canon(vs[..vi])
      invariant nSkipped == SkipCount(vs[..vi])
    {
      var v := vs[vi];
      assert vs[..vi + 1][..vi] == vs[..vi];
      ghost var atVersion := questions;
      ghost var skipAtVersion := nSkipped;
      for i := 0 to |v.order|
        invariant questions == AddOrder(atVersion, vi, v.order[..i], v.questions)
        invariant nSkipped == SkipAfterOrder(skipAtVersion, v.order[..i], v.questions)
      {
        assert v.order[..i + 1][..i] == v.order[..i];
        var q := v.order[i];
        nSkipped := Some(0);
        if q != Placeholder {
          var permless;
          questions, permless := ScanEntry(questions, vi, i, q, v.questions);
          nSkipped := Some(permless);
        }
      }
      assert v.order[..|v.order|] == v.order;
    }
    assert vs[..|vs|] == vs;
  }

  /** Lines 39-47: the scan of a version's definitions for the order entry q at
      position i, counting the definitions without a perm. */
  method ScanEntry(start: CanonMap, vi: nat, i: nat, q: string, defs: seq<QuestionDef>)
    returns (questions: CanonMap, permless: nat)
    ensures questions == ScanDefs(start, vi, i, q, defs)
    ensures permless == CountPermless(defs)
  {
    questions := start;
    permless := 0;
    for j := 0 to |defs|
      invariant questions == ScanDefs(start, vi, i, q, defs[..j])
      invariant permless == CountPermless(defs[..j])
    {
      assert defs[..j + 1][..j] == defs[..j];
      var qd := defs[j];
      if qd.perm.Some? {
        if q == qd.qid {
          ghost var was := questions;
          var byVersion: map<nat, Entry> := if q in questions then questions[q] else map[];
          questions := questions[q := byVersion[vi := Entry(i, qd.perm.value)]];
          assert questions == Put(was, q, vi, Entry(i, qd.perm.value));
        }
      } else {
        permless := permless + 1;
      }
    }
    assert defs[..|defs|] == defs;
  }

  // ------------------------------------------------------------------------
  // What the map records, stated without the loops

  predicate HasPerm(defs: seq<QuestionDef>, q: string)
  {
    exists j :: 0 <= j < |defs| && IsPermDef(defs[j], q)
  }

  /** The last definition of q that carries a perm. */
  function LastPermDef(defs: seq<QuestionDef>, q: string): (j: nat)
    requires HasPerm(defs, q)
    ensures j < |defs| && IsPermDef(defs[j], q)
    ensures forall k :: j < k < |defs| ==> !IsPermDef(defs[k], q)
    decreases |defs|
  {
    if IsPermDef(defs[|defs| - 1], q) then |defs| - 1
    else
      HasPermInit(defs, q);
      LastPermDef(defs[..|defs| - 1], q)
  }

  lemma HasPermInit(defs: seq<QuestionDef>, q: string)
    requires HasPerm(defs, q) && !IsPermDef(defs[|defs| - 1], q)
    ensures HasPerm(defs[..|defs| - 1], q)
  {
    var j :| 0 <= j < |defs| && IsPermDef(defs[j], q);
    assert defs[..|defs| - 1][j] == defs[j];
  }

  /** The last position of q in order. */
  function LastIndex(order: seq<string>, q: string): (i: nat)
    requires q in order
    ensures i < |order| && order[i] == q
    ensures forall k :: i < k < |order| ==> order[k] != q
    decreases |order|
  {
    if order[|order| - 1] == q then |order| - 1
    else
      assert order == order[..|order| - 1] + [order[|order| - 1]];
      LastIndex(order[..|order| - 1], q)
  }

  /** The entry a version with this order and these definitions records for q, if any:
      q must be a non-placeholder order entry with a permuted definition; the position
      is q's last index in the whole order (placeholders counted) and the permutation
      is that of q's last permuted definition. */
  function SlotOf(order: seq<string>, defs: seq<QuestionDef>, q: string): Option<Entry>
  {
    if q != Placeholder && q in order && HasPerm(defs, q)
    then Some(Entry(LastIndex(order, q), defs[LastPermDef(defs, q)].perm.value))
    else None
  }

  function Slot(v: Version, q: string): Option<Entry>
  {
    SlotOf(v.order, v.questions, q)
  }

  /** The definition scan sets questions[q][vi] to q's last permuted definition, if any. */
  lemma {:induction false} ScanDefsClosed(qs: CanonMap, vi: nat, i: nat, q: string, defs: seq<QuestionDef>)
    ensures ScanDefs(qs, vi, i, q, defs)
         == if HasPerm(defs, q) then Put(qs, q, vi, Entry(i, defs[LastPermDef(defs, q)].perm.value)) else qs
    decreases |defs|
  {
    if defs != [] {
      var init := defs[..|defs| - 1];
      var d := defs[|defs| - 1];
      ScanDefsClosed(qs, vi, i, q, init);
      if IsPermDef(d, q) {
        if HasPerm(init, q) {
          var e1 := Entry(i, init[LastPermDef(init, q)].perm.value);
          var e2 := Entry(i, d.perm.value);
          var inner := if q in qs then qs[q] else map[];
          assert inner[vi := e1][vi := e2] == inner[vi := e2];
          assert Put(Put(qs, q, vi, e1), q, vi, e2) == Put(qs, q, vi, e2);
        }
      } else {
        if HasPerm(defs, q) {
          HasPermInit(defs, q);
          var j := LastPermDef(init, q);
          assert defs[j] == init[j];
        }
      }
    }
  }

  /** One more order entry changes only that entry's slot. */
  lemma SlotOfStep(order: seq<string>, defs: seq<QuestionDef>, q: string)
    requires order != []
    ensures var last := order[|order| - 1];
            SlotOf(order, defs, q)
            == if q == last && q != Placeholder && HasPerm(defs, q)
               then Some(Entry(|order| - 1, defs[LastPermDef(defs, q)].perm.value))
               else SlotOf(order[..|order| - 1], defs, q)
  {
    var init := order[..|order| - 1];
    assert order == init + [order[|order| - 1]];
    if q != order[|order| - 1] {
      assert q in order <==> q in init;
    }
  }

  /** Walking an order adds exactly the slots of that order under version vi. */
  lemma {:induction false} AddOrderEntries(qs: CanonMap, vi: nat, order: seq<string>, defs: seq<QuestionDef>, q: string)
    ensures var r := AddOrder(qs, vi, order, defs);
            var s := SlotOf(order, defs, q);
            && (q in r <==> q in qs || s.Some?)
            && (q in r ==> r[q] == if s.Some? then (if q in qs then qs[q] else map[])[vi := s.value]
                                   else qs[q])
    decreases |order|
  {
    if order != [] {
      var init := order[..|order| - 1];
      var last := order[|order| - 1];
      var before := AddOrder(qs, vi, init, defs);
      AddOrderEntries(qs, vi, init, defs, q);
      SlotOfStep(order, defs, q);
      if last != Placeholder {
        ScanDefsClosed(before, vi, |order| - 1, last, defs);
      }
    }
  }

  /** What the canonical map holds: questions[q][k] exists exactly when version k records
      a slot for q, and then it is that slot; every key has at least one version. */
  lemma {:induction false} CanonEntries(vs: seq<Version>, q: string, k: nat)
    ensures (q in Canon(vs) && k in Canon(vs)[q]) <==> (k < |vs| && Slot(vs[k], q).Some?)
    ensures q in Canon(vs) && k in Canon(vs)[q] ==> Canon(vs)[q][k] == Slot(vs[k], q).value
    ensures q in Canon(vs) ==> exists m :: 0 <= m < |vs| && m in Canon(vs)[q]
    decreases |vs|
  {
    if vs != [] {
      var init := vs[..|vs| - 1];
      var vi := |vs| - 1;
      var v := vs[vi];
      CanonEntries(init, q, k);
      AddOrderEntries(Canon(init), vi, v.order, v.questions, q);
      if k < vi { assert init[k] == vs[k]; }
      if q in Canon(init) {
        CanonEntries(init, q, 0);
        var m :| 0 <= m < |init| && m in Canon(init)[q];
        CanonEntries(init, q, m);
        CanonEntries(init, q, vi);
        assert m in Canon(vs)[q];
      } else if q in Canon(vs) {
        assert vi in Canon(vs)[q];
      }
    }
  }

  /** The final skip count is decided by the last version whose order is not empty: 0 if
      that order ends in a placeholder, else that version's number of perm-less
      definitions; it is never assigned when every order is empty. */
  lemma {:induction false} SkipCountFromLastOrdered(vs: seq<Version>, k: nat)
    requires k < |vs| && vs[k].order != []
    requires forall m :: k < m < |vs| ==> vs[m].order == []
    ensures SkipCount(vs) == Some(if vs[k].order[|vs[k].order| - 1] == Placeholder then 0
                                  else CountPermless(vs[k].questions))
    decreases |vs|
  {
    if k < |vs| - 1 {
      var init := vs[..|vs| - 1];
      assert init[k] == vs[k];
      SkipCountFromLastOrdered(init, k);
    }
  }

  lemma {:induction false} SkipCountUnassigned(vs: seq<Version>)
    ensures SkipCount(vs).None? <==> forall m :: 0 <= m < |vs| ==> vs[m].order == []
    decreases |vs|
  {
    if vs != [] {
      var init := vs[..|vs| - 1];
      SkipCountUnassigned(init);
      assert forall m :: 0 <= m < |init| ==> init[m] == vs[m];
    }
  }

  // ------------------------------------------------------------------------
  // Normalising the result files (lines 57-105)

  /** A row of a result file: column name to cell text. A complete line gives every
      header field; csv.DictReader's None padding of a short line is not represented. */
  type Row = map<string, string>

  /** One result file: its header fields and its data rows (the first is the key). */
  datatype ResultFile = ResultFile(fields: seq<string>, rows: seq<Row>)

  /** A norm dict: identity fields, the adjusted raw score, one answer per question. */
  datatype NormRecord = NormRecord(cwid: string, mybamaId: string, name: string,
                                   rawScore: int, answers: map<string, string>)

  /** The exceptions that end the script: NoKeyRow for a file without a key row (an
      empty file fails at `reader.fieldnames[:5]` with a TypeError, as fieldnames is None;
      a file with only a header fails at `next(reader)` with StopIteration), KeyError
      for a question the map has no entry for in that file's version or for a missing
      column, ValueError for a raw score that is not an integer, and
      NameError when `n_skipped` was never assigned. */
  datatype NormError = NoKeyRow(file: nat) | NoEntry(qid: string, file: nat)
                     | MissingColumn(column: string) | BadRawScore(text: string) | SkipCountUnset

  /** The output table: header (None when there were no files) and the records. */
  datatype Normalized = Normalized(header: Option<seq<string>>, records: seq<NormRecord>)

  const Blank: string := "."

  /** The column holding the response at a zero-based position. */
  function Column(pos: nat): string { IntToString(pos + 1) }

  function Get(row: Row, col: string): Result<string, NormError>
  {
    if col in row then Ok(row[col]) else Err(MissingColumn(col))
  }

  /** Lines 95-99: an integer response r becomes str(perm[r-1]+1), with Python's
      negative indexing when r-1 < 0; a response that is not an integer, or whose
      index is out of range, passes through unchanged. */
  function Remap(response: string, perm: seq<int>): string
  {
    match ParseInt(response)
    case None => response
    case Some(r) =>
      match PyIndex(perm, r - 1)
      case None => response
      case Some(p) => IntToString(p + 1)
  }

  /** Lines 90-99 for one canonical question: a blank takes the key row's value in the
      same column, and the result is remapped. */
  function NormalizeAnswer(student: Row, key: Row, e: Entry): Result<string, NormError>
  {
    var col := Column(e.pos);
    var response :- Get(student, col);
    var filled :- if response == Blank then Get(key, col) else Ok(response);
    Ok(Remap(filled, e.perm))
  }

  /** questions[q][qs] and questions[q][ps] for file fi. */
  function Lookup(qs: CanonMap, q: string, fi: nat): Result<Entry, NormError>
  {
    if q in qs && fi in qs[q] then Ok(qs[q][fi]) else Err(NoEntry(q, fi))
  }

  function NormalizeAnswers(student: Row, key: Row, qList: seq<string>, qs: CanonMap, fi: nat, from: nat)
    : Result<map<string, string>, NormError>
    requires from <= |qList|
    decreases |qList| - from
  {
    if from == |qList| then Ok(map[])
    else
      var q := qList[from];
      var e :- Lookup(qs, q, fi);
      var a :- NormalizeAnswer(student, key, e);
      var rest :- NormalizeAnswers(student, key, qList, qs, fi, from + 1);
      Ok(map[q := a] + rest)
  }

  /** Lines 76-102 for one student row of file fi. */
  function NormalizeStudent(student: Row, key: Row, qList: seq<string>, qs: CanonMap, fi: nat, nSkipped: Option<nat>)
    : Result<NormRecord, NormError>
  {
    var cwid :- Get(student, "CWID");
    var myId :- Get(student, "Mybama ID");
    var name :- Get(student, "Student Name");
    var rawText :- Get(student, "Raw Score");
    var raw :- if ParseInt(rawText).Some? then Ok(ParseInt(rawText).value) else Err(BadRawScore(rawText));
    var skipped :- if nSkipped.Some? then Ok(nSkipped.value) else Err(SkipCountUnset);
    var answers :- NormalizeAnswers(student, key, qList, qs, fi, 0);
    Ok(NormRecord(cwid, myId, name, raw - skipped, answers))
  }

  function NormalizeRows(rows: seq<Row>, key: Row, qList: seq<string>, qs: CanonMap, fi: nat, nSkipped: Option<nat>, from: nat)
    : Result<seq<NormRecord>, NormError>
    requires from <= |rows|
    decreases |rows| - from
  {
    if from == |rows| then Ok([])
    else
      var r :- NormalizeStudent(rows[from], key, qList, qs, fi, nSkipped);
      var rest :- NormalizeRows(rows, key, qList, qs, fi, nSkipped, from + 1);
      Ok([r] + rest)
  }

  /** The records of file fi: its first row is the key and is not emitted. */
  function NormalizeFile(f: ResultFile, qList: seq<string>, qs: CanonMap, fi: nat, nSkipped: Option<nat>)
    : Result<seq<NormRecord>, NormError>
  {
    if f.rows == [] then Err(NoKeyRow(fi))
    else NormalizeRows(f.rows, f.rows[0], qList, qs, fi, nSkipped, 1)
  }

  function NormalizeFiles(files: seq<ResultFile>, qList: seq<string>, qs: CanonMap, nSkipped: Option<nat>, from: nat)
    : Result<seq<NormRecord>, NormError>
    requires from <= |files|
    decreases |files| - from
  {
    if from == |files| then Ok([])
    else
      var a :- NormalizeFile(files[from], qList, qs, from, nSkipped);
      var rest :- NormalizeFiles(files, qList, qs, nSkipped, from + 1);
      Ok(a + rest)
  }

  /** fieldnames[:5] */
  function Take5(fields: seq<string>): seq<string>
  {
    if |fields| <= 5 then fields else fields[..5]
  }

  /** The output header, taken from the last file read. */
  function Header(files: seq<ResultFile>, qList: seq<string>): Option<seq<string>>
  {
    if files == [] then None else Some(Take5(files[|files| - 1].fields) + qList)
  }

  function Normalization(files: seq<ResultFile>, qList: seq<string>, qs: CanonMap, nSkipped: Option<nat>)
    : Result<Normalized, NormError>
  {
    var records :- NormalizeFiles(files, qList, qs, nSkipped, 0);
    Ok(Normalized(Header(files, qList), records))
  }

  function PrefixedMap(acc: map<string, string>, r: Result<map<string, string>, NormError>)
    : Result<map<string, string>, NormError>
  {
    match r
    case Ok(rest) => Ok(acc + rest)
    case Err(e) => Err(e)
  }

  lemma PrefixedMapEmpty(r: Result<map<string, string>, NormError>)
    ensures PrefixedMap(map[], r) == r
  {
    if r.Ok? { assert map[] + r.value == r.value; }
  }

  lemma UnionStep(acc: map<string, string>, q: string, a: string, rest: map<string, string>)
    ensures acc + (map[q := a] + rest) == acc[q := a] + rest
  {
  }

  /** Lines 76-102: one student row into its norm record. */
  method NormalizeRow(student: Row, key: Row, qList: seq<string>, qs: CanonMap, fi: nat, nSkipped: Option<nat>)
    returns (r: Result<NormRecord, NormError>)
    ensures r == NormalizeStudent(student, key, qList, qs, fi, nSkipped)
  {
    var cwid :- Get(student, "CWID");
    var myId :- Get(student, "Mybama ID");
    var name :- Get(student, "Student Name");
    var rawText :- Get(student, "Raw Score");
    if ParseInt(rawText).None? {
      return Err(BadRawScore(rawText));
    }
    if nSkipped.None? {
      return Err(SkipCountUnset);
    }
    var rawScore := ParseInt(rawText).value - nSkipped.value;
    var norm: map<string, string> := map[];
    PrefixedMapEmpty(NormalizeAnswers(student, key, qList, qs, fi, 0));
    for k := 0 to |qList|
      invariant NormalizeAnswers(student, key, qList, qs, fi, 0)
             == PrefixedMap(norm, NormalizeAnswers(student, key, qList, qs, fi, k))
    {
      var q := qList[k];
      var e :- Lookup(qs, q, fi);
      var mapped :- NormalizeAnswer(student, key, e);
      var later := NormalizeAnswers(student, key, qList, qs, fi, k + 1);
      if later.Ok? {
        UnionStep(norm, q, mapped, later.value);
      }
      norm := norm[q := mapped];
    }
    assert norm + map[] == norm;
    r := Ok(NormRecord(cwid, myId, name, rawScore, norm));
  }

  /** Lines 76-103 for one file: the records of the rows after the key row. */
  method NormalizeFileRows(rows: seq<Row>, qList: seq<string>, qs: CanonMap, fi: nat, nSkipped: Option<nat>)
    returns (r: Result<seq<NormRecord>, NormError>)
    requires rows != []
    ensures r == NormalizeRows(rows, rows[0], qList, qs, fi, nSkipped, 1)
  {
    var key := rows[0];
    var records: seq<NormRecord> := [];
    PrefixedEmpty(NormalizeRows(rows, key, qList, qs, fi, nSkipped, 1));
    for j := 1 to |rows|
      invariant NormalizeRows(rows, key, qList, qs, fi, nSkipped, 1)
             == Prefixed(records, NormalizeRows(rows, key, qList, qs, fi, nSkipped, j))
    {
      var row := NormalizeRow(rows[j], key, qList, qs, fi, nSkipped);
      if row.Err? {
        assert NormalizeRows(rows, key, qList, qs, fi, nSkipped, j) == Err(row.error);
        return Err(row.error);
      }
      PrefixedAppend(records, [row.value], NormalizeRows(rows, key, qList, qs, fi, nSkipped, j + 1));
      records := records + [row.value];
    }
    assert records + [] == records;
    r := Ok(records);
  }

  /** Lines 55-105: every file in turn; the key row first, then one record per student. */
  method ProcessFiles(files: seq<ResultFile>, qList: seq<string>, qs: CanonMap, nSkipped: Option<nat>)
    returns (res: Result<Normalized, NormError>)
    ensures res == Normalization(files, qList, qs, nSkipped)
  {
    var csvHeader: Option<seq<string>> := None;
    var normStudents: seq<NormRecord> := [];
    PrefixedEmpty(NormalizeFiles(files, qList, qs, nSkipped, 0));
    for i := 0 to |files|
      invariant NormalizeFiles(files, qList, qs, nSkipped, 0)
             == Prefixed(normStudents, NormalizeFiles(files, qList, qs, nSkipped, i))
      invariant csvHeader == Header(files[..i], qList)
    {
      var f := files[i];
      csvHeader := Some(Take5(f.fields) + qList);
      assert csvHeader == Header(files[..i + 1], qList);
      if f.rows == [] {
        assert NormalizeFiles(files, qList, qs, nSkipped, i) == Err(NoKeyRow(i));
        return Err(NoKeyRow(i));
      }
      var records := NormalizeFileRows(f.rows, qList, qs, i, nSkipped);
      if records.Err? {
        assert NormalizeFiles(files, qList, qs, nSkipped, i) == Err(records.error);
        return Err(records.error);
      }
      assert NormalizeFiles(files, qList, qs, nSkipped, i)
          == Prefixed(records.value, NormalizeFiles(files, qList, qs, nSkipped, i + 1));
      PrefixedAppend(normStudents, records.value, NormalizeFiles(files, qList, qs, nSkipped, i + 1));
      normStudents := normStudents + records.value;
    }
    assert files[..|files|] == files;
    assert normStudents + [] == normStudents;
    res := Ok(Normalized(csvHeader, normStudents));
  }

  /** The whole script after argument parsing: build the map, sort its keys, process. */
  method NormalizeExam(vs: seq<Version>, files: seq<ResultFile>)
    returns (qList: seq<string>, res: Result<Normalized, NormError>)
    ensures StrictlySorted(qList)
    ensures forall q :: q in qList <==> q in Canon(vs)
    ensures res == Normalization(files, qList, Canon(vs), SkipCount(vs))
  {
    var questions, nSkipped := BuildCanonicalMap(vs);
    qList := SortedList(questions.Keys);
    res := ProcessFiles(files, qList, questions, nSkipped);
  }
}
