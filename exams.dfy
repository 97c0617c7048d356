/** examtex/exam.py: the Exam object whose attributes are its merged configuration,
    the file names of the typeset versions, the question selection of each version and
    the sequence of files make_exams produces. The Jinja templates themselves are not
    rendered: a rendered template is represented by its source and the attributes it is
    rendered with, and an exam file by what the exam template receives. */
module Exams {
  import opened Text
  import opened Config

  /** A configuration value as loaded from YAML or the command line. An empty YAML list
      is `Strs([])` under docopts and `Versions([])` under versions, the constructor each
      key's non-empty lists take. */
  datatype Value =
    | Str(s: string)
    | Number(n: int)
    | Strs(items: seq<string>)
    | Versions(versions: seq<Version>)
    | Other

  /** Why make_exams or render stops: an attribute the object lacks, an attribute of a
      type the operation cannot use, a semester that is not two words, or a selected
      question definition without a `version` key. */
  datatype ExamError =
    | MissingAttribute(name: string)
    | WrongType(name: string)
    | BadSemester(semester: string)
    | NoVariant(qid: string)

  /** `{**a, **b}`: every key of either map, with b's value where both have one. */
  function Merge<V>(a: map<string, V>, b: map<string, V>): (m: map<string, V>)
    ensures forall k :: k in m <==> k in a || k in b
    ensures forall k :: k in b ==> m[k] == b[k]
    ensures forall k :: k in a && k !in b ==> m[k] == a[k]
  {
    a + b
  }

  // ------------------------------------------------------------- attributes

  function Attr(attrs: map<string, Value>, key: string): (r: Result<Value, ExamError>)
    ensures r.Ok? <==> key in attrs
    ensures r.Ok? ==> r.value == attrs[key]
    ensures r.Err? ==> r.error == MissingAttribute(key)
  {
    if key in attrs then Ok(attrs[key]) else Err(MissingAttribute(key))
  }

  /** An attribute used as a string (split, replace, a template source). */
  function StrAttr(attrs: map<string, Value>, key: string): (r: Result<string, ExamError>)
    ensures r.Ok? <==> key in attrs && attrs[key].Str?
    ensures r.Ok? ==> attrs[key] == Str(r.value)
  {
    var v :- Attr(attrs, key);
    if v.Str? then Ok(v.s) else Err(WrongType(key))
  }

  /** A string iterated as a sequence: each character as a one-character string. */
  function Chars(s: string): (r: seq<string>)
    ensures |r| == |s|
    ensures forall i :: 0 <= i < |s| ==> r[i] == [s[i]]
  {
    seq(|s|, i requires 0 <= i < |s| => [s[i]])
  }

  /** The option string render builds from a copy of docopts: a list of strings is
      joined by ", ", with "answers" appended first when answers are printed. A single
      string is joined character by character, and has no append, so it fails only when
      answers are printed. */
  function DocoptsStr(attrs: map<string, Value>, answers: bool): (r: Result<string, ExamError>)
    ensures r.Ok? <==> "docopts" in attrs && (attrs["docopts"].Strs? || (attrs["docopts"].Str? && !answers))
    ensures "docopts" !in attrs ==> r == Err(MissingAttribute("docopts"))
    ensures "docopts" in attrs && r.Err? ==> r == Err(WrongType("docopts"))
    ensures r.Ok? && attrs["docopts"].Strs? ==> r.value == Join(", ", attrs["docopts"].items + (if answers then ["answers"] else []))
    ensures r.Ok? && attrs["docopts"].Str? ==> r.value == Join(", ", Chars(attrs["docopts"].s))
  {
    var d :- Attr(attrs, "docopts");
    match d
    case Strs(opts) => Ok(Join(", ", opts + (if answers then ["answers"] else [])))
    case Str(text) => if answers then Err(WrongType("docopts")) else Ok(Join(", ", Chars(text)))
    case _ => Err(WrongType("docopts"))
  }

  /** An attribute placed into a file name by "{}".format: strings and integers. */
  function FormatAttr(attrs: map<string, Value>, key: string): (r: Result<string, ExamError>)
    ensures r.Ok? <==> key in attrs && (attrs[key].Str? || attrs[key].Number?)
    ensures r.Ok? && attrs[key].Str? ==> r.value == attrs[key].s
    ensures r.Ok? && attrs[key].Number? ==> r.value == IntToString(attrs[key].n)
  {
    var v :- Attr(attrs, key);
    match v
    case Str(s) => Ok(s)
    case Number(n) => Ok(IntToString(n))
    case _ => Err(WrongType(key))
  }

  /** The versions make_exams loops over: a list of version records. */
  function VersionsAttr(attrs: map<string, Value>): (r: Result<seq<Version>, ExamError>)
    ensures r.Ok? <==> "versions" in attrs && attrs["versions"].Versions?
    ensures r.Ok? ==> attrs["versions"] == Versions(r.value)
  {
    var v :- Attr(attrs, "versions");
    if v.Versions? then Ok(v.versions) else Err(WrongType("versions"))
  }

  // ----------------------------------------------------------------- naming

  /** The short semester of the output file names: "Sp", "Su" or "Fa" followed by the
      year; a semester that does not split into exactly two words is an error. */
  function ShortSemester(semester: string): (r: Result<string, ExamError>)
    ensures r.Ok? <==> |Words(semester)| == 2
    ensures r.Err? ==> r.error == BadSemester(semester)
  {
    var ws := Words(semester);
    if |ws| != 2 then Err(BadSemester(semester))
    else
      var season := if ws[0] == "Spring" then "Sp" else if ws[0] == "Summer" then "Su" else "Fa";
      Ok(season + ws[1])
  }

  /** The output file of one version: the directory, the exam name without spaces, the
      version, the course and the short semester, with "_soln" for the answer file. */
  function OutFile(examDir: string, exam: string, versionId: string, course: string,
                   shortSem: string, answers: bool): string
  {
    examDir + "/" + RemoveSpaces(exam) + versionId + "_" + course + "_" + shortSem
    + (if answers then "_soln" else "") + ".tex"
  }

  /** The name make_exams writes to, from the attributes at the time it is formatted. */
  function FileName(attrs: map<string, Value>, versionId: string, shortSem: string, answers: bool): (r: Result<string, ExamError>)
    ensures r.Ok? <==> FormatAttr(attrs, "exam_dir").Ok? && StrAttr(attrs, "exam").Ok? && FormatAttr(attrs, "course").Ok?
  {
    var dir :- FormatAttr(attrs, "exam_dir");
    var exam :- StrAttr(attrs, "exam");
    var course :- FormatAttr(attrs, "course");
    Ok(OutFile(dir, exam, versionId, course, shortSem, answers))
  }

  // ------------------------------------------------------ question selection

  /** The arguments of one make_question call. */
  datatype Call = Call(qid: string, version: int, pts: Option<int>, perm: Option<seq<int>>)

  function CallOf(d: QuestionDef): Call
    requires d.version.Some?
  {
    Call(d.qid, d.version.value, d.pts, d.perm)
  }

  /** The calls for order entry qn, from the definitions at j and after. */
  function MatchCalls(qn: string, defs: seq<QuestionDef>, j: nat): Result<seq<Call>, ExamError>
    requires j <= |defs|
    decreases |defs| - j
  {
    if j == |defs| then Ok([])
    else if defs[j].qid != qn then MatchCalls(qn, defs, j + 1)
    else if defs[j].version.None? then Err(NoVariant(qn))
    else Prefixed([CallOf(defs[j])], MatchCalls(qn, defs, j + 1))
  }

  /** The calls of the order entries from i on. */
  function OrderCalls(order: seq<string>, defs: seq<QuestionDef>, i: nat): Result<seq<Call>, ExamError>
    requires i <= |order|
    decreases |order| - i, 1
  {
    if i == |order| then Ok([]) else Chain(order, defs, i, MatchCalls(order[i], defs, 0))
  }

  /** The calls m of entry i followed by those of the later entries. */
  function Chain(order: seq<string>, defs: seq<QuestionDef>, i: nat, m: Result<seq<Call>, ExamError>): Result<seq<Call>, ExamError>
    requires i < |order|
    decreases |order| - i, 0
  {
    match m
    case Err(e) => Err(e)
    case Ok(cs) => Prefixed(cs, OrderCalls(order, defs, i + 1))
  }

  lemma ChainCons(order: seq<string>, defs: seq<QuestionDef>, i: nat, c: Call, m: Result<seq<Call>, ExamError>)
    requires i < |order|
    ensures Chain(order, defs, i, Prefixed([c], m)) == Prefixed([c], Chain(order, defs, i, m))
  {
    if m.Ok? {
      PrefixedAppend([c], m.value, OrderCalls(order, defs, i + 1));
    }
  }

  /** The question loop of render: for each order entry, each definition with that qid
      in list order. */
  method SelectCalls(order: seq<string>, defs: seq<QuestionDef>) returns (r: Result<seq<Call>, ExamError>)
    ensures r == OrderCalls(order, defs, 0)
  {
    var qs: seq<Call> := [];
    PrefixedEmpty(OrderCalls(order, defs, 0));
    for i := 0 to |order|
      invariant Prefixed(qs, OrderCalls(order, defs, i)) == OrderCalls(order, defs, 0)
    {
      var qn := order[i];
      for j := 0 to |defs|
        invariant Prefixed(qs, Chain(order, defs, i, MatchCalls(qn, defs, j))) == OrderCalls(order, defs, 0)
      {
        var d := defs[j];
        if d.qid == qn {
          if d.version.None? {
            return Err(NoVariant(qn));
          }
          ChainCons(order, defs, i, CallOf(d), MatchCalls(qn, defs, j + 1));
          PrefixedAppend(qs, [CallOf(d)], Chain(order, defs, i, MatchCalls(qn, defs, j + 1)));
          qs := qs + [CallOf(d)];
        }
      }
      PrefixedAppend(qs, [], OrderCalls(order, defs, i + 1));
      assert qs + [] == qs;
    }
    assert qs + [] == qs;
    return Ok(qs);
  }

  // ----------------------------------------------------------------- render

  /** A Jinja template source and the attributes it is rendered with. */
  datatype Rendered = Rendered(source: string, env: map<string, Value>)

  /** What the exam template receives besides the attributes: the option string, the
      version, the rendered head/foot and front, the question directory and the
      make_question calls. */
  datatype TexInput = TexInput(docoptsStr: string, thisVersion: string, headFoot: Rendered,
                               front: Rendered, questionDir: Value, questions: seq<Call>)

  /** render(version, answers): its result and the attributes afterwards. `docopts_str`
      is set before head_foot is rendered and `this_version` only after, before front is
      rendered, so head_foot sees the this_version of the previous render and a later
      failure leaves both set. */
  function RenderSpec(attrs: map<string, Value>, v: Version, answers: bool): (Result<TexInput, ExamError>, map<string, Value>)
  {
    match DocoptsStr(attrs, answers)
    case Err(e) => (Err(e), attrs)
    case Ok(docoptsStr) =>
      var a1 := attrs["docopts_str" := Str(docoptsStr)];
      match StrAttr(a1, "head_foot")
      case Err(e) => (Err(e), a1)
      case Ok(headFoot) =>
        var a2 := a1["this_version" := Str(v.id)];
        match StrAttr(a2, "front")
        case Err(e) => (Err(e), a2)
        case Ok(front) =>
          match Attr(a2, "question_dir")
          case Err(e) => (Err(e), a2)
          case Ok(dir) =>
            match OrderCalls(v.order, v.questions, 0)
            case Err(e) => (Err(e), a2)
            case Ok(qs) => (Ok(TexInput(docoptsStr, v.id, Rendered(headFoot, a1), Rendered(front, a2), dir, qs)), a2)
  }

  // ------------------------------------------------------------- make_exams

  datatype TexFile = TexFile(name: string, tex: TexInput)

  /** The files written so far, the error that stopped the run if any, and the
      attributes at the end. */
  datatype Run = Run(files: seq<TexFile>, failure: Option<ExamError>, attrs: map<string, Value>)

  /** The files fs written before the run r. */
  function After(fs: seq<TexFile>, r: Run): Run
  {
    Run(fs + r.files, r.failure, r.attrs)
  }

  /** The answer flags from k on (0 is without answers, 1 with) for one version. */
  function AnswerFiles(attrs: map<string, Value>, v: Version, shortSem: string, k: nat): Run
    requires k <= 2
    decreases 2 - k
  {
    if k == 2 then Run([], None, attrs)
    else
      var (tex, a1) := RenderSpec(attrs, v, k == 1);
      if tex.Err? then Run([], Some(tex.error), a1)
      else
        match FileName(a1, v.id, shortSem, k == 1)
        case Err(e) => Run([], Some(e), a1)
        case Ok(name) => After([TexFile(name, tex.value)], AnswerFiles(a1, v, shortSem, k + 1))
  }

  /** One version: the short semester, then its two files. */
  function VersionRun(attrs: map<string, Value>, v: Version): Run
  {
    match StrAttr(attrs, "semester")
    case Err(e) => Run([], Some(e), attrs)
    case Ok(semester) =>
      match ShortSemester(semester)
      case Err(e) => Run([], Some(e), attrs)
      case Ok(shortSem) => AnswerFiles(attrs, v, shortSem, 0)
  }

  /** The versions from i on. */
  function ExamsFrom(attrs: map<string, Value>, vs: seq<Version>, i: nat): Run
    requires i <= |vs|
    decreases |vs| - i, 1
  {
    if i == |vs| then Run([], None, attrs) else Continue(vs, i, VersionRun(attrs, vs[i]))
  }

  /** The run r of version i followed, when it did not fail, by the later versions. */
  function Continue(vs: seq<Version>, i: nat, r: Run): Run
    requires i < |vs|
    decreases |vs| - i, 0
  {
    if r.failure.Some? then r else After(r.files, ExamsFrom(r.attrs, vs, i + 1))
  }

  /** make_exams from the attributes attrs. */
  function ExamsSpec(attrs: map<string, Value>): Run
  {
    match VersionsAttr(attrs)
    case Err(e) => Run([], Some(e), attrs)
    case Ok(vs) => ExamsFrom(attrs, vs, 0)
  }

  lemma AfterEmpty(r: Run)
    ensures After([], r) == r
  {
    assert [] + r.files == r.files;
  }

  lemma AfterAfter(fs: seq<TexFile>, gs: seq<TexFile>, r: Run)
    ensures After(fs, After(gs, r)) == After(fs + gs, r)
  {
    assert fs + (gs + r.files) == fs + gs + r.files;
  }

  lemma ContinueAfter(vs: seq<Version>, i: nat, fs: seq<TexFile>, r: Run)
    requires i < |vs|
    ensures Continue(vs, i, After(fs, r)) == After(fs, Continue(vs, i, r))
  {
    if r.failure.None? {
      AfterAfter(fs, r.files, ExamsFrom(r.attrs, vs, i + 1));
    }
  }

  /** The exam object: its attributes are the instance dictionary. */
  class Exam {
    var attrs: map<string, Value>

    /** The configuration merged into the (empty) instance dictionary. */
    constructor(kwargs: map<string, Value>)
      ensures attrs == kwargs
    {
      var empty: map<string, Value> := map[];
      attrs := Merge(empty, kwargs);
    }

    /** render(version, answers). */
    method Render(v: Version, answers: bool) returns (r: Result<TexInput, ExamError>)
      modifies this
      ensures (r, attrs) == RenderSpec(old(attrs), v, answers)
    {
      var docoptsStr := DocoptsStr(attrs, answers);
      if docoptsStr.Err? {
        return Err(docoptsStr.error);
      }
      attrs := attrs["docopts_str" := Str(docoptsStr.value)];
      var headFoot := StrAttr(attrs, "head_foot");
      if headFoot.Err? {
        return Err(headFoot.error);
      }
      var headFootEnv := attrs;
      attrs := attrs["this_version" := Str(v.id)];
      var front := StrAttr(attrs, "front");
      if front.Err? {
        return Err(front.error);
      }
      var dir := Attr(attrs, "question_dir");
      if dir.Err? {
        return Err(dir.error);
      }
      var qs := SelectCalls(v.order, v.questions);
      if qs.Err? {
        return Err(qs.error);
      }
      r := Ok(TexInput(docoptsStr.value, v.id, Rendered(headFoot.value, headFootEnv), Rendered(front.value, attrs),
                       dir.value, qs.value));
    }

    /** make_exams: the files it writes, in order, and the error that stopped it. */
    method MakeExams() returns (written: seq<TexFile>, failure: Option<ExamError>)
      modifies this
      ensures Run(written, failure, attrs) == ExamsSpec(old(attrs))
    {
      written := [];
      failure := None;
      var versions := VersionsAttr(attrs);
      if versions.Err? {
        failure := Some(versions.error);
        return;
      }
      var vs := versions.value;
      ghost var goal := ExamsFrom(attrs, vs, 0);
      AfterEmpty(goal);
      for i := 0 to |vs|
        invariant After(written, ExamsFrom(attrs, vs, i)) == goal
      {
        var v := vs[i];
        var semester := StrAttr(attrs, "semester");
        if semester.Err? {
          failure := Some(semester.error);
          assert written + [] == written;
          return;
        }
        var shortSem := ShortSemester(semester.value);
        if shortSem.Err? {
          failure := Some(shortSem.error);
          assert written + [] == written;
          return;
        }
        for k := 0 to 2
          invariant After(written, Continue(vs, i, AnswerFiles(attrs, v, shortSem.value, k))) == goal
        {
          ghost var before := attrs;
          var tex := Render(v, k == 1);
          if tex.Err? {
            failure := Some(tex.error);
            assert written + [] == written;
            return;
          }
          var name := FileName(attrs, v.id, shortSem.value, k == 1);
          if name.Err? {
            failure := Some(name.error);
            assert written + [] == written;
            return;
          }
          var file := TexFile(name.value, tex.value);
          assert AnswerFiles(before, v, shortSem.value, k) == After([file], AnswerFiles(attrs, v, shortSem.value, k + 1));
          ContinueAfter(vs, i, [file], AnswerFiles(attrs, v, shortSem.value, k + 1));
          AfterAfter(written, [file], Continue(vs, i, AnswerFiles(attrs, v, shortSem.value, k + 1)));
          written := written + [file];
        }
        AfterEmpty(ExamsFrom(attrs, vs, i + 1));
      }
      assert written + [] == written;
    }
  }
}
