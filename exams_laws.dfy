/** What the naming rules, the configuration merge, the question selection, render and
    make_exams of examtex/exam.py guarantee. */
module ExamsLaws {
  import opened Text
  import opened Config
  import Util
  import opened Exams

  // ----------------------------------------------------------------- naming

  /** Two words give "Sp", "Su" or "Fa" -- "Sp" exactly for Spring, "Su" exactly for
      Summer -- followed by the second word. */
  lemma ShortSemesterSeason(sem: string, year: string)
    requires sem != [] && NoSpace(sem) && year != [] && NoSpace(year)
    ensures var r := ShortSemester(sem + " " + year);
            && r.Ok?
            && |r.value| == 2 + |year| && r.value[2..] == year
            && (r.value[..2] == "Sp" <==> sem == "Spring")
            && (r.value[..2] == "Su" <==> sem == "Summer")
            && (r.value[..2] == "Fa" <==> sem != "Spring" && sem != "Summer")
  {
    TwoWords(sem, year);
    var r := ShortSemester(sem + " " + year);
    var season := if sem == "Spring" then "Sp" else if sem == "Summer" then "Su" else "Fa";
    assert r.value == season + year;
    assert r.value[..2] == season;
  }

  /** A semester of one word cannot be unpacked into season and year. */
  lemma OneWordSemester(w: string)
    requires w != [] && NoSpace(w)
    ensures ShortSemester(w) == Err(BadSemester(w))
  {
    TakeWordOfWord(w, []);
    assert w + [] == w;
    assert w[|w|..] == [];
    assert Words(w) == [w] + Words([]);
  }

  /** Both files of a version lie in the exam directory and end in ".tex"; the answer
      file is the other one with "_soln" inserted before ".tex", so the two differ. */
  lemma OutFilePair(dir: string, exam: string, id: string, course: string, sem: string)
    ensures var plain := OutFile(dir, exam, id, course, sem, false);
            var soln := OutFile(dir, exam, id, course, sem, true);
            && |plain| >= |dir| + 5 && plain[..|dir| + 1] == dir + "/" && plain[|plain| - 4..] == ".tex"
            && soln == plain[..|plain| - 4] + "_soln.tex"
            && soln != plain
  {
    var plain := OutFile(dir, exam, id, course, sem, false);
    var soln := OutFile(dir, exam, id, course, sem, true);
    var stem := dir + "/" + RemoveSpaces(exam) + id + "_" + course + "_" + sem;
    assert plain == stem + "" + ".tex";
    assert stem + "" == stem;
    assert plain == (dir + "/") + (RemoveSpaces(exam) + id + "_" + course + "_" + sem + ".tex");
    assert plain[..|plain| - 4] == stem;
    assert soln == stem + "_soln" + ".tex";
    assert |soln| == |plain| + 5;
  }

  /** The exam name's spaces do not reach the file name. */
  lemma OutFileIgnoresSpaces(dir: string, exam: string, id: string, course: string, sem: string, answers: bool)
    ensures OutFile(dir, exam, id, course, sem, answers) == OutFile(dir, RemoveSpaces(exam), id, course, sem, answers)
  {
    RemoveSpacesKeeps(RemoveSpaces(exam));
  }

  /** Two versions whose identifiers differ get different files, so no version's file
      overwrites another's. */
  lemma OutFileSeparatesVersions(dir: string, exam: string, id1: string, id2: string, course: string,
                                 sem: string, answers: bool)
    requires id1 != id2
    ensures OutFile(dir, exam, id1, course, sem, answers) != OutFile(dir, exam, id2, course, sem, answers)
  {
    var pre := dir + "/" + RemoveSpaces(exam);
    var post := "_" + course + "_" + sem + (if answers then "_soln" else "") + ".tex";
    var f1 := OutFile(dir, exam, id1, course, sem, answers);
    var f2 := OutFile(dir, exam, id2, course, sem, answers);
    assert f1 == pre + id1 + post;
    assert f2 == pre + id2 + post;
    if |id1| != |id2| {
      assert |f1| != |f2|;
    } else {
      assert f1[|pre|..|pre| + |id1|] == id1;
      assert f2[|pre|..|pre| + |id2|] == id2;
    }
  }

  // ------------------------------------------------------------ configuration

  /** The configuration of the command: a key is present iff some layer has it, and its
      value comes from the command line, else the exam file, else the defaults. */
  lemma ConfigLayers<V>(defaults: map<string, V>, exam: map<string, V>, args: map<string, V>, k: string)
    ensures var cfg := Merge(Merge(defaults, exam), args);
            && (k in cfg <==> k in defaults || k in exam || k in args)
            && (k in args ==> cfg[k] == args[k])
            && (k !in args && k in exam ==> cfg[k] == exam[k])
            && (k !in args && k !in exam && k in defaults ==> cfg[k] == defaults[k])
  {
  }

  /** The merged configuration passes check_config iff every required key is in some
      layer. */
  lemma ConfigChecked<V>(defaults: map<string, V>, exam: map<string, V>, args: map<string, V>)
    ensures var cfg := Merge(Merge(defaults, exam), args);
            Util.MissingKeys(Util.Required, cfg) == [] <==>
            forall k :: k in Util.Required ==> k in defaults || k in exam || k in args
  {
    var cfg := Merge(Merge(defaults, exam), args);
    var missing := Util.MissingKeys(Util.Required, cfg);
    if missing != [] {
      assert missing[0] in missing;
    }
  }

  // ------------------------------------------------------ question selection

  /** The definitions with qid qn, in list order. */
  function Matching(defs: seq<QuestionDef>, qn: string): (r: seq<QuestionDef>)
    ensures forall d :: d in r <==> d in defs && d.qid == qn
    ensures forall k :: 0 <= k < |r| ==> r[k].qid == qn
    decreases |defs|
  {
    if defs == [] then []
    else (if defs[0].qid == qn then [defs[0]] else []) + Matching(defs[1..], qn)
  }

  /** The definitions each order entry selects, entry by entry. */
  function Selected(order: seq<string>, defs: seq<QuestionDef>): seq<QuestionDef>
    decreases |order|
  {
    if order == [] then [] else Matching(defs, order[0]) + Selected(order[1..], defs)
  }

  predicate AllVersioned(ds: seq<QuestionDef>)
  {
    forall k :: 0 <= k < |ds| ==> ds[k].version.Some?
  }

  function CallsOf(ds: seq<QuestionDef>): (cs: seq<Call>)
    requires AllVersioned(ds)
    ensures |cs| == |ds| && forall k :: 0 <= k < |ds| ==> cs[k] == CallOf(ds[k])
  {
    seq(|ds|, k requires 0 <= k < |ds| => CallOf(ds[k]))
  }

  lemma CallsOfAppend(a: seq<QuestionDef>, b: seq<QuestionDef>)
    requires AllVersioned(a) && AllVersioned(b)
    ensures AllVersioned(a + b) && CallsOf(a + b) == CallsOf(a) + CallsOf(b)
  {
  }

  lemma AllVersionedAppend(a: seq<QuestionDef>, b: seq<QuestionDef>)
    ensures AllVersioned(a + b) <==> AllVersioned(a) && AllVersioned(b)
  {
    if AllVersioned(a + b) {
      forall k | 0 <= k < |a| ensures a[k].version.Some? { assert a[k] == (a + b)[k]; }
      forall k | 0 <= k < |b| ensures b[k].version.Some? { assert b[k] == (a + b)[|a| + k]; }
    }
  }

  /** The calls of one order entry are those of the matching definitions, and the entry
      fails iff one of them has no version. */
  lemma {:induction false} MatchCallsMatching(qn: string, defs: seq<QuestionDef>, j: nat)
    requires j <= |defs|
    ensures MatchCalls(qn, defs, j) ==
            if AllVersioned(Matching(defs[j..], qn)) then Ok(CallsOf(Matching(defs[j..], qn)))
            else Err(NoVariant(qn))
    decreases |defs| - j
  {
    if j < |defs| {
      MatchCallsMatching(qn, defs, j + 1);
      assert defs[j..][0] == defs[j] && defs[j..][1..] == defs[j + 1..];
      var rest := Matching(defs[j + 1..], qn);
      var next := MatchCalls(qn, defs, j + 1);
      if defs[j].qid == qn {
        assert Matching(defs[j..], qn) == [defs[j]] + rest;
        AllVersionedAppend([defs[j]], rest);
        if defs[j].version.Some? {
          assert MatchCalls(qn, defs, j) == Prefixed([CallOf(defs[j])], next);
          if AllVersioned(rest) {
            CallsOfAppend([defs[j]], rest);
            assert CallsOf([defs[j]]) == [CallOf(defs[j])];
            assert next == Ok(CallsOf(rest));
            assert Prefixed([CallOf(defs[j])], next) == Ok([CallOf(defs[j])] + CallsOf(rest));
          } else {
            assert next == Err(NoVariant(qn));
          }
        } else {
          assert MatchCalls(qn, defs, j) == Err(NoVariant(qn));
          assert [defs[j]][0].version.None?;
        }
      } else {
        assert MatchCalls(qn, defs, j) == next;
        assert Matching(defs[j..], qn) == [] + rest;
        assert [] + rest == rest;
      }
    } else {
      assert defs[j..] == [];
    }
  }

  /** render's question loop selects, for each order entry in turn, the definitions with
      that qid in list order; it fails iff a selected definition has no version. */
  lemma {:induction false} OrderCallsSelected(order: seq<string>, defs: seq<QuestionDef>, i: nat)
    requires i <= |order|
    ensures OrderCalls(order, defs, i).Ok? <==> AllVersioned(Selected(order[i..], defs))
    ensures OrderCalls(order, defs, i).Ok? ==> OrderCalls(order, defs, i).value == CallsOf(Selected(order[i..], defs))
    decreases |order| - i
  {
    if i < |order| {
      OrderCallsSelected(order, defs, i + 1);
      MatchCallsMatching(order[i], defs, 0);
      assert defs[0..] == defs;
      assert order[i..][0] == order[i] && order[i..][1..] == order[i + 1..];
      var m := Matching(defs, order[i]);
      var rest := Selected(order[i + 1..], defs);
      assert Selected(order[i..], defs) == m + rest;
      AllVersionedAppend(m, rest);
      var mc := MatchCalls(order[i], defs, 0);
      assert OrderCalls(order, defs, i) == Chain(order, defs, i, mc);
      if mc.Ok? && AllVersioned(rest) {
        CallsOfAppend(m, rest);
      }
    } else {
      assert order[i..] == [];
    }
  }

  /** A definition is selected iff its qid is an order entry; in particular no
      definition is selected for a placeholder unless one is named "np". */
  lemma {:induction false} SelectedMembers(order: seq<string>, defs: seq<QuestionDef>, d: QuestionDef)
    ensures d in Selected(order, defs) <==> d in defs && d.qid in order
    decreases |order|
  {
    if order != [] {
      SelectedMembers(order[1..], defs, d);
      assert order == [order[0]] + order[1..];
    }
  }

  /** When every order entry names exactly one definition, the selection follows the
      order entry for entry. */
  lemma {:induction false} SelectedFollowsOrder(order: seq<string>, defs: seq<QuestionDef>)
    requires forall k :: 0 <= k < |order| ==> |Matching(defs, order[k])| == 1
    ensures |Selected(order, defs)| == |order|
    ensures forall k :: 0 <= k < |order| ==> Selected(order, defs)[k].qid == order[k]
    decreases |order|
  {
    if order != [] {
      assert forall k :: 0 <= k < |order| - 1 ==> order[1..][k] == order[k + 1];
      SelectedFollowsOrder(order[1..], defs);
      var m := Matching(defs, order[0]);
      assert |m| == 1 && m[0].qid == order[0];
      forall k | 0 <= k < |order|
        ensures Selected(order, defs)[k].qid == order[k]
      {
        if k > 0 {
          assert Selected(order, defs)[k] == Selected(order[1..], defs)[k - 1];
        }
      }
    }
  }

  // ----------------------------------------------------------------- render

  /** render leaves docopts as it was and sets docopts_str to the options joined by
      ", ", with "answers" last exactly when answers are printed; the template receives
      the same string and the version identifier. */
  lemma RenderDocopts(attrs: map<string, Value>, v: Version, answers: bool, opts: seq<string>)
    requires "docopts" in attrs && attrs["docopts"] == Strs(opts)
    ensures var (r, after) := RenderSpec(attrs, v, answers);
            var str := if !answers then Join(", ", opts)
                       else if opts == [] then "answers"
                       else Join(", ", opts) + ", answers";
            && "docopts" in after && after["docopts"] == attrs["docopts"]
            && "docopts_str" in after && after["docopts_str"] == Str(str)
            && (r.Ok? ==> r.value.docoptsStr == str && r.value.thisVersion == v.id)
  {
    JoinAnswers(opts, answers);
    RenderFrame(attrs, v, answers, "docopts");
    RenderWrites(attrs, v, answers);
  }

  /** The option list joined by ", ", "answers" appended when answers are printed. */
  lemma JoinAnswers(opts: seq<string>, answers: bool)
    ensures Join(", ", opts + (if answers then ["answers"] else []))
            == if !answers then Join(", ", opts) else if opts == [] then "answers" else Join(", ", opts) + ", answers"
  {
    if answers {
      JoinSnoc(", ", opts, "answers");
      assert Join(", ", opts) + ", " + "answers" == Join(", ", opts) + ", answers";
    } else {
      assert opts + [] == opts;
    }
  }

  /** Once the option string is built, render has stored it as docopts_str, and a
      successful render passes it and the version identifier to the template. */
  lemma RenderWrites(attrs: map<string, Value>, v: Version, answers: bool)
    ensures var (r, after) := RenderSpec(attrs, v, answers);
            && (DocoptsStr(attrs, answers).Ok? ==>
                  "docopts_str" in after && after["docopts_str"] == Str(DocoptsStr(attrs, answers).value))
            && (r.Ok? ==> DocoptsStr(attrs, answers).Ok? && r.value.docoptsStr == DocoptsStr(attrs, answers).value
                          && r.value.thisVersion == v.id)
  {
  }

  /** docopts given as one string: without answers render joins its characters by ", "
      (a one-character string stays as it is); with answers it stops at the append
      before changing any attribute. */
  lemma RenderScalarDocopts(attrs: map<string, Value>, v: Version, text: string)
    requires "docopts" in attrs && attrs["docopts"] == Str(text)
    ensures RenderSpec(attrs, v, true) == (Err(WrongType("docopts")), attrs)
    ensures var after := RenderSpec(attrs, v, false).1;
            "docopts_str" in after && after["docopts_str"] == Str(Join(", ", Chars(text)))
    ensures |text| == 1 ==> Join(", ", Chars(text)) == text
  {
    if |text| == 1 {
      assert text == [text[0]];
      assert Chars(text)[0] == text;
      assert Chars(text) == [text];
    }
  }

  /** render changes no attribute but docopts_str and this_version. */
  lemma RenderFrame(attrs: map<string, Value>, v: Version, answers: bool, k: string)
    requires k != "docopts_str" && k != "this_version"
    ensures var after := RenderSpec(attrs, v, answers).1;
            (k in after <==> k in attrs) && (k in attrs ==> after[k] == attrs[k])
  {
  }

  /** render succeeds iff the option string can be built, head_foot and front are
      strings, question_dir exists and every selected definition has a version; it then
      passes question_dir as it is and one call per selected definition. When the option
      string fails nothing changes. */
  lemma RenderSucceeds(attrs: map<string, Value>, v: Version, answers: bool)
    ensures var (r, after) := RenderSpec(attrs, v, answers);
            && (r.Ok? <==> DocoptsStr(attrs, answers).Ok? && StrAttr(attrs, "head_foot").Ok? && StrAttr(attrs, "front").Ok?
                           && "question_dir" in attrs && AllVersioned(Selected(v.order, v.questions)))
            && (r.Ok? ==> r.value.questionDir == attrs["question_dir"]
                          && r.value.questions == CallsOf(Selected(v.order, v.questions)))
            && (DocoptsStr(attrs, answers).Err? ==> after == attrs)
  {
    OrderCallsSelected(v.order, v.questions, 0);
    assert v.order[0..] == v.order;
  }

  // ------------------------------------------------------------- make_exams

  /** a and b agree on every attribute but docopts_str and this_version, the two render
      writes. */
  ghost predicate AgreeBeyond(a: map<string, Value>, b: map<string, Value>)
  {
    forall k :: k != "docopts_str" && k != "this_version" ==> (k in a <==> k in b) && (k in a ==> a[k] == b[k])
  }

  lemma AgreeBeyondTrans(a: map<string, Value>, b: map<string, Value>, c: map<string, Value>)
    requires AgreeBeyond(a, b) && AgreeBeyond(b, c)
    ensures AgreeBeyond(a, c)
  {
  }

  /** this_version as a render finds it: None before the first render. */
  function PriorVersion(attrs: map<string, Value>): Option<Value>
  {
    if "this_version" in attrs then Some(attrs["this_version"]) else None
  }

  /** attrs with this_version as tv has it. */
  function WithVersion(attrs: map<string, Value>, tv: Option<Value>): map<string, Value>
  {
    match tv
    case None => attrs - {"this_version"}
    case Some(x) => attrs["this_version" := x]
  }

  lemma WithPriorVersion(attrs: map<string, Value>)
    ensures WithVersion(attrs, PriorVersion(attrs)) == attrs
  {
    if "this_version" !in attrs {
      assert attrs - {"this_version"} == attrs;
    }
  }

  /** Attributes that agree beyond the two render writes give the same environment once
      both are set. */
  lemma AgreeBeyondEnv(a: map<string, Value>, b: map<string, Value>, tv: Option<Value>, x: Value)
    requires AgreeBeyond(a, b)
    ensures WithVersion(a, tv)["docopts_str" := x] == WithVersion(b, tv)["docopts_str" := x]
  {
  }

  /** Every attribute make_exams reads for a version, except docopts, is present and
      usable. */
  predicate Usable(attrs: map<string, Value>)
  {
    && StrAttr(attrs, "head_foot").Ok? && StrAttr(attrs, "front").Ok? && "question_dir" in attrs
    && StrAttr(attrs, "semester").Ok? && ShortSemester(StrAttr(attrs, "semester").value).Ok?
    && FormatAttr(attrs, "exam_dir").Ok? && StrAttr(attrs, "exam").Ok? && FormatAttr(attrs, "course").Ok?
  }

  /** Every attribute make_exams reads for a version is present and usable, docopts as a
      list of strings. */
  predicate Ready(attrs: map<string, Value>)
  {
    "docopts" in attrs && attrs["docopts"].Strs? && Usable(attrs)
  }

  /** The file of version v written with or without answers, read off the attributes,
      when the render before it left this_version as tv: head_foot is rendered with tv,
      front with v's identifier. */
  function Expected(attrs: map<string, Value>, tv: Option<Value>, v: Version, answers: bool): TexFile
    requires Ready(attrs) && AllVersioned(Selected(v.order, v.questions))
  {
    var shortSem := ShortSemester(StrAttr(attrs, "semester").value).value;
    var name := OutFile(FormatAttr(attrs, "exam_dir").value, StrAttr(attrs, "exam").value, v.id,
                        FormatAttr(attrs, "course").value, shortSem, answers);
    var docoptsStr := Join(", ", attrs["docopts"].items + (if answers then ["answers"] else []));
    var headFootEnv := WithVersion(attrs, tv)["docopts_str" := Str(docoptsStr)];
    TexFile(name, TexInput(docoptsStr, v.id, Rendered(StrAttr(attrs, "head_foot").value, headFootEnv),
                           Rendered(StrAttr(attrs, "front").value, headFootEnv["this_version" := Str(v.id)]),
                           attrs["question_dir"], CallsOf(Selected(v.order, v.questions))))
  }

  /** head_foot is rendered with every attribute of the configuration, the option string
      and this_version as tv has it; front with the same attributes and this_version the
      version's own identifier. */
  lemma ExpectedEnvironments(attrs: map<string, Value>, tv: Option<Value>, v: Version, answers: bool)
    requires Ready(attrs) && AllVersioned(Selected(v.order, v.questions))
    ensures var t := Expected(attrs, tv, v, answers).tex;
            && AgreeBeyond(attrs, t.headFoot.env) && AgreeBeyond(attrs, t.front.env)
            && "docopts_str" in t.headFoot.env && t.headFoot.env["docopts_str"] == Str(t.docoptsStr)
            && "docopts_str" in t.front.env && t.front.env["docopts_str"] == Str(t.docoptsStr)
            && ("this_version" in t.headFoot.env <==> tv.Some?)
            && (tv.Some? ==> t.headFoot.env["this_version"] == tv.value)
            && "this_version" in t.front.env && t.front.env["this_version"] == Str(v.id)
  {
  }

  lemma AgreeBeyondReady(a: map<string, Value>, b: map<string, Value>)
    requires AgreeBeyond(a, b)
    ensures Ready(a) <==> Ready(b)
  {
    assert Agree(a, b, "docopts") && Agree(a, b, "head_foot") && Agree(a, b, "front")
        && Agree(a, b, "question_dir") && Agree(a, b, "semester") && Agree(a, b, "exam_dir")
        && Agree(a, b, "exam") && Agree(a, b, "course");
  }

  lemma ExpectedKeeps(a: map<string, Value>, b: map<string, Value>, tv: Option<Value>, v: Version, answers: bool)
    requires AgreeBeyond(a, b)
    ensures Ready(a) <==> Ready(b)
    ensures Ready(a) && AllVersioned(Selected(v.order, v.questions)) ==> Expected(a, tv, v, answers) == Expected(b, tv, v, answers)
  {
    AgreeBeyondReady(a, b);
    assert Agree(a, b, "docopts") && Agree(a, b, "head_foot") && Agree(a, b, "front")
        && Agree(a, b, "question_dir") && Agree(a, b, "semester") && Agree(a, b, "exam_dir")
        && Agree(a, b, "exam") && Agree(a, b, "course");
    if Ready(a) && AllVersioned(Selected(v.order, v.questions)) {
      var docoptsStr := Join(", ", a["docopts"].items + (if answers then ["answers"] else []));
      AgreeBeyondEnv(a, b, tv, Str(docoptsStr));
    }
  }

  predicate Agree(a: map<string, Value>, b: map<string, Value>, k: string)
  {
    (k in a <==> k in b) && (k in a ==> a[k] == b[k])
  }

  /** One render of a ready version writes its expected file, sets this_version to the
      version and keeps every other attribute make_exams reads. */
  lemma RenderStep(attrs: map<string, Value>, v: Version, answers: bool)
    requires Ready(attrs) && AllVersioned(Selected(v.order, v.questions))
    ensures var (r, after) := RenderSpec(attrs, v, answers);
            && r.Ok? && AgreeBeyond(attrs, after) && PriorVersion(after) == Some(Str(v.id))
            && FileName(after, v.id, ShortSemester(StrAttr(attrs, "semester").value).value, answers)
               == Ok(Expected(attrs, PriorVersion(attrs), v, answers).name)
            && r.value == Expected(attrs, PriorVersion(attrs), v, answers).tex
  {
    OrderCallsSelected(v.order, v.questions, 0);
    assert v.order[0..] == v.order;
    WithPriorVersion(attrs);
    var after := RenderSpec(attrs, v, answers).1;
    forall k | k != "docopts_str" && k != "this_version"
      ensures (k in attrs <==> k in after) && (k in attrs ==> attrs[k] == after[k])
    {
      RenderFrame(attrs, v, answers, k);
    }
  }

  /** A ready version writes its file without answers, whose head_foot sees the earlier
      this_version, and then its file with answers, whose head_foot sees its own. */
  lemma VersionFiles(attrs: map<string, Value>, v: Version)
    requires Ready(attrs) && AllVersioned(Selected(v.order, v.questions))
    ensures var r := VersionRun(attrs, v);
            && r.failure.None? && AgreeBeyond(attrs, r.attrs) && PriorVersion(r.attrs) == Some(Str(v.id))
            && r.files == [Expected(attrs, PriorVersion(attrs), v, false), Expected(attrs, Some(Str(v.id)), v, true)]
  {
    var shortSem := ShortSemester(StrAttr(attrs, "semester").value).value;
    RenderStep(attrs, v, false);
    var a1 := RenderSpec(attrs, v, false).1;
    ExpectedKeeps(attrs, a1, Some(Str(v.id)), v, true);
    assert StrAttr(a1, "semester") == StrAttr(attrs, "semester");
    RenderStep(a1, v, true);
    var a2 := RenderSpec(a1, v, true).1;
    AgreeBeyondTrans(attrs, a1, a2);
    var f0 := Expected(attrs, PriorVersion(attrs), v, false);
    var f1 := Expected(attrs, Some(Str(v.id)), v, true);
    assert AnswerFiles(a2, v, shortSem, 2) == Run([], None, a2);
    assert AnswerFiles(a1, v, shortSem, 1) == After([f1], Run([], None, a2));
    assert AnswerFiles(attrs, v, shortSem, 0) == After([f0], After([f1], Run([], None, a2)));
    assert [f0] + ([f1] + []) == [f0, f1];
  }

  /** The files versions i.. should produce when this_version starts as tv: two per
      version, without answers first, each version's file without answers rendering
      head_foot with the previous version's identifier. */
  function ExpectedFiles(attrs: map<string, Value>, vs: seq<Version>, i: nat, tv: Option<Value>): seq<TexFile>
    requires i <= |vs| && Ready(attrs)
    requires forall k :: i <= k < |vs| ==> AllVersioned(Selected(vs[k].order, vs[k].questions))
    decreases |vs| - i
  {
    if i == |vs| then []
    else
      var own := Some(Str(vs[i].id));
      [Expected(attrs, tv, vs[i], false), Expected(attrs, own, vs[i], true)] + ExpectedFiles(attrs, vs, i + 1, own)
  }

  lemma {:induction false} ExpectedFilesKeep(a: map<string, Value>, b: map<string, Value>, vs: seq<Version>, i: nat,
                                             tv: Option<Value>)
    requires i <= |vs| && Ready(a) && AgreeBeyond(a, b)
    requires forall k :: i <= k < |vs| ==> AllVersioned(Selected(vs[k].order, vs[k].questions))
    ensures Ready(b) && ExpectedFiles(a, vs, i, tv) == ExpectedFiles(b, vs, i, tv)
    decreases |vs| - i
  {
    AgreeBeyondReady(a, b);
    if i < |vs| {
      var own := Some(Str(vs[i].id));
      ExpectedFilesKeep(a, b, vs, i + 1, own);
      ExpectedKeeps(a, b, tv, vs[i], false);
      ExpectedKeeps(a, b, own, vs[i], true);
    }
  }

  /** Two files per version. */
  lemma {:induction false} ExpectedFilesLength(attrs: map<string, Value>, vs: seq<Version>, i: nat, tv: Option<Value>)
    requires i <= |vs| && Ready(attrs)
    requires forall k :: i <= k < |vs| ==> AllVersioned(Selected(vs[k].order, vs[k].questions))
    ensures |ExpectedFiles(attrs, vs, i, tv)| == 2 * (|vs| - i)
    decreases |vs| - i
  {
    if i < |vs| {
      ExpectedFilesLength(attrs, vs, i + 1, Some(Str(vs[i].id)));
    }
  }

  /** The files of versions j.. follow those of versions i..j - 1, two per version,
      and version j's head_foot sees the identifier of version j - 1. */
  lemma {:induction false} ExpectedFilesFrom(attrs: map<string, Value>, vs: seq<Version>, i: nat, tv: Option<Value>, j: nat)
    requires i < j <= |vs| && Ready(attrs)
    requires forall k :: i <= k < |vs| ==> AllVersioned(Selected(vs[k].order, vs[k].questions))
    ensures var fs := ExpectedFiles(attrs, vs, i, tv);
            2 * (j - i) <= |fs| && fs[2 * (j - i)..] == ExpectedFiles(attrs, vs, j, Some(Str(vs[j - 1].id)))
    decreases j - i
  {
    ExpectedFilesLength(attrs, vs, i, tv);
    var own := Some(Str(vs[i].id));
    var rest := ExpectedFiles(attrs, vs, i + 1, own);
    var fs := ExpectedFiles(attrs, vs, i, tv);
    assert fs[2..] == rest;
    if j > i + 1 {
      ExpectedFilesFrom(attrs, vs, i + 1, own, j);
      assert fs[2 * (j - i)..] == rest[2 * (j - (i + 1))..];
    }
  }

  /** From version i on, a ready configuration writes two files per version, the one
      without answers first, and fails nowhere. */
  lemma {:induction false} ExamsFromFiles(attrs: map<string, Value>, vs: seq<Version>, i: nat)
    requires i <= |vs| && Ready(attrs)
    requires forall k :: i <= k < |vs| ==> AllVersioned(Selected(vs[k].order, vs[k].questions))
    ensures var r := ExamsFrom(attrs, vs, i);
            r.failure.None? && r.files == ExpectedFiles(attrs, vs, i, PriorVersion(attrs))
    decreases |vs| - i
  {
    if i < |vs| {
      VersionFiles(attrs, vs[i]);
      var first := VersionRun(attrs, vs[i]);
      var b := first.attrs;
      ExpectedFilesKeep(attrs, b, vs, i + 1, Some(Str(vs[i].id)));
      ExamsFromFiles(b, vs, i + 1);
      var rest := ExamsFrom(b, vs, i + 1);
      var r := ExamsFrom(attrs, vs, i);
      assert r == Continue(vs, i, first);
      assert r == After(first.files, rest);
    }
  }

  /** make_exams on a ready configuration writes, for each version in order, its file
      without answers and then its file with answers. */
  lemma ExamsWritten(attrs: map<string, Value>, vs: seq<Version>)
    requires "versions" in attrs && attrs["versions"] == Versions(vs) && Ready(attrs)
    requires forall k :: 0 <= k < |vs| ==> AllVersioned(Selected(vs[k].order, vs[k].questions))
    ensures var r := ExamsSpec(attrs);
            && r.failure.None? && r.files == ExpectedFiles(attrs, vs, 0, PriorVersion(attrs)) && |r.files| == 2 * |vs|
  {
    assert VersionsAttr(attrs) == Ok(vs);
    ExamsFromFiles(attrs, vs, 0);
    ExpectedFilesLength(attrs, vs, 0, PriorVersion(attrs));
  }

  /** In make_exams each version's file without answers renders head_foot with the
      this_version of the version before it (for the first version, whatever this_version
      the exam had, usually none), while its front and its file with answers see the
      version's own identifier. */
  lemma HeadFootSeesPreviousVersion(attrs: map<string, Value>, vs: seq<Version>, j: nat)
    requires "versions" in attrs && attrs["versions"] == Versions(vs) && Ready(attrs)
    requires forall k :: 0 <= k < |vs| ==> AllVersioned(Selected(vs[k].order, vs[k].questions))
    requires j < |vs|
    ensures var fs := ExamsSpec(attrs).files;
            && 2 * j + 1 < |fs|
            && (j == 0 ==> ("this_version" in fs[0].tex.headFoot.env <==> "this_version" in attrs))
            && (j > 0 ==> "this_version" in fs[2 * j].tex.headFoot.env
                          && fs[2 * j].tex.headFoot.env["this_version"] == Str(vs[j - 1].id))
            && "this_version" in fs[2 * j].tex.front.env && fs[2 * j].tex.front.env["this_version"] == Str(vs[j].id)
            && "this_version" in fs[2 * j + 1].tex.headFoot.env
            && fs[2 * j + 1].tex.headFoot.env["this_version"] == Str(vs[j].id)
  {
    ExamsWritten(attrs, vs);
    var tv := PriorVersion(attrs);
    var fs := ExpectedFiles(attrs, vs, 0, tv);
    var prior := if j == 0 then tv else Some(Str(vs[j - 1].id));
    var own := Some(Str(vs[j].id));
    if j > 0 {
      ExpectedFilesFrom(attrs, vs, 0, tv, j);
    }
    var from := ExpectedFiles(attrs, vs, j, prior);
    assert fs[2 * j..] == from;
    assert from[0] == Expected(attrs, prior, vs[j], false) && from[1] == Expected(attrs, own, vs[j], true);
    ExpectedEnvironments(attrs, prior, vs[j], false);
    ExpectedEnvironments(attrs, own, vs[j], true);
  }

  /** docopts as one string: make_exams writes the first version's file without answers,
      its options the characters of the string, and stops with a type error on the
      answer file. */
  lemma ScalarDocoptsStops(attrs: map<string, Value>, vs: seq<Version>, text: string)
    requires "versions" in attrs && attrs["versions"] == Versions(vs) && vs != []
    requires "docopts" in attrs && attrs["docopts"] == Str(text) && Usable(attrs)
    requires AllVersioned(Selected(vs[0].order, vs[0].questions))
    ensures var r := ExamsSpec(attrs);
            && r.failure == Some(WrongType("docopts")) && |r.files| == 1
            && r.files[0].name == OutFile(FormatAttr(attrs, "exam_dir").value, StrAttr(attrs, "exam").value, vs[0].id,
                                          FormatAttr(attrs, "course").value,
                                          ShortSemester(StrAttr(attrs, "semester").value).value, false)
            && r.files[0].tex.docoptsStr == Join(", ", Chars(text))
  {
    var v := vs[0];
    var shortSem := ShortSemester(StrAttr(attrs, "semester").value).value;
    OrderCallsSelected(v.order, v.questions, 0);
    assert v.order[0..] == v.order;
    var (t, a1) := RenderSpec(attrs, v, false);
    assert t.Ok?;
    RenderScalarDocopts(a1, v, text);
    var name := OutFile(FormatAttr(attrs, "exam_dir").value, StrAttr(attrs, "exam").value, v.id,
                        FormatAttr(attrs, "course").value, shortSem, false);
    assert FileName(a1, v.id, shortSem, false) == Ok(name);
    var stop := Run([], Some(WrongType("docopts")), a1);
    assert AnswerFiles(a1, v, shortSem, 1) == stop;
    assert AnswerFiles(attrs, v, shortSem, 0) == After([TexFile(name, t.value)], stop);
    assert VersionRun(attrs, v) == After([TexFile(name, t.value)], stop);
    assert VersionsAttr(attrs) == Ok(vs);
    assert ExamsFrom(attrs, vs, 0) == Continue(vs, 0, VersionRun(attrs, v));
  }

  /** A semester that is not two words stops make_exams before anything is written, but
      only when there is a version to make. */
  lemma SemesterChecked(attrs: map<string, Value>, vs: seq<Version>, semester: string)
    requires "versions" in attrs && attrs["versions"] == Versions(vs)
    requires "semester" in attrs && attrs["semester"] == Str(semester) && |Words(semester)| != 2
    ensures vs == [] ==> ExamsSpec(attrs) == Run([], None, attrs)
    ensures vs != [] ==> ExamsSpec(attrs) == Run([], Some(BadSemester(semester)), attrs)
  {
    assert VersionsAttr(attrs) == Ok(vs);
    if vs != [] {
      assert VersionRun(attrs, vs[0]) == Run([], Some(BadSemester(semester)), attrs);
      assert ExamsFrom(attrs, vs, 0) == Continue(vs, 0, VersionRun(attrs, vs[0]));
    }
  }

  /** When the first version selects a definition without a version, nothing is written
      but docopts_str and this_version are already set. */
  lemma FirstVersionFails(attrs: map<string, Value>, vs: seq<Version>)
    requires "versions" in attrs && attrs["versions"] == Versions(vs) && Ready(attrs)
    requires vs != [] && !AllVersioned(Selected(vs[0].order, vs[0].questions))
    ensures var r := ExamsSpec(attrs);
            && r.files == [] && r.failure.Some? && r.failure.value.NoVariant?
            && "docopts_str" in r.attrs && "this_version" in r.attrs && r.attrs["this_version"] == Str(vs[0].id)
  {
    var v := vs[0];
    OrderCallsSelected(v.order, v.questions, 0);
    assert v.order[0..] == v.order;
    var e := OrderCalls(v.order, v.questions, 0).error;
    assert e.NoVariant? by {
      ErrorIsNoVariant(v.order, v.questions, 0);
    }
    var shortSem := ShortSemester(StrAttr(attrs, "semester").value).value;
    var opts := attrs["docopts"].items;
    var a1 := attrs["docopts_str" := Str(Join(", ", opts + []))];
    var a2 := a1["this_version" := Str(v.id)];
    assert RenderSpec(attrs, v, false) == (Err(e), a2);
    assert AnswerFiles(attrs, v, shortSem, 0) == Run([], Some(e), a2);
    assert VersionRun(attrs, v) == Run([], Some(e), a2);
    assert VersionsAttr(attrs) == Ok(vs);
    assert ExamsFrom(attrs, vs, 0) == Continue(vs, 0, VersionRun(attrs, v));
  }

  /** The only way the question loop fails is a selected definition without a version. */
  lemma {:induction false} ErrorIsNoVariant(order: seq<string>, defs: seq<QuestionDef>, i: nat)
    requires i <= |order|
    ensures OrderCalls(order, defs, i).Err? ==> OrderCalls(order, defs, i).error.NoVariant?
    decreases |order| - i
  {
    if i < |order| {
      ErrorIsNoVariant(order, defs, i + 1);
      MatchCallsMatching(order[i], defs, 0);
    }
  }
}
