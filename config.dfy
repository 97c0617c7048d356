/** The exam configuration the normaliser and the exam maker read, as already-loaded
    values: one record per version with its question order and its question
    definitions. */
module Config {
  import opened Text

  /** One entry of a version's `questions` list; absent keys are None. `version` is the
      variant of the question file to render, `perm` the choice permutation of a
      multiple-choice question. */
  datatype QuestionDef = QuestionDef(qid: string, version: Option<int>, pts: Option<int>, perm: Option<seq<int>>)

  /** One exam version: its identifier, its `order` (question ids and placeholders)
      and its `questions` list. */
  datatype Version = Version(id: string, order: seq<string>, questions: seq<QuestionDef>)

  /** The `order` entry that holds a position without a scored question. */
  const Placeholder: string := "np"
}
