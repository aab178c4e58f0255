/**
 * The content-type schemas of the registry (app/registry/<type>/schema.ts)
 * as schema trees, and what the form engine makes of them.
 * `.describe(...)` before `.default(...)` / `.optional()` puts the text on
 * both nodes; after them, on the outer node only. A zod `.default(x)`
 * stores a producer returning `x`.
 */
module Registry {
  import opened Wrappers
  import opened Strings
  import opened Values
  import opened Paths
  import opened Schema
  import opened FormStore
  import opened FormRender

  // -----------------------------------------------------------------------
  // interactive-video

  const AnswerElement: SchemaNode := ObjectNode([
    Field("text", StringNode(Some("Answer Text"))),
    Field("correct", DefaultNode(BooleanNode(None), Producer(Bool(false)), Some("Is Correct")))
  ], None)

  const DefaultQuizAnswers: Value := List([
    Record(map["text" := Str("Option A"), "correct" := Bool(true)]),
    Record(map["text" := Str("Option B"), "correct" := Bool(false)])
  ])

  const FactContentNode: SchemaNode := ObjectNode([
    Field("title", DefaultNode(StringNode(None), Producer(Str("Did you know?")), Some("Fact Title"))),
    Field("description", DefaultNode(StringNode(None), Producer(Str("Here is an interesting fact.")), Some("Fact Description")))
  ], Some("Fact Content (Only if Type is Fact)"))

  const QuizAnswersNode: SchemaNode :=
    DefaultNode(ArrayNode(AnswerElement, None), Producer(DefaultQuizAnswers), Some("Answers"))

  const QuizContentNode: SchemaNode := ObjectNode([
    Field("question", DefaultNode(StringNode(None), Producer(Str("What is the answer?")), Some("Question"))),
    Field("answers", QuizAnswersNode)
  ], Some("Quiz Content (Only if Type is Quiz)"))

  const InteractionElement: SchemaNode := ObjectNode([
    Field("time", NumberNode(Some("Time (seconds)"))),
    Field("type", EnumNode(["fact", "quiz"], Some("Interaction Type"))),
    Field("factContent", OptionalNode(FactContentNode, FactContentNode.description)),
    Field("quizContent", OptionalNode(QuizContentNode, QuizContentNode.description))
  ], None)

  /** The `interactions` array behind its `.refine(...)`. */
  const InteractionsNode: SchemaNode :=
    RefinedNode(ArrayNode(InteractionElement, None), Some("Interactions (Time-based events)"))

  function Described(base: SchemaNode, d: string, default: Value): SchemaNode
    requires !base.ObjectNode? && !base.ArrayNode? && !IsModifier(base) && !base.UnionNode?
    requires !base.RefinedNode? && !base.LiteralNode? && !base.EnumNode?
  {
    var inner := match base
      case StringNode(_) => StringNode(Some(d))
      case NumberNode(_) => NumberNode(Some(d))
      case BooleanNode(_) => BooleanNode(Some(d));
    DefaultNode(inner, Producer(default), Some(d))
  }

  const InteractiveVideoSchema: seq<Field> := [
    Field("title", Described(StringNode(None), "Video Title", Str("My Interactive Video"))),
    Field("videoUrl", Described(StringNode(None), "Video URL (HLS/m3u8)",
      Str("https://stream.mux.com/VZtzUzGRv02OhRnZCxcNg49OilvolTqdnFLEqBsTwaxU.m3u8"))),
    Field("settings", ObjectNode([
      Field("preventSeeking", Described(BooleanNode(None), "Prevent Seeking", Bool(false))),
      Field("requireCompletion", Described(BooleanNode(None), "Require Completion", Bool(true))),
      Field("autoPlay", Described(BooleanNode(None), "Auto Play", Bool(false)))
    ], Some("Settings"))),
    Field("interactions", InteractionsNode)
  ]

  // -----------------------------------------------------------------------
  // The other content types.

  const ChoiceAnswerElement: SchemaNode := ObjectNode([
    Field("text", StringNode(Some("Answer text"))),
    Field("correct", ChoiceCorrectNode)
  ], None)

  const ChoiceCorrectNode: SchemaNode := Described(BooleanNode(None), "Correct", Bool(false))

  const MultipleChoiceSchema: seq<Field> := [
    Field("title", Described(StringNode(None), "Quiz Title", Str("My Quiz"))),
    Field("questions", ArrayNode(ObjectNode([
      Field("text", StringNode(Some("Question text"))),
      Field("answers", ArrayNode(ChoiceAnswerElement, Some("Answers")))
    ], None), Some("Questions"))),
    Field("settings", ObjectNode([
      Field("passingScore", Described(NumberNode(None), "Passing Score (%)", Num(80))),
      Field("showIncorrectAnswers", Described(BooleanNode(None), "Show Incorrect Answers", Bool(true)))
    ], Some("Settings")))
  ]

  const CorrectResponseNode: SchemaNode :=
    Described(BooleanNode(None), "Correct Answer (True/False)", Bool(true))

  const TrueFalseSchema: seq<Field> := [
    Field("question", StringNode(Some("Question text"))),
    Field("correctResponse", CorrectResponseNode),
    Field("feedbackOnCorrect", OptionalNode(StringNode(Some("Feedback on correct answer")), Some("Feedback on correct answer"))),
    Field("feedbackOnIncorrect", OptionalNode(StringNode(Some("Feedback on incorrect answer")), Some("Feedback on incorrect answer")))
  ]

  /** `z.string().url().optional().or(z.literal(""))`, described. */
  const ImageUrlNode: SchemaNode :=
    UnionNode([OptionalNode(StringNode(None), None), LiteralNode(Str(""), None)], Some("Image URL (Optional)"))

  const FlashCardSchema: seq<Field> := [
    Field("question", Described(StringNode(None), "Question", Str("What is the capital of France?"))),
    Field("answer", Described(StringNode(None), "Answer", Str("Paris"))),
    Field("imageUrl", ImageUrlNode)
  ]

  const FillBlankSchema: seq<Field> := [
    Field("text", Described(StringNode(None), "Text (Use *asterisks* for blanks)", Str("The *sky* is blue."))),
    Field("distractors", DefaultNode(ArrayNode(ObjectNode([
      Field("text", StringNode(Some("Distractor Text")))
    ], None), None), Producer(List([])), Some("Extra Words (Distractors)")))
  ]

  const ImageHotspotSchema: seq<Field> := [
    Field("image", StringNode(Some("Image (Upload or URL)"))),
    Field("hotspots", DefaultNode(ArrayNode(ObjectNode([
      Field("x", DefaultNode(NumberNode(None), Producer(Num(50)), Some("X Position (%)"))),
      Field("y", DefaultNode(NumberNode(None), Producer(Num(50)), Some("Y Position (%)"))),
      Field("title", DefaultNode(StringNode(None), Producer(Str("Hotspot Title")), Some("Title"))),
      Field("description", DefaultNode(StringNode(None), Producer(Str("Description of this hotspot.")), Some("Description")))
    ], None), None), Producer(List([])), Some("Hotspots")))
  ]

  // -----------------------------------------------------------------------
  // What the form engine makes of them.

  /**
   * The refined `interactions` array is not looked through: the generic
   * form shows the placeholder for it, whatever the document holds.
   */
  lemma InteractionsFieldIsPlaceholder(view: FormView)
    ensures RenderField("interactions", "interactions", InteractionsNode, view) == Some(Unsupported("interactions"))
  {
    UnknownKindsRenderPlaceholder("interactions", "interactions", [], InteractionsNode, view);
  }

  /** The default quiz answers: two entries, the first correct, the second not. */
  lemma QuizAnswersDefault()
    ensures OuterDefault(QuizAnswersNode) == Some(DefaultQuizAnswers)
    ensures |DefaultQuizAnswers.items| == 2
    ensures Get(DefaultQuizAnswers, ["0", "correct"]) == Some(Bool(true))
    ensures Get(DefaultQuizAnswers, ["1", "correct"]) == Some(Bool(false))
  {
    IndexInDecimal(0, 2);
    IndexInDecimal(1, 2);
    assert Strings.Decimal(0) == "0" && Strings.Decimal(1) == "1";
  }

  /** The flash card's image URL union resolves to its optional string branch. */
  lemma ImageUrlIsTextField()
    ensures Peel(ImageUrlNode) == StringNode(None)
  {
    UnionResolvesToFirstSimple(ImageUrlNode.branches, ImageUrlNode.description, 0);
  }

  /** Each interaction's `factContent` shows only while its `type` is "fact". */
  lemma FactContentFollowsType(path: string, values: Value)
    ensures RenderField("factContent", ChildPath(path, "factContent"), InteractionElement.fields[2].node,
                        FormView(values, map[], ErrorNode(None, map[]))).Some?
            <==> Get(values, Segments(path) + ["type"]) == Some(Str("fact"))
  {
    VisibleIffSiblingType(path, "factContent", values);
  }

  /**
   * While an interaction's `type` is not "quiz", its form is the form
   * without `quizContent`: no control, and so no default effect, of the quiz
   * (its answers' `correct` switches included) is mounted, and nothing is
   * written under `quizContent`. As for `factContent`, this is what the
   * element would render; the form shows the `interactions` placeholder.
   */
  lemma HiddenQuizMountsNothing(path: string, view: FormView)
    requires Get(view.values, Segments(path) + ["type"]) != Some(Str("quiz"))
    ensures RenderFields(InteractionElement.fields, path, view) == RenderFields(InteractionElement.fields[..3], path, view)
    ensures ControlsEffects(RenderFields(InteractionElement.fields, path, view))
            == ControlsEffects(RenderFields(InteractionElement.fields[..3], path, view))
  {
    var fs := InteractionElement.fields;
    VisibleIffSiblingType(path, "quizContent", view.values);
    HiddenFieldMountsNothing(fs, path, view, 3);
    assert fs[..3] + fs[4..] == fs[..3];
  }

  /** An empty true/false document gets `correctResponse: true` from the boolean effect. */
  lemma CorrectResponseMaterializes()
    ensures Get(Materialized(Record(map[]), Segments("correctResponse"), CorrectResponseNode),
                Segments("correctResponse")) == Some(Bool(true))
  {
    ChildSegments("", "correctResponse");
    assert Strings.Split("", '.') == [""];
    FreshRecordWritable(["correctResponse"]);
    MaterializedWrites(Record(map[]), ["correctResponse"], CorrectResponseNode);
  }

  /**
   * A multiple-choice answer declares `correct`, so every compact answer
   * row shows the inline switch for `path.k.correct`, checked exactly when
   * `true` is stored there, and never hits the missing-schema error.
   */
  lemma ChoiceAnswerRowsShowSwitch(path: string, view: FormView, ids: seq<nat>)
    ensures |RenderRows("answers", path, ChoiceAnswerElement, view, ids, 0)| == |ids|
    ensures forall i :: 0 <= i < |ids| ==>
              && RenderRows("answers", path, ChoiceAnswerElement, view, ids, 0)[i].AnswerRow?
              && RenderRows("answers", path, ChoiceAnswerElement, view, ids, 0)[i].correct
                == Some(Toggle(path + "." + Decimal(i) + ".correct", Some("correct"), None,
                               Get(view.values, Segments(path + "." + Decimal(i) + ".correct")) == Some(Bool(true)),
                               true, ChoiceCorrectNode))
  {
    AnswerRowsCorrect(path, ChoiceAnswerElement, view, ids, 0);
    assert Lookup(ChoiceAnswerElement.fields, "correct") == Some(ChoiceCorrectNode);
    forall i | 0 <= i < |ids|
      ensures RenderField("correct", path + "." + Decimal(i) + ".correct", ChoiceCorrectNode, view)
              == Some(Toggle(path + "." + Decimal(i) + ".correct", Some("correct"), None,
                             Get(view.values, Segments(path + "." + Decimal(i) + ".correct")) == Some(Bool(true)),
                             true, ChoiceCorrectNode))
    {
      CorrectSwitch(path + "." + Decimal(i) + ".correct", view);
    }
  }

  /** The answer's `correct` flag renders as the compact switch at its own path. */
  lemma CorrectSwitch(p: string, view: FormView)
    ensures RenderField("correct", p, ChoiceCorrectNode, view)
            == Some(Toggle(p, Some("correct"), None, Get(view.values, Segments(p)) == Some(Bool(true)), true, ChoiceCorrectNode))
  {
    assert Visible("correct", p, view.values);
    assert Peel(ChoiceCorrectNode) == BooleanNode(Some("Correct"));
  }
}
