/**
 * The generic form renderer (app/components/editor/FormBuilder.tsx):
 * FormBuilder walks an object's fields in declared order, FieldRenderer
 * gates a field on its visibility rule, peels its schema and dispatches on
 * the kind, and ArrayField lays out one row per field-array id.
 * Rendering is a pure function of the schema and a snapshot of the form
 * state; what the form shows is a tree of `Control` values.
 */
module FormRender {
  import opened Wrappers
  import opened Strings
  import opened Values
  import opened Paths
  import opened Schema

  /** The form library's error object: a message and nested errors by key. */
  datatype ErrorNode = ErrorNode(message: Option<string>, children: map<string, ErrorNode>)

  /** What the renderer reads: the document, the field-array ids, the errors. */
  datatype FormView = FormView(values: Value, fieldIds: map<string, seq<nat>>, errors: ErrorNode)

  datatype Control =
    | TextInput(path: string, caption: string, description: Option<string>)
    | NumberInput(path: string, caption: string, description: Option<string>)
      /**
       * A switch; `compact` is the inline form used for a field named "correct".
       * Mounting it mounts the default effect, which reads the default of
       * `effect`, the schema FieldRenderer was handed (FormBuilder.tsx:159-167).
       */
    | Toggle(path: string, heading: Option<string>, description: Option<string>, checked: bool, compact: bool,
             effect: SchemaNode)
    | Choice(path: string, caption: string, description: Option<string>, choices: seq<string>, selected: Option<Value>)
    | Group(children: seq<Control>)
    | ArrayList(path: string, caption: string, compact: bool, rows: seq<Row>, error: Option<string>)
      /** The diagnostic placeholder for a field whose kind is not supported. */
    | Unsupported(name: string)
      /**
       * FieldRenderer throws here: it was handed no schema at all and reads
       * the description of `undefined` (FormBuilder.tsx:117).
       */
    | Fault(path: string)

  datatype Row =
      /** The compact "answers" row: the `correct` switch, the text input and its error. */
    | AnswerRow(key: nat, correct: Option<Control>, textPath: string, textError: Option<string>)
    | CardRow(key: nat, body: seq<Control>)

  function UnsupportedMessage(name: string): string {
    "Unsupported field type: " + name
  }

  // -----------------------------------------------------------------------
  // Error lookup (FormBuilder.tsx:269-271).

  function ErrorStep(acc: Option<ErrorNode>, part: string): Option<ErrorNode> {
    match acc
    case None => None
    case Some(e) => if part in e.children then Some(e.children[part]) else None
  }

  /** `parts.reduce((acc, part) => acc && acc[part], start)`. */
  function ErrorAlong(acc: Option<ErrorNode>, parts: seq<string>): Option<ErrorNode>
    decreases |parts|
  {
    if parts == [] then acc else ErrorAlong(ErrorStep(acc, parts[0]), parts[1..])
  }

  /** `getError(errors, path)`: split on '.', no empty pieces dropped. */
  function GetError(errors: ErrorNode, path: string): Option<ErrorNode> {
    ErrorAlong(Some(errors), Split(path, '.'))
  }

  lemma {:induction false} ErrorAlongAppend(acc: Option<ErrorNode>, a: seq<string>, b: seq<string>)
    ensures ErrorAlong(acc, a + b) == ErrorAlong(ErrorAlong(acc, a), b)
    decreases |a|
  {
    if a == [] {
      assert a + b == b;
    } else {
      assert (a + b)[0] == a[0] && (a + b)[1..] == a[1..] + b;
      ErrorAlongAppend(ErrorStep(acc, a[0]), a[1..], b);
    }
  }

  lemma {:induction false} ErrorAlongNone(parts: seq<string>)
    ensures ErrorAlong(None, parts) == None
    decreases |parts|
  {
    if parts != [] {
      ErrorAlongNone(parts[1..]);
    }
  }

  /** Once a segment is missing the lookup is `undefined`, whatever follows. */
  lemma ErrorMissingSegment(errors: ErrorNode, parts: seq<string>, i: nat)
    requires i <= |parts| && ErrorAlong(Some(errors), parts[..i]) == None
    ensures ErrorAlong(Some(errors), parts) == None
  {
    assert parts == parts[..i] + parts[i..];
    ErrorAlongAppend(Some(errors), parts[..i], parts[i..]);
    ErrorAlongNone(parts[i..]);
  }

  /** The error of a child path is the child entry of the parent's error. */
  lemma ErrorOfChild(errors: ErrorNode, path: string, key: string)
    requires path != "" && '.' !in key
    ensures GetError(errors, ChildPath(path, key)) == ErrorStep(GetError(errors, path), key)
  {
    SplitFree(key, '.');
    SplitAround(path, key, '.');
    assert path + "." + key == path + ['.'] + key;
    ErrorAlongAppend(Some(errors), Split(path, '.'), [key]);
  }

  /** The message shown under a control: only a non-empty one is shown. */
  function MessageAt(errors: ErrorNode, path: string): Option<string> {
    match GetError(errors, path)
    case Some(ErrorNode(Some(m), _)) => if m != "" then Some(m) else None
    case _ => None
  }

  // -----------------------------------------------------------------------
  // Visibility (FormBuilder.tsx:102-115).

  /** A field shown only while its sibling `siblingKey` holds the string `tag`. */
  datatype Condition = Condition(siblingKey: string, tag: string)

  function VisibilityRule(name: string): Option<Condition> {
    if name == "factContent" then Some(Condition("type", "fact"))
    else if name == "quizContent" then Some(Condition("type", "quiz"))
    else None
  }

  predicate Visible(name: string, path: string, values: Value) {
    match VisibilityRule(name)
    case None => true
    case Some(c) => Get(values, Segments(SiblingPath(path, c.siblingKey))) == Some(Str(c.tag))
  }

  /**
   * `factContent` under `path` shows exactly when `path.type` holds "fact",
   * `quizContent` exactly when it holds "quiz"; other fields always show.
   */
  lemma VisibleIffSiblingType(path: string, name: string, values: Value)
    requires '.' !in name
    ensures VisibilityRule(name).None? ==> Visible(name, ChildPath(path, name), values)
    ensures name == "factContent" ==>
              (Visible(name, ChildPath(path, name), values) <==>
               Get(values, Segments(path) + ["type"]) == Some(Str("fact")))
    ensures name == "quizContent" ==>
              (Visible(name, ChildPath(path, name), values) <==>
               Get(values, Segments(path) + ["type"]) == Some(Str("quiz")))
  {
    if VisibilityRule(name).Some? {
      SiblingOfChild(path, name, "type");
      ChildSegments(path, "type");
    }
  }

  /**
   * Switching `type` shows or hides the conditional field and leaves the
   * value it held untouched, so showing it again finds the earlier input.
   */
  lemma SwitchingTypeKeepsContent(values: Value, path: string, tag: string)
    requires Writable(values, Segments(path) + ["type"])
    ensures var after := Set(values, Segments(path) + ["type"], Str(tag));
            && Get(after, Segments(path) + ["factContent"]) == Get(values, Segments(path) + ["factContent"])
            && Get(after, Segments(path) + ["quizContent"]) == Get(values, Segments(path) + ["quizContent"])
            && (Visible("factContent", ChildPath(path, "factContent"), after) <==> tag == "fact")
            && (Visible("quizContent", ChildPath(path, "quizContent"), after) <==> tag == "quiz")
  {
    var t := Segments(path) + ["type"];
    var after := Set(values, t, Str(tag));
    var n := |Segments(path)|;
    assert t[n] != (Segments(path) + ["factContent"])[n];
    assert t[n] != (Segments(path) + ["quizContent"])[n];
    SetFrame(values, t, Segments(path) + ["factContent"], Str(tag));
    SetFrame(values, t, Segments(path) + ["quizContent"], Str(tag));
    SetThenGet(values, t, Str(tag));
    VisibleIffSiblingType(path, "factContent", after);
    VisibleIffSiblingType(path, "quizContent", after);
  }

  // -----------------------------------------------------------------------
  // Dispatch.

  /** The schema of the field `key` of an object shape, if it has one. */
  function Lookup(fs: seq<Field>, key: string): (r: Option<SchemaNode>)
    ensures r.Some? ==> exists i :: 0 <= i < |fs| && fs[i].name == key && fs[i].node == r.value
    ensures r.None? ==> forall i :: 0 <= i < |fs| ==> fs[i].name != key
  {
    if fs == [] then None
    else if fs[0].name == key then Some(fs[0].node)
    else
      var r := Lookup(fs[1..], key);
      assert forall i :: 1 <= i < |fs| ==> fs[i] == fs[1..][i - 1];
      r
  }

  lemma LookupShrinks(fs: seq<Field>, key: string, d: Option<string>)
    requires Lookup(fs, key).Some?
    ensures Size(Lookup(fs, key).value) < Size(ObjectNode(fs, d))
  {
    var i :| 0 <= i < |fs| && fs[i].name == key && fs[i].node == Lookup(fs, key).value;
    FieldSizeBound(fs, i);
  }

  function ItemLabel(index: nat): string {
    "Item " + Decimal(index + 1)
  }

  function FieldIds(view: FormView, path: string): seq<nat> {
    if path in view.fieldIds then view.fieldIds[path] else []
  }

  function AsSeq(c: Option<Control>): seq<Control> {
    if c.Some? then [c.value] else []
  }

  /** FieldRenderer: None is `return null`. */
  function RenderField(name: string, path: string, schema: SchemaNode, view: FormView): Option<Control>
    decreases Size(schema), 1, 0
  {
    if !Visible(name, path, view.values) then None
    else
      PeelShrinks(schema);
      var u := Peel(schema);
      var d := Description(schema, u);
      Some(match u
        case StringNode(_) => TextInput(path, name, d)
        case NumberNode(_) => NumberInput(path, name, d)
        case BooleanNode(_) =>
          var checked := Get(view.values, Segments(path)) == Some(Bool(true));
          if name == "correct" then Toggle(path, Some(name), None, checked, true, schema)
          else Toggle(path, d, d, checked, false, schema)
        case ArrayNode(e, _) =>
          ArrayList(path, name, name == "answers" && e.ObjectNode?,
                    RenderRows(name, path, e, view, FieldIds(view, path), 0),
                    MessageAt(view.errors, path))
        case EnumNode(cs, _) => Choice(path, name, d, cs, Get(view.values, Segments(path)))
        case ObjectNode(fs, _) => Group(RenderFields(fs, path, view))
        case _ => Unsupported(name))
  }

  /** FormBuilder: the fields of an object shape in declared order. */
  function RenderFields(fs: seq<Field>, path: string, view: FormView): seq<Control>
    decreases FieldsSize(fs), 2, 0
  {
    if fs == [] then []
    else
      AsSeq(RenderField(fs[0].name, ChildPath(path, fs[0].name), fs[0].node, view))
        + RenderFields(fs[1..], path, view)
  }

  /** ArrayField's row with id `id` for element `k`. */
  function RenderRow(name: string, path: string, elem: SchemaNode, view: FormView, id: nat, k: nat): Row
    decreases Size(elem), 3, 0
  {
    var itemPath := path + "." + Decimal(k);
    if name == "answers" && elem.ObjectNode? then
      var correct :=
        (match Lookup(elem.fields, "correct")
         case Some(c) =>
           LookupShrinks(elem.fields, "correct", elem.description);
           RenderField("correct", itemPath + ".correct", c, view)
         case None => Some(Fault(itemPath + ".correct")));
      AnswerRow(id, correct, itemPath + ".text", MessageAt(view.errors, itemPath + ".text"))
    else if elem.ObjectNode? then
      CardRow(id, RenderFields(elem.fields, itemPath, view))
    else
      CardRow(id, AsSeq(RenderField(ItemLabel(k), itemPath, elem, view)))
  }

  /** ArrayField's rows, one per id, from index `k` on. */
  function RenderRows(name: string, path: string, elem: SchemaNode, view: FormView, ids: seq<nat>, k: nat): seq<Row>
    decreases Size(elem), 3, |ids|
  {
    if ids == [] then []
    else [RenderRow(name, path, elem, view, ids[0], k)] + RenderRows(name, path, elem, view, ids[1..], k + 1)
  }

  /** The whole form for a content type's root object schema. */
  function RenderForm(root: seq<Field>, view: FormView): seq<Control> {
    RenderFields(root, "", view)
  }

  // -----------------------------------------------------------------------
  // Properties of the renderer.

  /** The kinds FieldRenderer has a control for. */
  predicate Supported(u: SchemaNode) {
    u.StringNode? || u.NumberNode? || u.BooleanNode? || u.ArrayNode? || u.EnumNode? || u.ObjectNode?
  }

  /**
   * A field renders nothing exactly when its visibility rule hides it;
   * otherwise it renders the placeholder exactly when its peeled kind has
   * no control.
   */
  lemma RenderFieldOutcome(name: string, path: string, schema: SchemaNode, view: FormView)
    ensures RenderField(name, path, schema, view).None? <==> !Visible(name, path, view.values)
    ensures Visible(name, path, view.values) ==>
              (RenderField(name, path, schema, view) == Some(Unsupported(name)) <==> !Supported(Peel(schema)))
  {
  }

  /**
   * Wrappers the peel does not know (refine effects, literals) and unions
   * with no simple branch render the placeholder, under any chain of
   * `Default` / `Optional` wrappers.
   */
  lemma UnknownKindsRenderPlaceholder(name: string, path: string, mods: seq<Modifier>, base: SchemaNode, view: FormView)
    requires Visible(name, path, view.values)
    requires base.RefinedNode? || base.LiteralNode? ||
             (base.UnionNode? && forall j :: 0 <= j < |base.branches| ==> !IsSimple(Strip(base.branches[j])))
    ensures RenderField(name, path, Wrap(mods, base), view) == Some(Unsupported(name))
  {
    PeelThroughModifiers(mods, base);
    if base.UnionNode? {
      UnionWithoutSimpleStays(base.branches, base.description);
    }
  }

  /**
   * Fields without a visibility rule each render one control, in declared
   * order, at the child path; an unsupported field does not stop the rest.
   */
  lemma {:induction false} RenderFieldsInOrder(fs: seq<Field>, path: string, view: FormView)
    requires forall i :: 0 <= i < |fs| ==> VisibilityRule(fs[i].name).None?
    ensures |RenderFields(fs, path, view)| == |fs|
    ensures forall i :: 0 <= i < |fs| ==>
              Some(RenderFields(fs, path, view)[i]) == RenderField(fs[i].name, ChildPath(path, fs[i].name), fs[i].node, view)
    decreases |fs|
  {
    if fs != [] {
      RenderFieldsInOrder(fs[1..], path, view);
      var first := RenderField(fs[0].name, ChildPath(path, fs[0].name), fs[0].node, view);
      var rest := RenderFields(fs[1..], path, view);
      assert first.Some?;
      assert RenderFields(fs, path, view) == [first.value] + rest;
      forall i | 1 <= i < |fs|
        ensures RenderFields(fs, path, view)[i] == rest[i - 1]
      {
      }
    }
  }

  /** ArrayField's rows are, in order, the row of each id at its index. */
  lemma {:induction false} RowsAre(name: string, path: string, elem: SchemaNode, view: FormView, ids: seq<nat>, k: nat)
    ensures |RenderRows(name, path, elem, view, ids, k)| == |ids|
    ensures forall i :: 0 <= i < |ids| ==>
              RenderRows(name, path, elem, view, ids, k)[i] == RenderRow(name, path, elem, view, ids[i], k + i)
    decreases |ids|
  {
    if ids != [] {
      RowsAre(name, path, elem, view, ids[1..], k + 1);
    }
  }

  /**
   * ArrayField renders one row per id, keyed by that id, compact exactly
   * for "answers" over an un-peeled object element; a non-object element
   * becomes one field labelled "Item <index + 1>".
   */
  lemma RowsFollowIds(name: string, path: string, elem: SchemaNode, view: FormView, ids: seq<nat>, k: nat)
    ensures var rows := RenderRows(name, path, elem, view, ids, k);
            && |rows| == |ids|
            && forall i :: 0 <= i < |ids| ==>
                 && rows[i].key == ids[i]
                 && (rows[i].AnswerRow? <==> name == "answers" && elem.ObjectNode?)
                 && (!elem.ObjectNode? ==>
                       rows[i].body == AsSeq(RenderField(ItemLabel(k + i), path + "." + Decimal(k + i), elem, view)))
  {
    RowsAre(name, path, elem, view, ids, k);
  }

  /** The array control of a visible field whose schema peels to an array. */
  lemma ArrayFieldRows(name: string, path: string, schema: SchemaNode, view: FormView)
    requires Visible(name, path, view.values) && Peel(schema).ArrayNode?
    ensures var c := RenderField(name, path, schema, view).value;
            && c.ArrayList?
            && c.compact == (name == "answers" && Peel(schema).element.ObjectNode?)
            && |c.rows| == |FieldIds(view, path)|
            && forall i :: 0 <= i < |c.rows| ==> c.rows[i].key == FieldIds(view, path)[i]
  {
    RowsFollowIds(name, path, Peel(schema).element, view, FieldIds(view, path), 0);
  }

  /**
   * The compact "answers" row hands the element's `correct` schema to
   * FieldRenderer: the switch when the element declares `correct`, and a
   * thrown error at `path.k.correct` when it does not.
   */
  lemma AnswerRowsCorrect(path: string, elem: SchemaNode, view: FormView, ids: seq<nat>, k: nat)
    requires elem.ObjectNode?
    ensures |RenderRows("answers", path, elem, view, ids, k)| == |ids|
    ensures forall i :: 0 <= i < |ids| ==>
              && RenderRows("answers", path, elem, view, ids, k)[i].AnswerRow?
              && RenderRows("answers", path, elem, view, ids, k)[i].textPath == path + "." + Decimal(k + i) + ".text"
    ensures Lookup(elem.fields, "correct").None? ==>
              forall i :: 0 <= i < |ids| ==>
                RenderRows("answers", path, elem, view, ids, k)[i].correct == Some(Fault(path + "." + Decimal(k + i) + ".correct"))
    ensures Lookup(elem.fields, "correct").Some? ==>
              forall i :: 0 <= i < |ids| ==>
                RenderRows("answers", path, elem, view, ids, k)[i].correct
                  == RenderField("correct", path + "." + Decimal(k + i) + ".correct", Lookup(elem.fields, "correct").value, view)
  {
    RowsAre("answers", path, elem, view, ids, k);
  }

  // -----------------------------------------------------------------------
  // The boolean default effects a render mounts (FormBuilder.tsx:154-167).

  /**
   * The default effects mounted with a control, as (path, schema) pairs in
   * render order: one per switch, including the switches inside groups and
   * array rows. Each pair is run as `FormStore.Store.MaterializeDefault`.
   */
  function ControlEffects(c: Control): seq<(string, SchemaNode)>
    decreases c, 1
  {
    match c
    case Toggle(p, _, _, _, _, s) => [(p, s)]
    case Group(cs) => ControlsEffects(cs)
    case ArrayList(_, _, _, rows, _) => RowsEffects(rows)
    case _ => []
  }

  function ControlsEffects(cs: seq<Control>): seq<(string, SchemaNode)>
    decreases cs, 0
  {
    if cs == [] then [] else ControlEffects(cs[0]) + ControlsEffects(cs[1..])
  }

  function RowEffects(r: Row): seq<(string, SchemaNode)>
    decreases r, 1
  {
    match r
    case AnswerRow(_, correct, _, _) => if correct.Some? then ControlEffects(correct.value) else []
    case CardRow(_, body) => ControlsEffects(body)
  }

  function RowsEffects(rows: seq<Row>): seq<(string, SchemaNode)>
    decreases rows, 0
  {
    if rows == [] then [] else RowEffects(rows[0]) + RowsEffects(rows[1..])
  }

  lemma {:induction false} ControlsEffectsAppend(a: seq<Control>, b: seq<Control>)
    ensures ControlsEffects(a + b) == ControlsEffects(a) + ControlsEffects(b)
    decreases |a|
  {
    if a == [] {
      assert a + b == b;
    } else {
      assert (a + b)[0] == a[0] && (a + b)[1..] == a[1..] + b;
      ControlsEffectsAppend(a[1..], b);
    }
  }

  /**
   * The effects one field mounts: none while it is hidden, exactly its own
   * effect at its path with the schema it was handed when it peels to a
   * boolean, and none for a text, number, enum or unsupported field.
   */
  lemma FieldEffects(name: string, path: string, schema: SchemaNode, view: FormView)
    ensures !Visible(name, path, view.values) ==> ControlsEffects(AsSeq(RenderField(name, path, schema, view))) == []
    ensures Visible(name, path, view.values) && Peel(schema).BooleanNode? ==>
              ControlsEffects(AsSeq(RenderField(name, path, schema, view))) == [(path, schema)]
    ensures Visible(name, path, view.values) && !Peel(schema).BooleanNode? && !Peel(schema).ArrayNode?
            && !Peel(schema).ObjectNode? ==>
              ControlsEffects(AsSeq(RenderField(name, path, schema, view))) == []
  {
  }

  /**
   * A hidden field of an object shape renders nothing, so the object's
   * controls, and with them the default effects they mount, are those of
   * the shape without that field: nothing under a hidden field is written.
   */
  lemma {:induction false} HiddenFieldMountsNothing(fs: seq<Field>, path: string, view: FormView, i: nat)
    requires i < |fs| && !Visible(fs[i].name, ChildPath(path, fs[i].name), view.values)
    ensures RenderFields(fs, path, view) == RenderFields(fs[..i] + fs[i + 1..], path, view)
    ensures ControlsEffects(RenderFields(fs, path, view)) == ControlsEffects(RenderFields(fs[..i] + fs[i + 1..], path, view))
    decreases i
  {
    var rest := fs[..i] + fs[i + 1..];
    if i == 0 {
      assert rest == fs[1..];
    } else {
      HiddenFieldMountsNothing(fs[1..], path, view, i - 1);
      assert rest[0] == fs[0];
      assert rest[1..] == fs[1..][..i - 1] + fs[1..][i..];
    }
  }
}
