/**
 * The schema tree that drives the form engine (zod schemas on the source
 * side) and the peeling that FieldRenderer performs on every field before
 * dispatching on its kind (app/components/editor/FormBuilder.tsx:56-100).
 */
module Schema {
  import opened Wrappers
  import opened Values

  /** A `.default(...)`: a literal, or a producer represented by what it returns. */
  datatype DefaultSpec = Literal(value: Value) | Producer(produces: Value)

  datatype Field = Field(name: string, node: SchemaNode)

  datatype SchemaNode =
    | StringNode(description: Option<string>)
    | NumberNode(description: Option<string>)
    | BooleanNode(description: Option<string>)
    | EnumNode(choices: seq<string>, description: Option<string>)
    | ObjectNode(fields: seq<Field>, description: Option<string>)
    | ArrayNode(element: SchemaNode, description: Option<string>)
    | DefaultNode(inner: SchemaNode, default: DefaultSpec, description: Option<string>)
    | OptionalNode(inner: SchemaNode, description: Option<string>)
    | UnionNode(branches: seq<SchemaNode>, description: Option<string>)
      /** `.refine(...)` effects: a wrapper the form engine does not look through. */
    | RefinedNode(inner: SchemaNode, description: Option<string>)
    | LiteralNode(literal: Value, description: Option<string>)

  /** The wrappers the inner loop strips: `Default` and `Optional`. */
  predicate IsModifier(s: SchemaNode) {
    s.DefaultNode? || s.OptionalNode?
  }

  /** The kinds a union may resolve to. */
  predicate IsSimple(s: SchemaNode) {
    s.StringNode? || s.NumberNode? || s.BooleanNode? || s.EnumNode?
  }

  /** The default the `.default(...)` wrapper produces; a producer is called. */
  function DefaultValue(d: DefaultSpec): Value {
    match d
    case Literal(v) => v
    case Producer(v) => v
  }

  // -----------------------------------------------------------------------
  // Specification of the peel.

  /** Strips `Default` / `Optional` wrappers only (the loop over a union branch). */
  function Strip(s: SchemaNode): (r: SchemaNode)
    ensures !IsModifier(r)
  {
    match s
    case DefaultNode(inner, _, _) => Strip(inner)
    case OptionalNode(inner, _) => Strip(inner)
    case _ => s
  }

  /** The first branch whose stripped kind is simple, stripped. */
  function FirstSimple(branches: seq<SchemaNode>): (r: Option<SchemaNode>)
    ensures r.Some? ==>
              && IsSimple(r.value)
              && exists i :: 0 <= i < |branches| && r.value == Strip(branches[i]) &&
                   forall j :: 0 <= j < i ==> !IsSimple(Strip(branches[j]))
    ensures r.None? <==> forall j :: 0 <= j < |branches| ==> !IsSimple(Strip(branches[j]))
  {
    if branches == [] then None
    else if IsSimple(Strip(branches[0])) then Some(Strip(branches[0]))
    else
      var r := FirstSimple(branches[1..]);
      assert forall j :: 1 <= j < |branches| ==> branches[j] == branches[1..][j - 1];
      if r.Some? then
        var i :| 0 <= i < |branches[1..]| && r.value == Strip(branches[1..][i]) &&
          forall j :: 0 <= j < i ==> !IsSimple(Strip(branches[1..][j]));
        assert forall j :: 0 <= j < i + 1 ==> !IsSimple(Strip(branches[j]));
        r
      else r
  }

  /** What FieldRenderer's peel leaves in `underlyingSchema`. */
  function Peel(s: SchemaNode): SchemaNode {
    match s
    case DefaultNode(inner, _, _) => Peel(inner)
    case OptionalNode(inner, _) => Peel(inner)
    case UnionNode(branches, _) =>
      (match FirstSimple(branches)
       case Some(t) => t
       case None => s)
    case _ => s
  }

  /** How many peel steps are left at most: the outer loop's variant. */
  function WrapDepth(s: SchemaNode): nat {
    match s
    case DefaultNode(inner, _, _) => 1 + WrapDepth(inner)
    case OptionalNode(inner, _) => 1 + WrapDepth(inner)
    case UnionNode(_, _) => 1
    case _ => 0
  }

  // -----------------------------------------------------------------------
  // The peel loop itself.

  /** FieldRenderer's `while` loop over `underlyingSchema` (FormBuilder.tsx:57-100). */
  method PeelUnderlying(schema: SchemaNode) returns (u: SchemaNode)
    ensures u == Peel(schema)
  {
    u := schema;
    while u.DefaultNode? || u.OptionalNode? || u.UnionNode?
      invariant Peel(u) == Peel(schema)
      decreases WrapDepth(u)
    {
      if u.DefaultNode? {
        u := u.inner;
      } else if u.OptionalNode? {
        u := u.inner;
      } else {
        var branches := u.branches;
        var found: Option<SchemaNode> := None;
        var i := 0;
        while i < |branches|
          invariant 0 <= i <= |branches|
          invariant FirstSimple(branches) == FirstSimple(branches[i..])
          decreases |branches| - i
        {
          var inner := branches[i];
          while inner.DefaultNode? || inner.OptionalNode?
            invariant Strip(inner) == Strip(branches[i])
            decreases inner
          {
            inner := inner.inner;
          }
          if IsSimple(inner) {
            found := Some(inner);
            break;
          }
          assert branches[i..][1..] == branches[i + 1..];
          i := i + 1;
        }
        if found.Some? {
          u := found.value;
        } else {
          break;
        }
      }
    }
  }

  // -----------------------------------------------------------------------
  // Properties of the peel.

  /** One `Default` or `Optional` wrapper, as a chain element. */
  datatype Modifier = WithDefault(default: DefaultSpec, note: Option<string>) | MakeOptional(note: Option<string>)

  /** `base` wrapped by `mods`, the first modifier outermost. */
  function Wrap(mods: seq<Modifier>, base: SchemaNode): SchemaNode
    decreases |mods|
  {
    if mods == [] then base
    else
      match mods[0]
      case WithDefault(d, n) => DefaultNode(Wrap(mods[1..], base), d, n)
      case MakeOptional(n) => OptionalNode(Wrap(mods[1..], base), n)
  }

  /**
   * Any chain of `Default` / `Optional` wrappers peels to what the node
   * inside it peels to, and to that node itself when it is neither a
   * wrapper nor a union.
   */
  lemma {:induction false} PeelThroughModifiers(mods: seq<Modifier>, base: SchemaNode)
    ensures Peel(Wrap(mods, base)) == Peel(base)
    ensures Strip(Wrap(mods, base)) == Strip(base)
    ensures !IsModifier(base) && !base.UnionNode? ==> Peel(Wrap(mods, base)) == base
    decreases |mods|
  {
    if mods != [] {
      PeelThroughModifiers(mods[1..], base);
    }
  }

  /**
   * The peel stops only at a node the loop condition rejects, or at a union
   * with no simple branch; peeling again changes nothing.
   */
  lemma {:induction false} PeelIsFinal(s: SchemaNode)
    ensures !IsModifier(Peel(s))
    ensures Peel(s).UnionNode? ==> FirstSimple(Peel(s).branches).None?
    ensures Peel(Peel(s)) == Peel(s)
  {
    match s
    case DefaultNode(inner, _, _) => PeelIsFinal(inner);
    case OptionalNode(inner, _) => PeelIsFinal(inner);
    case _ =>
  }

  /**
   * A union resolves to its first branch whose own `Default` / `Optional`
   * wrappers peel to a string, number, boolean or enum.
   */
  lemma UnionResolvesToFirstSimple(branches: seq<SchemaNode>, d: Option<string>, i: nat)
    requires i < |branches| && IsSimple(Strip(branches[i]))
    requires forall j :: 0 <= j < i ==> !IsSimple(Strip(branches[j]))
    ensures Peel(UnionNode(branches, d)) == Strip(branches[i])
  {
    var r := FirstSimple(branches);
    var k :| 0 <= k < |branches| && r.value == Strip(branches[k]) &&
      forall j :: 0 <= j < k ==> !IsSimple(Strip(branches[j]));
    if k < i {
    } else if k > i {
    }
  }

  /** A union with no simple branch is where the peel stops. */
  lemma UnionWithoutSimpleStays(branches: seq<SchemaNode>, d: Option<string>)
    requires forall j :: 0 <= j < |branches| ==> !IsSimple(Strip(branches[j]))
    ensures Peel(UnionNode(branches, d)) == UnionNode(branches, d)
  {
  }

  // -----------------------------------------------------------------------
  // Description shown for a field (FormBuilder.tsx:117).

  predicate IsTruthy(d: Option<string>) {
    d.Some? && d.value != ""
  }

  /** `schema.description || underlyingSchema.description`. */
  function Description(outer: SchemaNode, peeled: SchemaNode): (r: Option<string>)
    ensures IsTruthy(outer.description) ==> r == outer.description
    ensures !IsTruthy(outer.description) ==> r == peeled.description
  {
    if IsTruthy(outer.description) then outer.description else peeled.description
  }

  /**
   * The label of a field whose schema is a `Default` / `Optional` chain
   * around a plain node: only the outermost wrapper's description and the
   * plain node's own are ever consulted, so a description on an inner
   * wrapper is lost. When the wrappers carry the plain node's description,
   * as `.default(...)` and `.optional()` copy it outward, that is the label.
   */
  lemma LabelThroughModifiers(mods: seq<Modifier>, base: SchemaNode)
    requires !IsModifier(base) && !base.UnionNode?
    ensures mods != [] ==>
              Description(Wrap(mods, base), Peel(Wrap(mods, base)))
                == (if IsTruthy(mods[0].note) then mods[0].note else base.description)
    ensures (forall i :: 0 <= i < |mods| ==> mods[i].note == base.description) ==>
              Description(Wrap(mods, base), Peel(Wrap(mods, base))) == base.description
  {
    PeelThroughModifiers(mods, base);
  }

  /** The default the boolean effect writes: only an outer `.default(...)` has one. */
  function OuterDefault(outer: SchemaNode): (r: Option<Value>)
    ensures r.Some? <==> outer.DefaultNode?
  {
    if outer.DefaultNode? then Some(DefaultValue(outer.default)) else None
  }

  // -----------------------------------------------------------------------
  // A size measure, for recursion over the tree.

  function Size(s: SchemaNode): (n: nat)
    ensures n >= 1
  {
    match s
    case ObjectNode(fs, _) => 1 + FieldsSize(fs)
    case ArrayNode(e, _) => 1 + Size(e)
    case DefaultNode(inner, _, _) => 1 + Size(inner)
    case OptionalNode(inner, _) => 1 + Size(inner)
    case UnionNode(bs, _) => 1 + BranchesSize(bs)
    case RefinedNode(inner, _) => 1 + Size(inner)
    case _ => 1
  }

  function FieldsSize(fs: seq<Field>): nat {
    if fs == [] then 0 else Size(fs[0].node) + FieldsSize(fs[1..])
  }

  function BranchesSize(bs: seq<SchemaNode>): nat {
    if bs == [] then 0 else Size(bs[0]) + BranchesSize(bs[1..])
  }

  lemma {:induction false} StripShrinks(s: SchemaNode)
    ensures Size(Strip(s)) <= Size(s)
  {
    match s
    case DefaultNode(inner, _, _) => StripShrinks(inner);
    case OptionalNode(inner, _) => StripShrinks(inner);
    case _ =>
  }

  lemma {:induction false} BranchSizeBound(bs: seq<SchemaNode>, i: nat)
    requires i < |bs|
    ensures Size(bs[i]) <= BranchesSize(bs)
    decreases i
  {
    if i > 0 {
      BranchSizeBound(bs[1..], i - 1);
    }
  }

  lemma {:induction false} FieldSizeBound(fs: seq<Field>, i: nat)
    requires i < |fs|
    ensures Size(fs[i].node) < 1 + FieldsSize(fs)
    ensures FieldsSize(fs[i + 1..]) <= FieldsSize(fs)
    decreases i
  {
    if i > 0 {
      FieldSizeBound(fs[1..], i - 1);
      assert fs[1..][i..] == fs[i + 1..];
    }
  }

  /** The peeled node is never larger than the node it came from. */
  lemma {:induction false} PeelShrinks(s: SchemaNode)
    ensures Size(Peel(s)) <= Size(s)
  {
    match s
    case DefaultNode(inner, _, _) => PeelShrinks(inner);
    case OptionalNode(inner, _) => PeelShrinks(inner);
    case UnionNode(bs, _) =>
      var r := FirstSimple(bs);
      if r.Some? {
        var i :| 0 <= i < |bs| && r.value == Strip(bs[i]);
        StripShrinks(bs[i]);
        BranchSizeBound(bs, i);
      }
    case _ =>
  }
}
