/**
 * The form state the editor binds to: the live document, and for every
 * mounted field array the stable ids that key its rendered rows
 * (`useFieldArray`'s `field.id`). Only the contract the form engine uses is
 * modelled: read a path, write a path, append at the end, remove at an
 * index, and the boolean default effect (FormBuilder.tsx:159-167).
 */
module FormStore {
  import opened Wrappers
  import opened Values
  import opened Paths
  import opened Schema
  import opened Lists

  /** The list stored at a path; anything that is not a list counts as empty. */
  function ListAt(v: Value, segs: seq<string>): seq<Value> {
    match Get(v, segs)
    case Some(List(items)) => items
    case _ => []
  }

  /**
   * The boolean default effect on a document: write the outer node's default
   * when nothing is stored at the path yet, otherwise leave the document alone.
   */
  function Materialized(v: Value, segs: seq<string>, outer: SchemaNode): Value {
    if Get(v, segs).None? && outer.DefaultNode? then
      Set(v, segs, DefaultValue(outer.default))
    else v
  }

  /**
   * The effect writes the default exactly when the path is undefined and the
   * outer node is a `.default(...)`; a stored value (`false` included) is
   * never overwritten, and paths that part ways with it are untouched.
   */
  lemma MaterializedWrites(v: Value, segs: seq<string>, outer: SchemaNode)
    ensures Get(v, segs).Some? ==> Materialized(v, segs, outer) == v
    ensures !outer.DefaultNode? ==> Materialized(v, segs, outer) == v
    ensures Get(v, segs).None? && outer.DefaultNode? && Writable(v, segs) ==>
              Get(Materialized(v, segs, outer), segs) == Some(DefaultValue(outer.default))
    ensures forall q :: Diverge(segs, q) ==> Get(Materialized(v, segs, outer), q) == Get(v, q)
  {
    if Get(v, segs).None? && outer.DefaultNode? {
      if Writable(v, segs) {
        SetThenGet(v, segs, DefaultValue(outer.default));
      }
      forall q | Diverge(segs, q)
        ensures Get(Materialized(v, segs, outer), q) == Get(v, q)
      {
        SetFrame(v, segs, q, DefaultValue(outer.default));
      }
    }
  }

  /** Running the effect a second time after its write does nothing. */
  lemma MaterializedIdempotent(v: Value, segs: seq<string>, outer: SchemaNode)
    ensures Materialized(Materialized(v, segs, outer), segs, outer) == Materialized(v, segs, outer)
  {
    if Get(v, segs).None? && outer.DefaultNode? {
      var d := DefaultValue(outer.default);
      if Writable(v, segs) {
        SetThenGet(v, segs, d);
      } else {
        SetUnwritableIsNoop(v, segs, d);
      }
    }
  }

  /** A fresh record holds no list at any path. */
  lemma FreshListEmpty(segs: seq<string>)
    ensures ListAt(Record(map[]), segs) == []
  {
    if segs != [] {
      FreshGetNone(segs);
    }
  }

  /**
   * A write strictly inside the value stored at `q` (into one of its
   * elements) keeps the length of the list there.
   */
  lemma {:induction false} SetBelowKeepsLength(v: Value, q: seq<string>, rest: seq<string>, x: Value)
    requires rest != []
    ensures |ListAt(Set(v, q + rest, x), q)| == |ListAt(v, q)|
    decreases |q|
  {
    if q == [] {
      assert q + rest == rest;
    } else {
      var k := q[0];
      assert (q + rest)[0] == k && (q + rest)[1..] == q[1..] + rest;
      match v
      case Record(m) =>
        var child := if k in m then m[k] else Record(map[]);
        SetBelowKeepsLength(child, q[1..], rest, x);
        if k !in m {
          FreshListEmpty(q[1..]);
        }
      case List(items) =>
        match IndexIn(k, |items|) {
          case Some(i) => SetBelowKeepsLength(items[i], q[1..], rest, x);
          case None =>
        }
      case _ =>
        SetBelowKeepsLength(Record(map[]), q[1..], rest, x);
        FreshListEmpty(q[1..]);
    }
  }

  /** `w` lies strictly inside `p`: it addresses something within an element of `p`. */
  predicate Inside(p: seq<string>, w: seq<string>) {
    |p| < |w| && w[..|p|] == p
  }

  /** Writing a list at a writable path and reading it back gives that list. */
  lemma ListWriteReadBack(v: Value, segs: seq<string>, items: seq<Value>)
    requires Writable(v, segs)
    ensures ListAt(Set(v, segs, List(items)), segs) == items
  {
    SetThenGet(v, segs, List(items));
  }

  // -----------------------------------------------------------------------
  // The store invariant, on plain values.

  /** Every row id is distinct within its array and below the next id to hand out. */
  predicate IdsFresh(ids: map<string, seq<nat>>, next: nat) {
    forall p :: p in ids ==> Distinct(ids[p]) && forall k :: 0 <= k < |ids[p]| ==> ids[p][k] < next
  }

  /** One row id per stored element of every mounted array. */
  predicate IdsMatch(v: Value, ids: map<string, seq<nat>>) {
    forall p :: p in ids ==> |ids[p]| == |ListAt(v, Segments(p))|
  }

  /** Mounted arrays lie apart: neither aliases nor nests in another. */
  predicate Apart(ids: map<string, seq<nat>>) {
    forall p, q :: p in ids && q in ids && p != q ==> Diverge(Segments(p), Segments(q))
  }

  /** Appending an id that is not handed out yet keeps the list distinct and below the next id. */
  lemma AppendedIdFresh(prior: seq<nat>, next: nat)
    requires Distinct(prior) && forall k :: 0 <= k < |prior| ==> prior[k] < next
    ensures Distinct(prior + [next])
    ensures forall k :: 0 <= k < |prior| + 1 ==> (prior + [next])[k] < next + 1
  {
    var ids := prior + [next];
    forall i, j | 0 <= i < j < |ids|
      ensures ids[i] != ids[j]
    {
      if j == |prior| {
        assert ids[i] == prior[i];
      } else {
        assert ids[i] == prior[i] && ids[j] == prior[j];
      }
    }
  }

  /** A write of a list at a mounted array's path leaves the lists of the other mounted arrays alone. */
  lemma WriteKeepsOtherLists(v: Value, ids: map<string, seq<nat>>, path: string, y: Value)
    requires Apart(ids) && path in ids
    ensures forall q :: q in ids && q != path ==> ListAt(Set(v, Segments(path), y), Segments(q)) == ListAt(v, Segments(q))
  {
    forall q | q in ids && q != path
      ensures ListAt(Set(v, Segments(path), y), Segments(q)) == ListAt(v, Segments(q))
    {
      SetFrame(v, Segments(path), Segments(q), y);
    }
  }

  /** A write leaves every path that parts ways with it unchanged. */
  lemma WriteFrame(v: Value, segs: seq<string>, x: Value)
    ensures forall q :: Diverge(segs, q) ==> Get(Set(v, segs, x), q) == Get(v, q)
  {
    forall q | Diverge(segs, q)
      ensures Get(Set(v, segs, x), q) == Get(v, q)
    {
      SetFrame(v, segs, q, x);
    }
  }

  /**
   * A write apart from every mounted array, or inside one of its elements,
   * keeps one row id per stored element.
   */
  lemma WriteKeepsInvariant(v: Value, ids: map<string, seq<nat>>, path: string, x: Value)
    requires IdsMatch(v, ids)
    requires forall p :: p in ids ==> Diverge(Segments(path), Segments(p)) || Inside(Segments(p), Segments(path))
    ensures IdsMatch(Set(v, Segments(path), x), ids)
  {
    forall p | p in ids
      ensures |ListAt(Set(v, Segments(path), x), Segments(p))| == |ListAt(v, Segments(p))|
    {
      if Diverge(Segments(path), Segments(p)) {
        SetFrame(v, Segments(path), Segments(p), x);
      } else {
        var q := Segments(p);
        var rest := Segments(path)[|q|..];
        assert q + rest == Segments(path);
        SetBelowKeepsLength(v, q, rest, x);
      }
    }
  }

  /** `append(x)` keeps the invariant: the new id is fresh and the array grows by one element. */
  lemma AppendKeepsInvariant(v: Value, ids: map<string, seq<nat>>, next: nat, path: string, x: Value)
    requires IdsFresh(ids, next) && IdsMatch(v, ids) && Apart(ids)
    requires path in ids && Writable(v, Segments(path))
    ensures var v' := Set(v, Segments(path), List(ListAt(v, Segments(path)) + [x]));
            var ids' := ids[path := ids[path] + [next]];
            && ListAt(v', Segments(path)) == ListAt(v, Segments(path)) + [x]
            && IdsFresh(ids', next + 1) && IdsMatch(v', ids') && Apart(ids')
    ensures forall q :: q in ids ==> next !in ids[q]
  {
    var items := ListAt(v, Segments(path));
    var v' := Set(v, Segments(path), List(items + [x]));
    var ids' := ids[path := ids[path] + [next]];
    ListWriteReadBack(v, Segments(path), items + [x]);
    WriteKeepsOtherLists(v, ids, path, List(items + [x]));
    AppendedIdFresh(ids[path], next);
    assert ids'.Keys == ids.Keys;
    assert IdsMatch(v', ids') by {
      forall p | p in ids'
        ensures |ids'[p]| == |ListAt(v', Segments(p))|
      {
        if p != path {
          assert ids'[p] == ids[p];
        }
      }
    }
  }

  /** Removing one id from a mounted array keeps the ids distinct and handed out. */
  lemma RemovedIdsFresh(ids: map<string, seq<nat>>, next: nat, path: string, index: nat)
    requires IdsFresh(ids, next) && path in ids
    ensures IdsFresh(ids[path := Removed(ids[path], index)], next)
  {
    var r := Removed(ids[path], index);
    if index < |ids[path]| {
      RemovedDistinct(ids[path], index);
    }
    forall k | 0 <= k < |r|
      ensures r[k] < next
    {
      assert r[k] in ids[path];
    }
  }

  /** `remove(index)` keeps the invariant: the element and its id go together. */
  lemma RemoveKeepsInvariant(v: Value, ids: map<string, seq<nat>>, next: nat, path: string, index: nat)
    requires IdsFresh(ids, next) && IdsMatch(v, ids) && Apart(ids)
    requires path in ids && Writable(v, Segments(path))
    ensures var v' := Set(v, Segments(path), List(Removed(ListAt(v, Segments(path)), index)));
            var ids' := ids[path := Removed(ids[path], index)];
            && ListAt(v', Segments(path)) == Removed(ListAt(v, Segments(path)), index)
            && IdsFresh(ids', next) && IdsMatch(v', ids') && Apart(ids')
  {
    var items := ListAt(v, Segments(path));
    var v' := Set(v, Segments(path), List(Removed(items, index)));
    var ids' := ids[path := Removed(ids[path], index)];
    ListWriteReadBack(v, Segments(path), Removed(items, index));
    WriteKeepsOtherLists(v, ids, path, List(Removed(items, index)));
    RemovedIdsFresh(ids, next, path, index);
    assert ids'.Keys == ids.Keys;
    assert IdsMatch(v', ids') by {
      forall p | p in ids'
        ensures |ids'[p]| == |ListAt(v', Segments(p))|
      {
        if p != path {
          assert ids'[p] == ids[p];
        }
      }
    }
  }

  class Store {
    /** The live document. */
    var values: Value
    /** Row ids of each mounted field array, by array path. */
    var fieldIds: map<string, seq<nat>>
    /** The next id to hand out; ids are never reused. */
    var nextId: nat

    /**
     * Row ids are distinct and already handed out, every mounted array has
     * one id per stored element, and mounted arrays lie apart.
     */
    ghost predicate Valid()
      reads this
    {
      IdsFresh(fieldIds, nextId) && IdsMatch(values, fieldIds) && Apart(fieldIds)
    }

    constructor (initial: Value)
      ensures Valid()
      ensures values == initial && fieldIds == map[] && nextId == 0
    {
      values := initial;
      fieldIds := map[];
      nextId := 0;
    }

    /** `watch(path)`. */
    function Watch(path: string): Option<Value>
      reads this
    {
      Get(values, Segments(path))
    }

    /** `fields` of the field array at `path`, as ids. */
    function Fields(path: string): seq<nat>
      reads this
    {
      if path in fieldIds then fieldIds[path] else []
    }

    /**
     * `setValue(path, x)` from a control: the path lies apart from every
     * mounted array or inside one of its elements, never over the array.
     */
    method SetValue(path: string, x: Value)
      requires Valid()
      requires forall p :: p in fieldIds ==> Diverge(Segments(path), Segments(p)) || Inside(Segments(p), Segments(path))
      modifies this
      ensures Valid()
      ensures values == Set(old(values), Segments(path), x)
      ensures fieldIds == old(fieldIds) && nextId == old(nextId)
      ensures Writable(old(values), Segments(path)) ==> Watch(path) == Some(x)
      ensures forall q :: Diverge(Segments(path), Segments(q)) ==> Watch(q) == old(Watch(q))
    {
      if Writable(values, Segments(path)) {
        SetThenGet(values, Segments(path), x);
      }
      WriteFrame(values, Segments(path), x);
      WriteKeepsInvariant(values, fieldIds, path, x);
      values := Set(values, Segments(path), x);
    }

    /** `useFieldArray({ name: path })` on mount: one fresh id per stored element. */
    method MountFieldArray(path: string)
      requires Valid()
      requires path !in fieldIds ==> forall q :: q in fieldIds ==> Diverge(Segments(q), Segments(path))
      modifies this
      ensures Valid() && values == old(values)
      ensures path in old(fieldIds) ==> fieldIds == old(fieldIds) && nextId == old(nextId)
      ensures path !in old(fieldIds) ==>
                var n := |ListAt(values, Segments(path))|;
                && fieldIds == old(fieldIds)[path := Range(old(nextId), n)]
                && nextId == old(nextId) + n
    {
      if path !in fieldIds {
        var n := |ListAt(values, Segments(path))|;
        forall q | q in fieldIds
          ensures Diverge(Segments(path), Segments(q))
        {
          var i :| 0 <= i < |Segments(q)| && i < |Segments(path)| && Segments(q)[i] != Segments(path)[i];
        }
        fieldIds := fieldIds[path := Range(nextId, n)];
        nextId := nextId + n;
      }
    }

    /** `append(x)` of the mounted field array at `path`: one element and one fresh id at the end. */
    method Append(path: string, x: Value)
      requires Valid() && path in fieldIds && Writable(values, Segments(path))
      modifies this
      ensures Valid()
      ensures values == Set(old(values), Segments(path), List(ListAt(old(values), Segments(path)) + [x]))
      ensures ListAt(values, Segments(path)) == ListAt(old(values), Segments(path)) + [x]
      ensures fieldIds == old(fieldIds)[path := old(fieldIds)[path] + [old(nextId)]]
      ensures nextId == old(nextId) + 1
      ensures forall q :: q in old(fieldIds) ==> old(nextId) !in old(fieldIds)[q]
    {
      AppendKeepsInvariant(values, fieldIds, nextId, path, x);
      values := Set(values, Segments(path), List(ListAt(values, Segments(path)) + [x]));
      fieldIds := fieldIds[path := fieldIds[path] + [nextId]];
      nextId := nextId + 1;
    }

    /** `remove(index)` of the mounted field array at `path`. */
    method Remove(path: string, index: nat)
      requires Valid() && path in fieldIds && Writable(values, Segments(path))
      modifies this
      ensures Valid()
      ensures values == Set(old(values), Segments(path), List(Removed(ListAt(old(values), Segments(path)), index)))
      ensures ListAt(values, Segments(path)) == Removed(ListAt(old(values), Segments(path)), index)
      ensures fieldIds == old(fieldIds)[path := Removed(old(fieldIds)[path], index)]
      ensures nextId == old(nextId)
    {
      RemoveKeepsInvariant(values, fieldIds, nextId, path, index);
      values := Set(values, Segments(path), List(Removed(ListAt(values, Segments(path)), index)));
      fieldIds := fieldIds[path := Removed(fieldIds[path], index)];
    }

    /** The boolean field's default effect (FormBuilder.tsx:159-167). */
    method MaterializeDefault(path: string, outer: SchemaNode)
      requires Valid()
      requires forall p :: p in fieldIds ==> Diverge(Segments(path), Segments(p)) || Inside(Segments(p), Segments(path))
      modifies this
      ensures Valid()
      ensures values == Materialized(old(values), Segments(path), outer)
      ensures fieldIds == old(fieldIds) && nextId == old(nextId)
    {
      var value := Watch(path);
      if value.None? && outer.DefaultNode? {
        SetValue(path, DefaultValue(outer.default));
      }
    }
  }
}
