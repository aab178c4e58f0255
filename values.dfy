/**
 * The live document edited by the form: a tree of values addressed by
 * segment sequences, with the `get` / `set` contract that the form engine
 * relies on from its form-state library.
 *
 * A list element is addressed by the decimal rendering of its index
 * ("0", "1", ...), as a JavaScript array is indexed by a property name.
 * A missing container on the way to a written path is created as an empty
 * record; a write through a list at an index it does not have changes
 * nothing.
 */
module Values {
  import opened Wrappers
  import opened Strings

  datatype Value =
    | Str(s: string)
    | Num(n: int)
    | Bool(b: bool)
    | List(items: seq<Value>)
    | Record(fields: map<string, Value>)

  /** JavaScript truthiness of a present value (`undefined` is handled by Option). */
  predicate Truthy(v: Value) {
    match v
    case Str(s) => s != ""
    case Num(n) => n != 0
    case Bool(b) => b
    case _ => true
  }

  /** The index of a list of length `n` that the segment `seg` names, if any. */
  function IndexIn(seg: string, n: nat): (r: Option<nat>)
    ensures r.Some? ==> r.value < n && Decimal(r.value) == seg
    ensures r.None? ==> forall i :: 0 <= i < n ==> Decimal(i) != seg
    decreases n
  {
    if n == 0 then None
    else if Decimal(n - 1) == seg then Some(n - 1)
    else IndexIn(seg, n - 1)
  }

  lemma IndexInDecimal(i: nat, n: nat)
    requires i < n
    ensures IndexIn(Decimal(i), n) == Some(i)
  {
    var r := IndexIn(Decimal(i), n);
    DecimalInjective(r.value, i);
  }

  /** `get(values, path)`: None plays the part of `undefined`. */
  function Get(v: Value, segs: seq<string>): Option<Value>
    decreases |segs|
  {
    if segs == [] then Some(v)
    else
      match v
      case Record(m) =>
        if segs[0] in m then Get(m[segs[0]], segs[1..]) else None
      case List(items) =>
        (match IndexIn(segs[0], |items|)
         case Some(i) => Get(items[i], segs[1..])
         case None => None)
      case _ => None
  }

  /** `set(values, path, x)`. */
  function Set(v: Value, segs: seq<string>, x: Value): Value
    decreases |segs|
  {
    if segs == [] then x
    else
      var k := segs[0];
      match v
      case Record(m) =>
        Record(m[k := Set(if k in m then m[k] else Record(map[]), segs[1..], x)])
      case List(items) =>
        (match IndexIn(k, |items|)
         case Some(i) => List(items[i := Set(items[i], segs[1..], x)])
         case None => v)
      case _ => Record(map[k := Set(Record(map[]), segs[1..], x)])
  }

  /** Every list the path passes through has the index the path names. */
  predicate Writable(v: Value, segs: seq<string>)
    decreases |segs|
  {
    segs == [] ||
    match v
    case Record(m) =>
      Writable(if segs[0] in m then m[segs[0]] else Record(map[]), segs[1..])
    case List(items) =>
      (match IndexIn(segs[0], |items|)
       case Some(i) => Writable(items[i], segs[1..])
       case None => false)
    case _ => Writable(Record(map[]), segs[1..])
  }

  /** Paths that part ways at some segment. */
  predicate Diverge(p: seq<string>, q: seq<string>) {
    exists i :: 0 <= i < |p| && i < |q| && p[i] != q[i]
  }

  lemma {:induction false} FreshRecordWritable(segs: seq<string>)
    ensures Writable(Record(map[]), segs)
    decreases |segs|
  {
    if segs != [] {
      FreshRecordWritable(segs[1..]);
    }
  }

  /** Round trip: what was written at a path is read back there. */
  lemma {:induction false} SetThenGet(v: Value, segs: seq<string>, x: Value)
    requires Writable(v, segs)
    ensures Get(Set(v, segs, x), segs) == Some(x)
    decreases |segs|
  {
    if segs != [] {
      var k := segs[0];
      match v
      case Record(m) =>
        SetThenGet(if k in m then m[k] else Record(map[]), segs[1..], x);
      case List(items) =>
        var i := IndexIn(k, |items|).value;
        SetThenGet(items[i], segs[1..], x);
      case _ =>
        SetThenGet(Record(map[]), segs[1..], x);
    }
  }

  /** A write through a list index that does not exist changes nothing. */
  lemma {:induction false} SetUnwritableIsNoop(v: Value, segs: seq<string>, x: Value)
    requires !Writable(v, segs)
    ensures Set(v, segs, x) == v
    decreases |segs|
  {
    var k := segs[0];
    match v
    case Record(m) =>
      var child := if k in m then m[k] else Record(map[]);
      SetUnwritableIsNoop(child, segs[1..], x);
      if k !in m {
        FreshRecordWritable(segs[1..]);
      }
      assert m[k := child] == m;
    case List(items) =>
      match IndexIn(k, |items|) {
        case Some(i) =>
          SetUnwritableIsNoop(items[i], segs[1..], x);
          assert items[i := items[i]] == items;
        case None =>
      }
    case _ =>
      FreshRecordWritable(segs[1..]);
  }

  /** A write leaves every path that parts ways with it untouched. */
  lemma {:induction false} SetFrame(v: Value, p: seq<string>, q: seq<string>, x: Value)
    requires Diverge(p, q)
    ensures Get(Set(v, p, x), q) == Get(v, q)
    decreases |p|
  {
    var k := p[0];
    if k == q[0] {
      assert Diverge(p[1..], q[1..]) by {
        var i :| 0 <= i < |p| && i < |q| && p[i] != q[i];
        assert i >= 1 && p[1..][i - 1] != q[1..][i - 1];
      }
      match v
      case Record(m) =>
        SetFrame(if k in m then m[k] else Record(map[]), p[1..], q[1..], x);
        if k !in m {
          FreshGetNone(q[1..]);
        }
      case List(items) =>
        match IndexIn(k, |items|) {
          case Some(i) => SetFrame(items[i], p[1..], q[1..], x);
          case None =>
        }
      case _ =>
        SetFrame(Record(map[]), p[1..], q[1..], x);
        FreshGetNone(q[1..]);
    } else {
      match v
      case Record(m) =>
      case List(items) =>
        match (IndexIn(k, |items|), IndexIn(q[0], |items|)) {
          case (Some(i), Some(j)) => assert i != j;
          case _ =>
        }
      case _ =>
    }
  }

  lemma FreshGetNone(segs: seq<string>)
    requires segs != []
    ensures Get(Record(map[]), segs) == None
  {
  }

  /** A write at a writable path leaves that path writable. */
  lemma {:induction false} SetKeepsWritable(v: Value, segs: seq<string>, x: Value)
    requires Writable(v, segs)
    ensures Writable(Set(v, segs, x), segs)
    decreases |segs|
  {
    if segs != [] {
      var k := segs[0];
      match v
      case Record(m) =>
        SetKeepsWritable(if k in m then m[k] else Record(map[]), segs[1..], x);
      case List(items) =>
        var i := IndexIn(k, |items|).value;
        SetKeepsWritable(items[i], segs[1..], x);
      case _ =>
        SetKeepsWritable(Record(map[]), segs[1..], x);
    }
  }
}
