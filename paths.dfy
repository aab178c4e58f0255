/**
 * Dotted field paths as the form engine builds them
 * (app/components/editor/FormBuilder.tsx) and as its form-state library
 * reads them: the library splits on '.' and ignores empty pieces.
 */
module Paths {
  import opened Strings

  /** A key that can stand as one path segment. */
  predicate IsKey(k: string) {
    k != "" && '.' !in k
  }

  /** The segments a path addresses: split on '.', empty pieces dropped. */
  function Compact(xs: seq<string>): (r: seq<string>)
    ensures forall i :: 0 <= i < |r| ==> r[i] != ""
    ensures |r| <= |xs|
    decreases |xs|
  {
    if xs == [] then []
    else if xs[0] == "" then Compact(xs[1..])
    else [xs[0]] + Compact(xs[1..])
  }

  function Segments(path: string): seq<string> {
    Compact(Split(path, '.'))
  }

  /** The path of field `key` under `path` (the root path is ""). */
  function ChildPath(path: string, key: string): string {
    if path == "" then key else path + "." + key
  }

  /** `path.split('.').slice(0, -1).join('.')`. */
  function ParentPath(path: string): string {
    var parts := Split(path, '.');
    Join(parts[..|parts| - 1], '.')
  }

  /** `${parentPath}.${key}`: no special case for the root. */
  function SiblingPath(path: string, key: string): string {
    ParentPath(path) + "." + key
  }

  lemma {:induction false} CompactAppend(a: seq<string>, b: seq<string>)
    ensures Compact(a + b) == Compact(a) + Compact(b)
    decreases |a|
  {
    if a == [] {
      assert a + b == b;
    } else {
      assert (a + b)[0] == a[0];
      assert (a + b)[1..] == a[1..] + b;
      CompactAppend(a[1..], b);
    }
  }

  lemma CompactKey(k: string)
    requires k != ""
    ensures Compact([k]) == [k]
  {
  }

  /** Descending into a field appends exactly its key to the segments. */
  lemma ChildSegments(path: string, key: string)
    requires IsKey(key)
    ensures Segments(ChildPath(path, key)) == Segments(path) + [key]
  {
    SplitFree(key, '.');
    if path == "" {
      assert Split(path, '.') == [""];
    } else {
      SplitAround(path, key, '.');
      assert path + "." + key == path + ['.'] + key;
      CompactAppend(Split(path, '.'), [key]);
    }
  }

  /** The parent of a child path is the path it was built from. */
  lemma ParentOfChild(path: string, key: string)
    requires '.' !in key
    ensures ParentPath(ChildPath(path, key)) == path
  {
    SplitFree(key, '.');
    if path == "" {
    } else {
      SplitAround(path, key, '.');
      assert path + "." + key == path + ['.'] + key;
      var parts := Split(path, '.') + [key];
      assert parts[..|parts| - 1] == Split(path, '.');
      JoinSplit(path, '.');
    }
  }

  /**
   * The sibling path of a field built under `path` addresses the same
   * segments as the field `key` under `path`, also at the root, where the
   * sibling path starts with a '.'.
   */
  lemma SiblingOfChild(path: string, name: string, key: string)
    requires '.' !in name && IsKey(key)
    ensures Segments(SiblingPath(ChildPath(path, name), key)) == Segments(ChildPath(path, key))
  {
    ParentOfChild(path, name);
    SplitFree(key, '.');
    SplitAround(path, key, '.');
    assert path + "." + key == path + ['.'] + key;
    CompactAppend(Split(path, '.'), [key]);
    ChildSegments(path, key);
    if path == "" {
      assert Split(path, '.') == [""];
    }
  }
}
