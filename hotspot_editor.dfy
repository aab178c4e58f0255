/**
 * The hotspot list editor of an image-hotspot document: it finds the image
 * field next to the hotspot list, appends a hotspot where the image is
 * clicked, removes one by its delete button, and numbers the markers and
 * cards it renders.
 */
module HotspotEditor {
  import opened Wrappers
  import opened Strings
  import opened Values
  import opened Paths
  import opened Lists
  import opened FormStore

  const NewHotspotTitle: string := "New Hotspot"
  const NewHotspotDescription: string := "Description here"

  /** The image field: `image` under the parent of the list, or at the root. */
  function ImagePath(path: string): string {
    var parent := ParentPath(path);
    if parent != "" then parent + ".image" else "image"
  }

  /**
   * The image path names the sibling `image` of the hotspot list: for a
   * list built as field `name` under `path`, it is exactly the path of the
   * field `image` under `path`, and it addresses the same segments.
   */
  lemma ImagePathIsSibling(path: string, name: string)
    requires IsKey(name)
    ensures ImagePath(ChildPath(path, name)) == ChildPath(path, "image")
    ensures Segments(ImagePath(ChildPath(path, name))) == Segments(path) + ["image"]
  {
    ParentOfChild(path, name);
    ChildSegments(path, "image");
  }

  /** The record a click appends, at rounded percentages of the image size. */
  function NewHotspot(x: int, y: int): (r: Value)
    ensures r.Record? && r.fields.Keys == {"x", "y", "title", "description"}
    ensures r.fields["x"] == Num(x) && r.fields["y"] == Num(y)
    ensures r.fields["title"] == Str(NewHotspotTitle)
    ensures r.fields["description"] == Str(NewHotspotDescription)
  {
    Record(map["x" := Num(x), "y" := Num(y),
               "title" := Str(NewHotspotTitle), "description" := Str(NewHotspotDescription)])
  }

  /** A numbered marker over the image, keyed by its row id. */
  datatype Marker = Marker(key: nat, number: nat, x: Option<Value>, y: Option<Value>)
  /** A numbered card of the list below the image, keyed by its row id. */
  datatype Card = Card(key: nat, number: nat)

  datatype Panel = Panel(
    imageShown: bool,
    markers: seq<Marker>,
    count: nat,
    cards: seq<Card>,
    emptyMessage: bool)

  /** The field of row `index` of the list at `path`. */
  function RowField(path: string, index: nat, key: string): string {
    path + "." + Decimal(index) + "." + key
  }

  function Markers(path: string, ids: seq<nat>, values: Value): (r: seq<Marker>)
    ensures |r| == |ids|
    ensures forall k :: 0 <= k < |r| ==> r[k].key == ids[k] && r[k].number == k + 1
  {
    seq(|ids|, k requires 0 <= k < |ids| =>
      Marker(ids[k], k + 1,
             Get(values, Segments(RowField(path, k, "x"))),
             Get(values, Segments(RowField(path, k, "y")))))
  }

  function Cards(ids: seq<nat>): (r: seq<Card>)
    ensures |r| == |ids|
    ensures forall k :: 0 <= k < |r| ==> r[k] == Card(ids[k], k + 1)
  {
    seq(|ids|, k requires 0 <= k < |ids| => Card(ids[k], k + 1))
  }

  class Editor {
    const store: Store
    /** The path of the hotspot list. */
    const path: string

    /** The hotspot list is a mounted field array at a path the document can hold. */
    ghost predicate Valid()
      reads store
    {
      store.Valid() && path in store.fieldIds && Writable(store.values, Segments(path))
    }

    /** Mounting the editor mounts the field array of the hotspot list (`useFieldArray`). */
    constructor (store: Store, path: string)
      requires store.Valid() && Writable(store.values, Segments(path))
      requires path !in store.fieldIds ==> forall q :: q in store.fieldIds ==> Diverge(Segments(q), Segments(path))
      modifies store
      ensures this.store == store && this.path == path && Valid()
      ensures store.values == old(store.values)
      ensures path in old(store.fieldIds) ==> store.fieldIds == old(store.fieldIds)
      ensures path !in old(store.fieldIds) ==>
                store.Fields(path) == Range(old(store.nextId), |ListAt(store.values, Segments(path))|)
    {
      this.store := store;
      this.path := path;
      new;
      store.MountFieldArray(path);
    }

    /** The image area is clickable only while a truthy image value is stored. */
    predicate ImageShown()
      reads store
    {
      var image := store.Watch(ImagePath(path));
      image.Some? && Truthy(image.value)
    }

    /**
     * A click on the image at rounded percentages `x`, `y`: with the image
     * shown and its element mounted, exactly one new hotspot is appended
     * at the end of the list, with a fresh row id; otherwise nothing changes.
     */
    method Click(elementMounted: bool, x: int, y: int)
      requires Valid()
      modifies store
      ensures Valid()
      ensures !(old(ImageShown()) && elementMounted) ==>
                store.values == old(store.values) && store.fieldIds == old(store.fieldIds)
                && store.nextId == old(store.nextId)
      ensures old(ImageShown()) && elementMounted ==>
                && store.values == Set(old(store.values), Segments(path),
                                       List(ListAt(old(store.values), Segments(path)) + [NewHotspot(x, y)]))
                && store.Fields(path) == old(store.Fields(path)) + [old(store.nextId)]
                && ListAt(store.values, Segments(path)) == ListAt(old(store.values), Segments(path)) + [NewHotspot(x, y)]
                && store.fieldIds == old(store.fieldIds)[path := old(store.Fields(path)) + [old(store.nextId)]]
                && store.nextId == old(store.nextId) + 1
      ensures forall q :: q != path ==> store.Fields(q) == old(store.Fields(q))
    {
      if ImageShown() && elementMounted {
        SetKeepsWritable(store.values, Segments(path), List(ListAt(store.values, Segments(path)) + [NewHotspot(x, y)]));
        store.Append(path, NewHotspot(x, y));
      }
    }

    /** The delete button of row `index`: that hotspot goes, the others keep their order and ids. */
    method Delete(index: nat)
      requires Valid()
      modifies store
      ensures Valid()
      ensures store.values == Set(old(store.values), Segments(path),
                                  List(Removed(ListAt(old(store.values), Segments(path)), index)))
      ensures ListAt(store.values, Segments(path)) == Removed(ListAt(old(store.values), Segments(path)), index)
      ensures store.Fields(path) == Removed(old(store.Fields(path)), index)
      ensures store.fieldIds == old(store.fieldIds)[path := Removed(old(store.Fields(path)), index)]
      ensures forall q :: q != path ==> store.Fields(q) == old(store.Fields(q))
      ensures store.nextId == old(store.nextId)
    {
      SetKeepsWritable(store.values, Segments(path), List(Removed(ListAt(store.values, Segments(path)), index)));
      store.Remove(path, index);
    }

    /**
     * What the editor renders: markers over the image only while it is
     * shown, one card per row, the row count in the list heading, and the
     * empty-list message exactly when there are no rows.
     */
    function Display(): (p: Panel)
      reads store
      ensures p.imageShown == ImageShown()
      ensures p.count == |store.Fields(path)| == |p.cards|
      ensures forall k :: 0 <= k < |p.cards| ==> p.cards[k].number == k + 1
      ensures p.imageShown ==> |p.markers| == p.count
                               && forall k :: 0 <= k < |p.markers| ==> p.markers[k].number == k + 1
      ensures !p.imageShown ==> p.markers == []
      ensures p.emptyMessage <==> p.count == 0
    {
      var ids := store.Fields(path);
      Panel(ImageShown(),
            if ImageShown() then Markers(path, ids, store.values) else [],
            |ids|,
            Cards(ids),
            |ids| == 0)
    }

    /** Cards are keyed by distinct row ids, so every card keeps its own key across edits. */
    lemma CardKeysDistinct()
      requires Valid()
      ensures forall i, j :: 0 <= i < j < |Display().cards| ==> Display().cards[i].key != Display().cards[j].key
    {
      var ids := store.Fields(path);
      if path in store.fieldIds {
        assert Distinct(store.fieldIds[path]);
      }
      assert Distinct(ids);
    }
  
    /**
     * The count in the list heading, the cards and the markers all follow
     * the stored hotspots: one per element of the list at `path`.
     */
    lemma CountMatchesList()
      requires Valid()
      ensures Display().count == |ListAt(store.values, Segments(path))| == |Display().cards|
      ensures ImageShown() ==> |Display().markers| == |ListAt(store.values, Segments(path))|
    {
      assert store.Fields(path) == store.fieldIds[path];
    }
  }
}
