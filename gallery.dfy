/**
 * The gallery dashboard (src/pages/dashboard/Gallery.jsx): reordering images
 * by drag and drop, the id list sent to the server, and the edit dialog's
 * initial values. The request itself, and the refetch when it fails, are not
 * part of this model.
 */
module Gallery {
  import opened Wrappers
  import Seqs

  /** An image of the gallery; a missing or null title or description is `None`. */
  datatype Image = Image(id: string, url: string, title: Option<string>, description: Option<string>)

  /** The list with the element at `source` taken out and put back in at `destination`. */
  function Moved<T>(s: seq<T>, source: nat, destination: nat): seq<T>
    requires source < |s| && destination < |s|
  {
    var rest := s[..source] + s[source + 1..];
    rest[..destination] + [s[source]] + rest[destination..]
  }

  /**
   * The two `splice` calls of `handleDragEnd` on a copy of the list: remove
   * the dragged image, then insert it at the drop position.
   */
  method Reorder<T>(images: seq<T>, source: nat, destination: nat) returns (items: seq<T>)
    requires source < |images| && destination < |images|
    ensures items == Moved(images, source, destination)
    ensures |items| == |images| && multiset(items) == multiset(images)
    ensures items[destination] == images[source]
  {
    items := images;
    var reorderedItem := items[source];
    items := items[..source] + items[source + 1..];
    items := items[..destination] + [reorderedItem] + items[destination..];
    MovedIsPermutation(images, source, destination);
  }

  /** Moving keeps the length and the multiset of elements: it is a permutation. */
  lemma MovedIsPermutation<T>(s: seq<T>, source: nat, destination: nat)
    requires source < |s| && destination < |s|
    ensures |Moved(s, source, destination)| == |s|
    ensures multiset(Moved(s, source, destination)) == multiset(s)
  {
    var rest := s[..source] + s[source + 1..];
    assert s == s[..source] + [s[source]] + s[source + 1..];
    assert multiset(s) == multiset(s[..source]) + multiset([s[source]]) + multiset(s[source + 1..]);
    assert multiset(rest) == multiset(s[..source]) + multiset(s[source + 1..]);
    assert rest == rest[..destination] + rest[destination..];
    assert multiset(rest) == multiset(rest[..destination]) + multiset(rest[destination..]);
    var m := Moved(s, source, destination);
    assert m == rest[..destination] + [s[source]] + rest[destination..];
    assert multiset(m) == multiset(rest[..destination]) + multiset([s[source]]) + multiset(rest[destination..]);
    assert multiset(m) == multiset(rest) + multiset([s[source]]);
    assert multiset(s) == multiset(rest) + multiset([s[source]]);
  }

  /** The dragged element ends at the drop position. */
  lemma MovedLandsAtDestination<T>(s: seq<T>, source: nat, destination: nat)
    requires source < |s| && destination < |s|
    ensures Moved(s, source, destination)[destination] == s[source]
  {
  }

  /** `filter((_, index) => index !== k)` on positions: the list without position `k`. */
  function Without<T>(s: seq<T>, k: nat): seq<T>
    requires k < |s|
  {
    s[..k] + s[k + 1..]
  }

  /**
   * Every other element keeps its relative order: taking the moved element
   * out again gives the original list without it.
   */
  lemma MovedKeepsOthersInOrder<T>(s: seq<T>, source: nat, destination: nat)
    requires source < |s| && destination < |s|
    ensures Without(Moved(s, source, destination), destination) == Without(s, source)
  {
    var rest := s[..source] + s[source + 1..];
    var m := Moved(s, source, destination);
    assert m[..destination] == rest[..destination];
    assert m[destination + 1..] == rest[destination..];
  }

  /** Dropping an image where it was picked up changes nothing. */
  lemma MoveInPlaceIsIdentity<T>(s: seq<T>, k: nat)
    requires k < |s|
    ensures Moved(s, k, k) == s
  {
    var rest := s[..k] + s[k + 1..];
    assert rest[..k] == s[..k];
    assert rest[k..] == s[k + 1..];
  }

  /** Dragging the image back from where it landed to where it was restores the order. */
  lemma MoveBackRestores<T>(s: seq<T>, source: nat, destination: nat)
    requires source < |s| && destination < |s|
    ensures Moved(Moved(s, source, destination), destination, source) == s
  {
    var m := Moved(s, source, destination);
    MovedIsPermutation(s, source, destination);
    MovedKeepsOthersInOrder(s, source, destination);
    var rest := Without(s, source);
    assert Without(m, destination) == rest;
    assert m[destination] == s[source];
    var back := Moved(m, destination, source);
    assert back == rest[..source] + [s[source]] + rest[source..];
    assert rest[..source] == s[..source];
    assert rest[source..] == s[source + 1..];
  }

  /** The body of the reorder request: `items.map(img => img._id)`. */
  function ImageIds(images: seq<Image>): seq<string> {
    Seqs.Map(images, (i: Image) => i.id)
  }

  /**
   * `handleDragEnd`: a drop outside the list changes nothing and sends
   * nothing; otherwise the list is reordered at once and its ids are sent.
   */
  method HandleDragEnd(images: seq<Image>, source: nat, destination: Option<nat>)
    returns (items: seq<Image>, request: Option<seq<string>>)
    requires source < |images|
    requires destination.Some? ==> destination.value < |images|
    ensures destination.None? ==> items == images && request == None
    ensures destination.Some? ==>
      items == Moved(images, source, destination.value) && request == Some(ImageIds(items))
  {
    if destination.None? {
      return images, None;
    }
    items := Reorder(images, source, destination.value);
    request := Some(ImageIds(items));
  }

  /** The edit dialog's fields. */
  datatype EditForm = EditForm(title: string, description: string)

  /** `openEditModal`: the image's title and description, or empty text where it has none. */
  function OpenEditModal(image: Image): (f: EditForm)
    ensures f.title == if image.title.Some? then image.title.value else ""
    ensures f.description == if image.description.Some? then image.description.value else ""
  {
    EditForm(image.title.GetOr(""), image.description.GetOr(""))
  }
}
