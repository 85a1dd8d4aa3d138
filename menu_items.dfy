/**
 * The menu-item dashboard (src/pages/dashboard/MenuItems.jsx): the item
 * dialog's form state and the tag checkboxes.
 */
module MenuItems {
  import opened Wrappers
  import Seqs

  datatype Category = Category(id: string, name: string)
  datatype Tag = Tag(id: string, name: string)

  /** A menu item as the server returns it, with category and tags populated (either may be absent). */
  datatype MenuItem = MenuItem(
    id: string,
    title: string,
    description: string,
    price: real,
    image: string,
    category: Option<Category>,
    tags: Option<seq<Tag>>)

  /** The dialog's form: the price as text, the category and tags as ids. */
  datatype ItemForm = ItemForm(
    title: string,
    description: string,
    price: string,
    image: string,
    category: string,
    tags: seq<string>)

  const EmptyForm := ItemForm("", "", "", "", "", [])

  /** The dialog: whether it is open, the item being edited (none when creating), and the form. */
  datatype Dialog = Dialog(isOpen: bool, selectedItem: Option<MenuItem>, formData: ItemForm)

  /** `tags.filter(id => id !== tagId)`. */
  function RemoveAll(tags: seq<string>, tagId: string): (r: seq<string>)
    ensures forall t :: t in r <==> t in tags && t != tagId
    ensures tagId !in tags ==> r == tags
  {
    if tags == [] then []
    else if tags[0] == tagId then RemoveAll(tags[1..], tagId)
    else [tags[0]] + RemoveAll(tags[1..], tagId)
  }

  /** `handleTagToggle`: a selected tag is unselected (every occurrence), another is appended. */
  function TagToggle(tags: seq<string>, tagId: string): (r: seq<string>)
    ensures tagId in tags ==> r == RemoveAll(tags, tagId)
    ensures tagId !in tags ==> r == tags + [tagId]
  {
    if tagId in tags then RemoveAll(tags, tagId) else tags + [tagId]
  }

  /** Toggling flips whether the tag is selected and leaves every other tag as it was. */
  lemma ToggleFlipsMembership(tags: seq<string>, tagId: string)
    ensures tagId in TagToggle(tags, tagId) <==> tagId !in tags
    ensures forall t :: t != tagId ==> (t in TagToggle(tags, tagId) <==> t in tags)
  {
  }

  /** Toggling a tag that was not selected twice gives back the original list. */
  lemma {:induction false} ToggleTwiceRestores(tags: seq<string>, tagId: string)
    requires tagId !in tags
    ensures TagToggle(TagToggle(tags, tagId), tagId) == tags
  {
    RemoveAppended(tags, tagId);
  }

  /** Removing a tag that occurs only as the appended last element gives back the list before it. */
  lemma {:induction false} RemoveAppended(tags: seq<string>, tagId: string)
    requires tagId !in tags
    ensures RemoveAll(tags + [tagId], tagId) == tags
    decreases |tags|
  {
    if tags == [] {
      assert [tagId][1..] == [];
    } else {
      assert (tags + [tagId])[1..] == tags[1..] + [tagId];
      RemoveAppended(tags[1..], tagId);
      assert tags == [tags[0]] + tags[1..];
    }
  }

  predicate Distinct(tags: seq<string>) {
    forall i, j :: 0 <= i < j < |tags| ==> tags[i] != tags[j]
  }

  /** The selected tags never hold a duplicate once they held none. */
  lemma ToggleKeepsDistinct(tags: seq<string>, tagId: string)
    requires Distinct(tags)
    ensures Distinct(TagToggle(tags, tagId))
  {
    if tagId in tags {
      RemoveAllKeepsDistinct(tags, tagId);
    } else {
      var r := tags + [tagId];
      assert forall i :: 0 <= i < |tags| ==> r[i] == tags[i];
    }
  }

  lemma {:induction false} RemoveAllKeepsDistinct(tags: seq<string>, tagId: string)
    requires Distinct(tags)
    ensures Distinct(RemoveAll(tags, tagId))
    decreases |tags|
  {
    if tags != [] {
      assert Distinct(tags[1..]);
      RemoveAllKeepsDistinct(tags[1..], tagId);
      var rest := RemoveAll(tags[1..], tagId);
      assert tags[0] !in tags[1..];
      if tags[0] != tagId {
        var r := [tags[0]] + rest;
        assert forall j :: 1 <= j < |r| ==> r[j] == rest[j - 1] && r[j] in rest;
      }
    }
  }

  /** `tags.map(tag => tag._id)`. */
  function TagIds(tags: seq<Tag>): seq<string> {
    Seqs.Map(tags, (t: Tag) => t.id)
  }

  /**
   * `openModal(item)`: editing an item fills the form from it (category and
   * tags as ids, missing ones empty, the price through `toString`); creating
   * one starts from the empty form. Either way the dialog opens.
   */
  function OpenModal(item: Option<MenuItem>, priceToString: real -> string): (d: Dialog)
    ensures d.isOpen && d.selectedItem == item
    ensures item.None? ==> d.formData == EmptyForm
    ensures item.Some? ==>
      var i := item.value;
      d.formData.title == i.title && d.formData.description == i.description
      && d.formData.image == i.image && d.formData.price == priceToString(i.price)
      && d.formData.category == (if i.category.Some? then i.category.value.id else "")
      && d.formData.tags == (if i.tags.Some? then TagIds(i.tags.value) else [])
  {
    match item
    case None => Dialog(true, None, EmptyForm)
    case Some(i) =>
      var category := match i.category case Some(c) => c.id case None => "";
      var tags := match i.tags case Some(ts) => TagIds(ts) case None => [];
      Dialog(true, item, ItemForm(i.title, i.description, priceToString(i.price), i.image, category, tags))
  }

  /** `closeModal`: closed, nothing selected, the form emptied. */
  function CloseModal(d: Dialog): (r: Dialog)
    ensures !r.isOpen && r.selectedItem.None? && r.formData == EmptyForm
  {
    Dialog(false, None, EmptyForm)
  }

  /** Closing the dialog leaves the form that creating a new item starts from. */
  lemma CloseThenCreateStartsEmpty(d: Dialog, priceToString: real -> string)
    ensures OpenModal(None, priceToString).formData == CloseModal(d).formData
  {
  }
}
