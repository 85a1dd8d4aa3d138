/**
 * The menus dashboard (src/pages/dashboard/Menus.jsx): the "Manage Menu
 * Items" dialog that splits all menu items into those available to add and
 * those already on the selected menu, the list update after an add or a
 * removal, and the menu dialog's form state. The requests themselves are
 * parameters: the server's answer is the updated menu.
 */
module Menus {
  import opened Wrappers

  /** An entry of a menu's item list: a populated item (by its `_id`) or a bare id. */
  datatype MenuRef = Populated(itemId: string) | RawId(rawId: string)

  datatype MenuItem = MenuItem(id: string, title: string)

  datatype Menu = Menu(
    id: string,
    title: string,
    description: string,
    image: Option<string>,
    menuItems: Option<seq<MenuRef>>)

  /**
   * `(menuItem._id || menuItem) === item._id`: a populated entry matches by
   * its id (an empty id falls back to the object itself, which equals no
   * id); a bare id matches itself.
   */
  predicate RefMatches(ref: MenuRef, itemId: string) {
    match ref
    case Populated(id) => id != "" && id == itemId
    case RawId(id) => id == itemId
  }

  /** `selectedMenu?.menuItems?.some(...)`: false when there is no menu or it has no item list. */
  predicate OnMenu(selected: Option<Menu>, itemId: string) {
    selected.Some? && selected.value.menuItems.Some?
    && exists k :: 0 <= k < |selected.value.menuItems.value| && RefMatches(selected.value.menuItems.value[k], itemId)
  }

  /** The items whose presence on the selected menu is `onMenu`, in their order. */
  function Select(items: seq<MenuItem>, selected: Option<Menu>, onMenu: bool): (r: seq<MenuItem>)
    ensures |r| <= |items|
  {
    if items == [] then []
    else
      var rest := Select(items[1..], selected, onMenu);
      if OnMenu(selected, items[0].id) == onMenu then [items[0]] + rest else rest
  }

  /** Select keeps exactly the items whose presence on the menu is `onMenu`. */
  lemma {:induction false} SelectExact(items: seq<MenuItem>, selected: Option<Menu>, onMenu: bool)
    ensures forall x :: x in Select(items, selected, onMenu) <==> x in items && OnMenu(selected, x.id) == onMenu
    decreases |items|
  {
    if items != [] {
      SelectExact(items[1..], selected, onMenu);
      assert items == [items[0]] + items[1..];
    }
  }

  /** "Available Items": the items not on the selected menu. */
  function Available(items: seq<MenuItem>, selected: Option<Menu>): seq<MenuItem> {
    Select(items, selected, false)
  }

  /** "Current Menu Items": the items on the selected menu. */
  function Current(items: seq<MenuItem>, selected: Option<Menu>): seq<MenuItem> {
    Select(items, selected, true)
  }

  /** Every item is listed in exactly one of the two lists, and the two together have all of them. */
  lemma {:induction false} Partition(items: seq<MenuItem>, selected: Option<Menu>)
    ensures forall x :: x in items ==> (x in Available(items, selected) <==> x !in Current(items, selected))
    ensures |Available(items, selected)| + |Current(items, selected)| == |items|
    decreases |items|
  {
    SelectExact(items, selected, false);
    SelectExact(items, selected, true);
    if items != [] {
      Partition(items[1..], selected);
    }
  }

  /** Both lists keep the order of all items: selecting distributes over concatenation. */
  lemma {:induction false} SelectAppend(a: seq<MenuItem>, b: seq<MenuItem>, selected: Option<Menu>, onMenu: bool)
    ensures Select(a + b, selected, onMenu) == Select(a, selected, onMenu) + Select(b, selected, onMenu)
    decreases |a|
  {
    if a != [] {
      assert (a + b)[0] == a[0];
      assert (a + b)[1..] == a[1..] + b;
      SelectAppend(a[1..], b, selected, onMenu);
      var x, y := Select(a[1..], selected, onMenu), Select(b, selected, onMenu);
      assert [a[0]] + x + y == [a[0]] + (x + y);
    } else {
      assert a + b == b;
    }
  }

  /** With no menu selected every item is available and none is current. */
  lemma {:induction false} NoMenuSelected(items: seq<MenuItem>)
    ensures Available(items, None) == items && Current(items, None) == []
    decreases |items|
  {
    if items != [] {
      NoMenuSelected(items[1..]);
      assert items == [items[0]] + items[1..];
    }
  }

  /** `menus.map(menu => menu._id === id ? updatedMenu : menu)`. */
  function ReplaceMenu(menus: seq<Menu>, id: string, updatedMenu: Menu): (r: seq<Menu>)
    ensures |r| == |menus|
    ensures forall k :: 0 <= k < |r| ==> r[k] == if menus[k].id == id then updatedMenu else menus[k]
  {
    seq(|menus|, k requires 0 <= k < |menus| => if menus[k].id == id then updatedMenu else menus[k])
  }

  /** The page state the dialog works on. */
  datatype Page = Page(menus: seq<Menu>, selectedMenu: Option<Menu>)

  /**
   * The add and remove handlers as written: the list of menus gets the
   * server's updated menu, but the selected menu the dialog's two lists are
   * computed from is left as it was.
   */
  function MenuItemChangedAsWritten(page: Page, updatedMenu: Menu): (r: Page)
    requires page.selectedMenu.Some?
    ensures r.menus == ReplaceMenu(page.menus, page.selectedMenu.value.id, updatedMenu)
    ensures r.selectedMenu == page.selectedMenu
  {
    page.(menus := ReplaceMenu(page.menus, page.selectedMenu.value.id, updatedMenu))
  }

  /** The handlers with the selected menu refreshed as well. */
  function MenuItemChanged(page: Page, updatedMenu: Menu): (r: Page)
    requires page.selectedMenu.Some?
    ensures r.menus == ReplaceMenu(page.menus, page.selectedMenu.value.id, updatedMenu)
    ensures r.selectedMenu == Some(updatedMenu)
  {
    Page(ReplaceMenu(page.menus, page.selectedMenu.value.id, updatedMenu), Some(updatedMenu))
  }

  /**
   * As written, an item just added by the server is still offered under
   * "Available Items" and missing from "Current Menu Items" until the
   * dialog is opened again.
   */
  lemma AddedItemStaysAvailable()
    ensures var item := MenuItem("i", "Soup");
            var menu := Menu("m", "Lunch", "", None, Some([]));
            var updated := menu.(menuItems := Some([RawId("i")]));
            var page := MenuItemChangedAsWritten(Page([menu], Some(menu)), updated);
            page.menus == [updated]
            && Available([item], page.selectedMenu) == [item] && Current([item], page.selectedMenu) == []
  {
    var menu := Menu("m", "Lunch", "", None, Some([]));
    var updated := menu.(menuItems := Some([RawId("i")]));
    assert ReplaceMenu([menu], "m", updated)[0] == updated;
    assert [MenuItem("i", "Soup")][1..] == [];
  }

  /**
   * With the selected menu refreshed, the dialog's lists follow the server's
   * answer: an item the updated menu lists is current and not available, and
   * one it does not list is available and not current.
   */
  lemma ListsFollowUpdate(page: Page, updatedMenu: Menu, items: seq<MenuItem>, item: MenuItem)
    requires page.selectedMenu.Some? && item in items
    ensures var r := MenuItemChanged(page, updatedMenu);
            (item in Current(items, r.selectedMenu) <==> OnMenu(Some(updatedMenu), item.id))
            && (item in Available(items, r.selectedMenu) <==> !OnMenu(Some(updatedMenu), item.id))
  {
    SelectExact(items, Some(updatedMenu), false);
    SelectExact(items, Some(updatedMenu), true);
  }

  /** Only the selected menu is replaced: every other menu and the number of menus stay. */
  lemma OthersUnchanged(page: Page, updatedMenu: Menu, k: nat)
    requires page.selectedMenu.Some? && k < |page.menus| && page.menus[k].id != page.selectedMenu.value.id
    ensures |MenuItemChanged(page, updatedMenu).menus| == |page.menus|
    ensures MenuItemChanged(page, updatedMenu).menus[k] == page.menus[k]
  {
  }

  /** The menu dialog's form. */
  datatype MenuForm = MenuForm(title: string, description: string, image: string, menuItems: seq<MenuRef>)

  const EmptyMenuForm := MenuForm("", "", "", [])

  /** `openModal(menu)`: a missing image reads as empty text and a missing item list as `[]`. */
  function OpenModal(menu: Option<Menu>): (r: (MenuForm, Option<Menu>))
    ensures r.1 == menu
    ensures menu.None? ==> r.0 == EmptyMenuForm
    ensures menu.Some? ==>
      r.0.title == menu.value.title && r.0.description == menu.value.description
      && r.0.image == (if menu.value.image.Some? then menu.value.image.value else "")
      && r.0.menuItems == (if menu.value.menuItems.Some? then menu.value.menuItems.value else [])
  {
    match menu
    case None => (EmptyMenuForm, None)
    case Some(m) => (MenuForm(m.title, m.description, m.image.GetOr(""), m.menuItems.GetOr([])), menu)
  }

  /** `closeModal`: the form emptied and no menu selected. */
  function CloseModal(): (r: (MenuForm, Option<Menu>))
    ensures r.0 == EmptyMenuForm && r.1.None?
  {
    (EmptyMenuForm, None)
  }
}
