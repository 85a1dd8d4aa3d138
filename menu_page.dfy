/**
 * The public menu page (src/pages/Menu.jsx): the active menu's items, the
 * category buttons built from them, and the category filter.
 */
module MenuPage {
  import opened Wrappers

  /**
   * A populated category. Two categories are the same when the whole
   * records are equal, as their `JSON.stringify` texts are.
   */
  datatype Category = Category(id: string, title: string)

  datatype Item = Item(id: string, title: string, category: Option<Category>)

  datatype Menu = Menu(id: string, title: string, description: string, menuItems: Option<seq<Item>>)

  /** `menus.find(menu => menu._id === activeMenu)`; no active menu (null) matches nothing. */
  function FindMenu(menus: seq<Menu>, activeMenu: Option<string>): (r: Option<Menu>)
    ensures r.Some? ==> r.value in menus && activeMenu == Some(r.value.id)
    ensures r.None? <==> activeMenu.None? || forall k :: 0 <= k < |menus| ==> menus[k].id != activeMenu.value
  {
    if activeMenu.None? || menus == [] then None
    else if menus[0].id == activeMenu.value then Some(menus[0])
    else
      assert forall k :: 1 <= k < |menus| ==> menus[k] == menus[1..][k - 1];
      FindMenu(menus[1..], activeMenu)
  }

  /** `getCurrentMenuItems`: the active menu's items, or none. */
  function CurrentMenuItems(menus: seq<Menu>, activeMenu: Option<string>): seq<Item> {
    match FindMenu(menus, activeMenu)
    case Some(m) => m.menuItems.GetOr([])
    case None => []
  }

  predicate InCategory(item: Item, activeCategory: string) {
    item.category.Some? && item.category.value.id == activeCategory
  }

  /** `filteredItems`: everything for "all", otherwise the items of that category, in order. */
  function FilteredItems(items: seq<Item>, activeCategory: string): (r: seq<Item>)
    ensures activeCategory == "all" ==> r == items
    ensures activeCategory != "all" ==> forall x :: x in r <==> x in items && InCategory(x, activeCategory)
    ensures |r| <= |items|
  {
    if activeCategory == "all" || items == [] then items
    else
      var rest := FilteredItems(items[1..], activeCategory);
      assert items == [items[0]] + items[1..];
      if InCategory(items[0], activeCategory) then [items[0]] + rest else rest
  }

  /** The filter keeps the items' order: it distributes over concatenation. */
  lemma {:induction false} FilterAppend(a: seq<Item>, b: seq<Item>, activeCategory: string)
    ensures FilteredItems(a + b, activeCategory) == FilteredItems(a, activeCategory) + FilteredItems(b, activeCategory)
    decreases |a|
  {
    if activeCategory != "all" {
      if a != [] {
        assert (a + b)[1..] == a[1..] + b;
        FilterAppend(a[1..], b, activeCategory);
      } else {
        assert a + b == b;
      }
    }
  }

  // ---------------------------------------------------------------------
  // The category buttons
  // ---------------------------------------------------------------------

  /** The categories of the items, in item order, skipping items without one. */
  function CategoriesOf(items: seq<Item>): seq<Category> {
    if items == [] then []
    else
      var last := items[|items| - 1];
      CategoriesOf(items[..|items| - 1]) + (if last.category.Some? then [last.category.value] else [])
  }

  /** The sequence with every element after its first occurrence dropped. */
  function Dedup(s: seq<Category>): seq<Category> {
    if s == [] then []
    else
      var d := Dedup(s[..|s| - 1]);
      if s[|s| - 1] in d then d else d + [s[|s| - 1]]
  }

  predicate NoDuplicates(s: seq<Category>) {
    forall i, j :: 0 <= i < j < |s| ==> s[i] != s[j]
  }

  /** Dedup keeps exactly the elements of its input, each once. */
  lemma {:induction false} DedupExact(s: seq<Category>)
    ensures NoDuplicates(Dedup(s))
    ensures forall c :: c in Dedup(s) <==> c in s
  {
    if s != [] {
      var p := s[..|s| - 1];
      DedupExact(p);
      assert s == p + [s[|s| - 1]];
      var d := Dedup(p);
      if s[|s| - 1] !in d {
        var e := d + [s[|s| - 1]];
        assert forall i :: 0 <= i < |d| ==> e[i] == d[i];
      }
    }
  }

  /** Dedup of a prefix is a prefix of Dedup: categories appear in the order of their first occurrence. */
  lemma {:induction false} DedupPrefix(s: seq<Category>, k: nat)
    requires k <= |s|
    ensures var a, b := Dedup(s[..k]), Dedup(s); |a| <= |b| && b[..|a|] == a
    decreases |s| - k
  {
    if k < |s| {
      var p := s[..|s| - 1];
      assert p[..k] == s[..k];
      DedupPrefix(p, k);
      assert s[..|s|] == s;
    } else {
      assert s[..k] == s;
    }
  }

  /**
   * `getUniqueCategories`: walk the active menu's items, adding each present
   * category to a set that keeps insertion order.
   */
  method UniqueCategories(menus: seq<Menu>, activeMenu: Option<string>) returns (categories: seq<Category>)
    ensures categories == Dedup(CategoriesOf(CurrentMenuItems(menus, activeMenu)))
    ensures FindMenu(menus, activeMenu).None? ==> categories == []
  {
    var currentMenu := FindMenu(menus, activeMenu);
    if currentMenu.None? || currentMenu.value.menuItems.None? {
      return [];
    }
    var items := currentMenu.value.menuItems.value;
    var seen: set<Category> := {};
    categories := [];
    for i := 0 to |items|
      invariant categories == Dedup(CategoriesOf(items[..i]))
      invariant forall c :: c in seen <==> c in categories
    {
      UniqueCategoriesStep(items, i);
      var item := items[i];
      if item.category.Some? && item.category.value !in seen {
        seen := seen + {item.category.value};
        categories := categories + [item.category.value];
      }
    }
    assert items[..|items|] == items;
  }

  /** One item of the walk: its category is appended when it has one not seen before. */
  lemma UniqueCategoriesStep(items: seq<Item>, i: nat)
    requires i < |items|
    ensures var before := Dedup(CategoriesOf(items[..i]));
            Dedup(CategoriesOf(items[..i + 1]))
            == if items[i].category.Some? && items[i].category.value !in before
               then before + [items[i].category.value] else before
  {
    var p := items[..i + 1];
    assert p[..i] == items[..i];
    assert p[i] == items[i];
    var cs := CategoriesOf(p);
    if items[i].category.Some? {
      assert cs == CategoriesOf(items[..i]) + [items[i].category.value];
      assert cs[..|cs| - 1] == CategoriesOf(items[..i]);
    } else {
      assert cs == CategoriesOf(items[..i]);
    }
  }

  /** Every button is the category of some item of the active menu, and every item's category has a button, once. */
  lemma UniqueCategoriesExact(items: seq<Item>, c: Category)
    ensures NoDuplicates(Dedup(CategoriesOf(items)))
    ensures c in Dedup(CategoriesOf(items)) <==> exists k :: 0 <= k < |items| && items[k].category == Some(c)
  {
    DedupExact(CategoriesOf(items));
    CategoriesOfExact(items, c);
  }

  lemma {:induction false} CategoriesOfExact(items: seq<Item>, c: Category)
    ensures c in CategoriesOf(items) <==> exists k :: 0 <= k < |items| && items[k].category == Some(c)
  {
    if items != [] {
      var p := items[..|items| - 1];
      CategoriesOfExact(p, c);
      assert forall k :: 0 <= k < |p| ==> p[k] == items[k];
    }
  }

  // ---------------------------------------------------------------------
  // Page state
  // ---------------------------------------------------------------------

  datatype PageState = PageState(menus: seq<Menu>, activeMenu: Option<string>, activeCategory: string)

  /** After loading: the first menu is active, and the category filter shows everything. */
  function Loaded(menus: seq<Menu>): (s: PageState)
    ensures s.menus == menus && s.activeCategory == "all"
    ensures s.activeMenu == if menus == [] then None else Some(menus[0].id)
  {
    PageState(menus, if menus == [] then None else Some(menus[0].id), "all")
  }

  /** A menu button: that menu becomes active and the category filter is reset. */
  function SelectMenu(s: PageState, menuId: string): (r: PageState)
    ensures r == s.(activeMenu := Some(menuId), activeCategory := "all")
  {
    s.(activeMenu := Some(menuId), activeCategory := "all")
  }

  /** After switching menus, the page lists every item of the new menu. */
  lemma SelectMenuShowsAll(s: PageState, menuId: string)
    ensures var r := SelectMenu(s, menuId);
            FilteredItems(CurrentMenuItems(r.menus, r.activeMenu), r.activeCategory)
            == CurrentMenuItems(r.menus, Some(menuId))
  {
  }

  /** A category button: the filter switches to that category; the menu stays. */
  function SelectCategory(s: PageState, categoryId: string): (r: PageState)
    ensures r.menus == s.menus && r.activeMenu == s.activeMenu && r.activeCategory == categoryId
  {
    s.(activeCategory := categoryId)
  }

  /**
   * A category button never leads to an empty list: its category was taken
   * from an item of the active menu, and that item passes the filter.
   */
  lemma CategoryButtonListsItems(s: PageState, c: Category)
    requires c in Dedup(CategoriesOf(CurrentMenuItems(s.menus, s.activeMenu))) && c.id != "all"
    ensures var r := SelectCategory(s, c.id);
            FilteredItems(CurrentMenuItems(r.menus, r.activeMenu), r.activeCategory) != []
  {
    var items := CurrentMenuItems(s.menus, s.activeMenu);
    UniqueCategoriesExact(items, c);
    var k :| 0 <= k < |items| && items[k].category == Some(c);
    assert InCategory(items[k], c.id);
    assert items[k] in FilteredItems(items, c.id);
  }

  /** With no matching menu, the page lists no items. */
  lemma NoMenuNoItems(menus: seq<Menu>, activeMenu: Option<string>, activeCategory: string)
    requires FindMenu(menus, activeMenu).None?
    ensures CurrentMenuItems(menus, activeMenu) == [] && FilteredItems([], activeCategory) == []
  {
  }
}
