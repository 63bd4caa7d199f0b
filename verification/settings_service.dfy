/**
 * The in-memory mock `SettingsService`: three tables (banners, static pages,
 * menu items) read by `get*`, appended to by `create*`, patched in place by
 * `update*` and filtered by `delete*`. The new id that `create*` takes from
 * the clock is a parameter here.
 */
module SettingsService {
  import opened Wrappers

  // ---------------------------------------------------------------------
  // Records and patches
  // ---------------------------------------------------------------------

  datatype Banner = Banner(
    id: int, title: string, imageUrl: string, linkUrl: Option<string>,
    description: Option<string>, isActive: bool, order: int)

  datatype StaticPage = StaticPage(
    id: int, title: string, slug: string, content: string, isPublished: bool)

  datatype MenuItem = MenuItem(
    id: int, labelText: string, url: string, parentId: Option<int>, order: int, isActive: bool)

  /**
   * A `Partial<Banner>`: `Some` for each key the caller passed. An optional
   * field's value is itself an `Option`, so that a key passed as `null` or
   * `undefined` (`Some(None)`) can clear the field.
   */
  datatype BannerPatch = BannerPatch(
    id: Option<int>, title: Option<string>, imageUrl: Option<string>, linkUrl: Option<Option<string>>,
    description: Option<Option<string>>, isActive: Option<bool>, order: Option<int>)

  /** A `Partial<StaticPage>` */
  datatype PagePatch = PagePatch(
    id: Option<int>, title: Option<string>, slug: Option<string>, content: Option<string>,
    isPublished: Option<bool>)

  /** A `Partial<MenuItem>` */
  datatype MenuPatch = MenuPatch(
    id: Option<int>, labelText: Option<string>, url: Option<string>, parentId: Option<Option<int>>,
    order: Option<int>, isActive: Option<bool>)

  /** The patch leaves a field as it is: the key is absent or carries the value the field already has. */
  predicate Keeps<V(==)>(o: Option<V>, v: V) {
    o.None? || o.value == v
  }

  /** `{ ...b, ...p }`: each key the patch carries replaces that field. */
  function MergeBanner(b: Banner, p: BannerPatch): (r: Banner)
    ensures p.id.None? ==> r.id == b.id
    ensures r == b <==>
      Keeps(p.id, b.id) && Keeps(p.title, b.title) && Keeps(p.imageUrl, b.imageUrl) &&
      Keeps(p.linkUrl, b.linkUrl) && Keeps(p.description, b.description) &&
      Keeps(p.isActive, b.isActive) && Keeps(p.order, b.order)
  {
    Banner(p.id.GetOr(b.id), p.title.GetOr(b.title), p.imageUrl.GetOr(b.imageUrl),
      p.linkUrl.GetOr(b.linkUrl), p.description.GetOr(b.description),
      p.isActive.GetOr(b.isActive), p.order.GetOr(b.order))
  }

  /** `{ ...pg, ...p }`: each key the patch carries replaces that field. */
  function MergePage(pg: StaticPage, p: PagePatch): (r: StaticPage)
    ensures p.id.None? ==> r.id == pg.id
    ensures r == pg <==>
      Keeps(p.id, pg.id) && Keeps(p.title, pg.title) && Keeps(p.slug, pg.slug) &&
      Keeps(p.content, pg.content) && Keeps(p.isPublished, pg.isPublished)
  {
    StaticPage(p.id.GetOr(pg.id), p.title.GetOr(pg.title), p.slug.GetOr(pg.slug),
      p.content.GetOr(pg.content), p.isPublished.GetOr(pg.isPublished))
  }

  /** `{ ...m, ...p }`: each key the patch carries replaces that field; `parent_id: null` makes the item top-level. */
  function MergeMenu(m: MenuItem, p: MenuPatch): (r: MenuItem)
    ensures p.id.None? ==> r.id == m.id
    ensures p.parentId == Some(None) ==> r.parentId.None?
    ensures r == m <==>
      Keeps(p.id, m.id) && Keeps(p.labelText, m.labelText) && Keeps(p.url, m.url) &&
      Keeps(p.parentId, m.parentId) && Keeps(p.order, m.order) && Keeps(p.isActive, m.isActive)
  {
    MenuItem(p.id.GetOr(m.id), p.labelText.GetOr(m.labelText), p.url.GetOr(m.url),
      p.parentId.GetOr(m.parentId), p.order.GetOr(m.order), p.isActive.GetOr(m.isActive))
  }

  const EmptyBannerPatch := BannerPatch(None, None, None, None, None, None, None)
  const EmptyPagePatch := PagePatch(None, None, None, None, None)
  const EmptyMenuPatch := MenuPatch(None, None, None, None, None, None)

  /** An empty patch changes nothing, and applying the same patch twice is applying it once. */
  lemma MergeLaws(b: Banner, bp: BannerPatch, pg: StaticPage, pp: PagePatch, m: MenuItem, mp: MenuPatch)
    ensures MergeBanner(b, EmptyBannerPatch) == b && MergeBanner(MergeBanner(b, bp), bp) == MergeBanner(b, bp)
    ensures MergePage(pg, EmptyPagePatch) == pg && MergePage(MergePage(pg, pp), pp) == MergePage(pg, pp)
    ensures MergeMenu(m, EmptyMenuPatch) == m && MergeMenu(MergeMenu(m, mp), mp) == MergeMenu(m, mp)
  {
  }

  function BannerId(b: Banner): int { b.id }
  function PageId(p: StaticPage): int { p.id }
  function MenuId(m: MenuItem): int { m.id }

  // ---------------------------------------------------------------------
  // Table operations shared by the three tables
  // ---------------------------------------------------------------------

  /** `rows.findIndex(r => idOf(r) === id)`: the first index with that id, or -1. */
  function FindIndex<R>(rows: seq<R>, id: int, idOf: R -> int): (k: int)
    ensures -1 <= k < |rows|
    ensures k == -1 <==> forall i :: 0 <= i < |rows| ==> idOf(rows[i]) != id
    ensures k >= 0 ==> idOf(rows[k]) == id && forall i :: 0 <= i < k ==> idOf(rows[i]) != id
  {
    if rows == [] then -1
    else if idOf(rows[0]) == id then 0
    else
      var k := FindIndex(rows[1..], id, idOf);
      assert forall i :: 1 <= i < |rows| ==> rows[i] == rows[1..][i - 1];
      if k == -1 then -1 else k + 1
  }

  /** `rows.filter(r => idOf(r) !== id)` */
  function RemoveId<R>(rows: seq<R>, id: int, idOf: R -> int): (r: seq<R>)
    ensures |r| <= |rows|
    ensures forall i :: 0 <= i < |r| ==> idOf(r[i]) != id
    ensures multiset(r) <= multiset(rows)
    ensures forall x | x in rows && idOf(x) != id :: multiset(r)[x] == multiset(rows)[x]
  {
    if rows == [] then []
    else
      var rest := RemoveId(rows[1..], id, idOf);
      assert rows == [rows[0]] + rows[1..];
      if idOf(rows[0]) == id then rest else [rows[0]] + rest
  }

  /** Deleting preserves order: deleting from a concatenation deletes from each part. */
  lemma {:induction false} RemoveIdAppend<R>(a: seq<R>, b: seq<R>, id: int, idOf: R -> int)
    ensures RemoveId(a + b, id, idOf) == RemoveId(a, id, idOf) + RemoveId(b, id, idOf)
  {
    if a == [] {
      assert a + b == b;
    } else {
      assert (a + b)[1..] == a[1..] + b;
      RemoveIdAppend(a[1..], b, id, idOf);
    }
  }

  /** Deleting an id that no row carries changes nothing. */
  lemma {:induction false} RemoveAbsentId<R>(rows: seq<R>, id: int, idOf: R -> int)
    requires forall i :: 0 <= i < |rows| ==> idOf(rows[i]) != id
    ensures RemoveId(rows, id, idOf) == rows
  {
    if rows != [] {
      RemoveAbsentId(rows[1..], id, idOf);
      assert rows == [rows[0]] + rows[1..];
    }
  }

  /** Deleting is idempotent. */
  lemma RemoveIdIdempotent<R>(rows: seq<R>, id: int, idOf: R -> int)
    ensures RemoveId(RemoveId(rows, id, idOf), id, idOf) == RemoveId(rows, id, idOf)
  {
    RemoveAbsentId(RemoveId(rows, id, idOf), id, idOf);
  }

  // ---------------------------------------------------------------------
  // The store
  // ---------------------------------------------------------------------

  const InitialBanners := [
    Banner(1, "Welcome Banner", "https://via.placeholder.com/800x200", Some("/dashboard"),
      Some("Main welcome banner for the dashboard"), true, 1),
    Banner(2, "Maintenance Notice", "https://via.placeholder.com/800x200", Some("#"),
      Some("Scheduled maintenance on Sunday"), false, 2)]

  const InitialPages := [
    StaticPage(1, "About Us", "about-us", "<p>Welcome to our company...</p>", true),
    StaticPage(2, "Privacy Policy", "privacy-policy", "<p>Privacy policy content...</p>", true)]

  const InitialMenus := [
    MenuItem(1, "Home", "/", None, 1, true),
    MenuItem(2, "Contact", "/contact", None, 2, true)]

  /** The three module-level arrays `BANNERS`, `PAGES` and `MENUS`. */
  class Settings {
    var banners: seq<Banner>
    var pages: seq<StaticPage>
    var menus: seq<MenuItem>

    constructor ()
      ensures banners == InitialBanners && pages == InitialPages && menus == InitialMenus
    {
      banners := InitialBanners;
      pages := InitialPages;
      menus := InitialMenus;
    }

    // Banners

    /** `getBanners`: a copy of the table. */
    method GetBanners() returns (r: seq<Banner>)
      ensures r == banners
    {
      r := banners;
    }

    /** `createBanner`: `{ ...data, id: newId }` is appended and returned. */
    method CreateBanner(data: Banner, newId: int) returns (r: Banner)
      modifies this`banners
      ensures r == data.(id := newId)
      ensures banners == old(banners) + [r]
      ensures pages == old(pages) && menus == old(menus)
    {
      r := data.(id := newId);
      banners := banners + [r];
    }

    /** `updateBanner`: patches the first banner with that id, or fails with "Banner not found". */
    method UpdateBanner(id: int, patch: BannerPatch) returns (r: Result<Banner, string>)
      modifies this`banners
      ensures var k := FindIndex(old(banners), id, BannerId);
        if k == -1 then r == Failure("Banner not found") && banners == old(banners)
        else banners == old(banners)[k := MergeBanner(old(banners)[k], patch)] && r == Success(banners[k])
      ensures pages == old(pages) && menus == old(menus)
    {
      var k := FindIndex(banners, id, BannerId);
      if k == -1 {
        r := Failure("Banner not found");
      } else {
        banners := banners[k := MergeBanner(banners[k], patch)];
        r := Success(banners[k]);
      }
    }

    /** `deleteBanner`: keeps the banners with other ids, in order. */
    method DeleteBanner(id: int)
      modifies this`banners
      ensures banners == RemoveId(old(banners), id, BannerId)
      ensures pages == old(pages) && menus == old(menus)
    {
      banners := RemoveId(banners, id, BannerId);
    }

    // Pages

    /** `getPages`: a copy of the table. */
    method GetPages() returns (r: seq<StaticPage>)
      ensures r == pages
    {
      r := pages;
    }

    /** `createPage`: `{ ...data, id: newId }` is appended and returned. */
    method CreatePage(data: StaticPage, newId: int) returns (r: StaticPage)
      modifies this`pages
      ensures r == data.(id := newId)
      ensures pages == old(pages) + [r]
      ensures banners == old(banners) && menus == old(menus)
    {
      r := data.(id := newId);
      pages := pages + [r];
    }

    /** `updatePage`: patches the first page with that id, or fails with "Page not found". */
    method UpdatePage(id: int, patch: PagePatch) returns (r: Result<StaticPage, string>)
      modifies this`pages
      ensures var k := FindIndex(old(pages), id, PageId);
        if k == -1 then r == Failure("Page not found") && pages == old(pages)
        else pages == old(pages)[k := MergePage(old(pages)[k], patch)] && r == Success(pages[k])
      ensures banners == old(banners) && menus == old(menus)
    {
      var k := FindIndex(pages, id, PageId);
      if k == -1 {
        r := Failure("Page not found");
      } else {
        pages := pages[k := MergePage(pages[k], patch)];
        r := Success(pages[k]);
      }
    }

    /** `deletePage`: keeps the pages with other ids, in order. */
    method DeletePage(id: int)
      modifies this`pages
      ensures pages == RemoveId(old(pages), id, PageId)
      ensures banners == old(banners) && menus == old(menus)
    {
      pages := RemoveId(pages, id, PageId);
    }

    // Menus

    /** `getMenus`: a copy of the table. */
    method GetMenus() returns (r: seq<MenuItem>)
      ensures r == menus
    {
      r := menus;
    }

    /** `createMenu`: `{ ...data, id: newId }` is appended and returned. */
    method CreateMenu(data: MenuItem, newId: int) returns (r: MenuItem)
      modifies this`menus
      ensures r == data.(id := newId)
      ensures menus == old(menus) + [r]
      ensures banners == old(banners) && pages == old(pages)
    {
      r := data.(id := newId);
      menus := menus + [r];
    }

    /** `updateMenu`: patches the first menu item with that id, or fails with "Menu item not found". */
    method UpdateMenu(id: int, patch: MenuPatch) returns (r: Result<MenuItem, string>)
      modifies this`menus
      ensures var k := FindIndex(old(menus), id, MenuId);
        if k == -1 then r == Failure("Menu item not found") && menus == old(menus)
        else menus == old(menus)[k := MergeMenu(old(menus)[k], patch)] && r == Success(menus[k])
      ensures banners == old(banners) && pages == old(pages)
    {
      var k := FindIndex(menus, id, MenuId);
      if k == -1 {
        r := Failure("Menu item not found");
      } else {
        menus := menus[k := MergeMenu(menus[k], patch)];
        r := Success(menus[k]);
      }
    }

    /** `deleteMenu`: keeps the menu items with other ids, in order. */
    method DeleteMenu(id: int)
      modifies this`menus
      ensures menus == RemoveId(old(menus), id, MenuId)
      ensures banners == old(banners) && pages == old(pages)
    {
      menus := RemoveId(menus, id, MenuId);
    }
  }

  /**
   * After a successful update whose merged row keeps the id, looking the id up
   * again finds the same index, which now holds the merged row; the length and
   * every other row are as before.
   */
  lemma UpdateKeepsLookup<R>(rows: seq<R>, id: int, idOf: R -> int, merged: R)
    requires FindIndex(rows, id, idOf) != -1 && idOf(merged) == id
    ensures var k := FindIndex(rows, id, idOf);
            var after := rows[k := merged];
            FindIndex(after, id, idOf) == k && after[k] == merged && |after| == |rows| &&
            forall i :: 0 <= i < |rows| && i != k ==> after[i] == rows[i]
  {
    var k := FindIndex(rows, id, idOf);
    var after := rows[k := merged];
    var k' := FindIndex(after, id, idOf);
    assert forall i :: 0 <= i < k ==> idOf(after[i]) != id;
    assert idOf(after[k]) == id;
  }

  /** A banner updated by a patch without an id is found again at the same index, merged. */
  lemma UpdateBannerFoundAgain(rows: seq<Banner>, id: int, patch: BannerPatch)
    requires FindIndex(rows, id, BannerId) != -1 && patch.id.None?
    ensures var k := FindIndex(rows, id, BannerId);
            var after := rows[k := MergeBanner(rows[k], patch)];
            FindIndex(after, id, BannerId) == k && after[k] == MergeBanner(rows[k], patch)
  {
    var k := FindIndex(rows, id, BannerId);
    UpdateKeepsLookup(rows, id, BannerId, MergeBanner(rows[k], patch));
  }

  /** A page updated by a patch without an id is found again at the same index, merged. */
  lemma UpdatePageFoundAgain(rows: seq<StaticPage>, id: int, patch: PagePatch)
    requires FindIndex(rows, id, PageId) != -1 && patch.id.None?
    ensures var k := FindIndex(rows, id, PageId);
            var after := rows[k := MergePage(rows[k], patch)];
            FindIndex(after, id, PageId) == k && after[k] == MergePage(rows[k], patch)
  {
    var k := FindIndex(rows, id, PageId);
    UpdateKeepsLookup(rows, id, PageId, MergePage(rows[k], patch));
  }

  /** Choosing "no parent" for a child menu item makes it top-level. */
  lemma UpdateMenuCanClearParent(rows: seq<MenuItem>, id: int, patch: MenuPatch)
    requires FindIndex(rows, id, MenuId) != -1 && patch.id.None? && patch.parentId == Some(None)
    ensures var k := FindIndex(rows, id, MenuId);
            var after := rows[k := MergeMenu(rows[k], patch)];
            FindIndex(after, id, MenuId) == k && after[k].parentId.None?
  {
    var k := FindIndex(rows, id, MenuId);
    UpdateKeepsLookup(rows, id, MenuId, MergeMenu(rows[k], patch));
  }
}
