/** The menu tree handed to the page template (`RootMenu`): the top-level
    menus in order, and the menu, with its parent, that is shown as active
    for the route being rendered. */
module RootMenus {
  import opened AdminMenus

  /** The active menu and the top-level menu it was found under. */
  datatype Selection = Selection(current: AdminMenu?, parent: AdminMenu?)

  /** The menus and the children that the selection looks at. */
  function Footprint(menus: seq<AdminMenu>): set<AdminMenu>
    reads set m | m in menus
  {
    (set m | m in menus) + (set m, s | m in menus && s in m.subMenus :: s)
  }

  /** Index of the first child of `subs` that is active for `vn`, or `|subs|`
      when none is. */
  function FirstActive(subs: seq<AdminMenu>, vn: string): (k: nat)
    reads set s | s in subs
    ensures k <= |subs|
    ensures k < |subs| ==> subs[k].Active(vn)
    ensures forall j :: 0 <= j < k ==> !subs[j].Active(vn)
  {
    if subs == [] then 0
    else if subs[0].Active(vn) then 0
    else 1 + FirstActive(subs[1..], vn)
  }

  /** Some child of `subs` is active for `vn`. */
  predicate AnyActive(subs: seq<AdminMenu>, vn: string)
    reads set s | s in subs
  {
    exists k :: 0 <= k < |subs| && subs[k].Active(vn)
  }

  /** The menu matches the route itself or through one of its children. */
  predicate Hit(menu: AdminMenu, vn: string)
    reads menu, set s | s in menu.subMenus
  {
    menu.Active(vn) || AnyActive(menu.subMenus, vn)
  }

  /** What `add_menu` does to the selection: a menu active itself becomes
      the current menu and leaves the parent as it was; otherwise its first
      active child becomes the current menu under it as parent; otherwise
      nothing changes. */
  function Step(sel: Selection, vn: string, menu: AdminMenu): Selection
    reads menu, set s | s in menu.subMenus
  {
    if menu.Active(vn) then Selection(menu, sel.parent)
    else if menu.subMenus != [] && FirstActive(menu.subMenus, vn) < |menu.subMenus| then
      Selection(menu.subMenus[FirstActive(menu.subMenus, vn)], menu)
    else sel
  }

  /** The selection after the first `n` menus have been added, starting
      from nothing selected. */
  function Resolve(vn: string, menus: seq<AdminMenu>, n: nat): Selection
    requires n <= |menus|
    reads Footprint(menus)
  {
    if n == 0 then Selection(null, null)
    else Step(Resolve(vn, menus, n - 1), vn, menus[n - 1])
  }

  class RootMenu {
    const currentViewName: string
    var currentMenu: AdminMenu?
    var parentMenu: AdminMenu?
    var menus: seq<AdminMenu>

    /** Adds the menus one at a time, so the selection is that of the last
        menu that matches the route. */
    constructor (currentViewName: string, initMenus: seq<AdminMenu>)
      ensures this.currentViewName == currentViewName
      ensures menus == initMenus
      ensures Selection(currentMenu, parentMenu) == old(Resolve(currentViewName, initMenus, |initMenus|))
    {
      this.currentViewName := currentViewName;
      currentMenu := null;
      parentMenu := null;
      menus := [];
      new;
      var i := 0;
      while i < |initMenus|
        invariant 0 <= i <= |initMenus|
        invariant this.currentViewName == currentViewName
        invariant menus == initMenus[..i]
        invariant Selection(currentMenu, parentMenu) == old(Resolve(currentViewName, initMenus, i))
      {
        var self := AddMenu(initMenus[i]);
        assert initMenus[..i + 1] == initMenus[..i] + [initMenus[i]];
        i := i + 1;
      }
      assert initMenus[..i] == initMenus;
    }

    /** `add_menu`: appends the menu and updates the selection; returns the
        tree itself so that calls can be chained. */
    method AddMenu(menu: AdminMenu) returns (self: RootMenu)
      modifies this`currentMenu, this`parentMenu, this`menus
      ensures self == this
      ensures menus == old(menus) + [menu]
      ensures Selection(currentMenu, parentMenu) == Step(Selection(old(currentMenu), old(parentMenu)), currentViewName, menu)
    {
      var viewName := currentViewName;
      if menu.Active(viewName) {
        currentMenu := menu;
      } else if menu.subMenus != [] {
        var i := 0;
        while i < |menu.subMenus|
          invariant 0 <= i <= |menu.subMenus|
          invariant forall j :: 0 <= j < i ==> !menu.subMenus[j].Active(viewName)
          invariant currentMenu == old(currentMenu) && parentMenu == old(parentMenu)
        {
          var subMenu := menu.subMenus[i];
          if subMenu.Active(viewName) {
            currentMenu := subMenu;
            parentMenu := menu;
            break;
          }
          i := i + 1;
        }
      }
      menus := menus + [menu];
      self := this;
    }
  }

  /** A new tree over `initMenus`, its selection stated against the menus
      as they stand once it is built: building it changes no menu. */
  method NewRootMenu(currentViewName: string, initMenus: seq<AdminMenu>) returns (root: RootMenu)
    ensures fresh(root)
    ensures root.currentViewName == currentViewName && root.menus == initMenus
    ensures Selection(root.currentMenu, root.parentMenu) == Resolve(currentViewName, initMenus, |initMenus|)
  {
    label Before:
    root := new RootMenu(currentViewName, initMenus);
    assert forall m | m in initMenus :: m.subMenus == old@Before(m.subMenus);
    assert Footprint(initMenus) == old@Before(Footprint(initMenus));
    assert forall m | m in Footprint(initMenus) ::
      m.viewName == old@Before(m.viewName) && m.subMenus == old@Before(m.subMenus);
  }

  // ----- what the selection means -----

  /** Finding no active child is the same as no child being active. */
  lemma FirstActiveFound(subs: seq<AdminMenu>, vn: string)
    ensures FirstActive(subs, vn) < |subs| <==> AnyActive(subs, vn)
  {
  }

  /** Nothing is selected exactly when no menu added matches the route,
      neither itself nor through a child; the parent is only ever set
      together with the current menu. */
  lemma {:induction false} ResolveNothing(vn: string, menus: seq<AdminMenu>, n: nat)
    requires n <= |menus|
    ensures Resolve(vn, menus, n).current == null <==> forall j :: 0 <= j < n ==> !Hit(menus[j], vn)
    ensures Resolve(vn, menus, n).current == null ==> Resolve(vn, menus, n).parent == null
  {
    if n > 0 {
      ResolveNothing(vn, menus, n - 1);
      FirstActiveFound(menus[n - 1].subMenus, vn);
    }
  }

  /** The current menu, when there is one, is active for the route, and the
      parent, when there is one, is an added menu with an active child. */
  lemma {:induction false} ResolveSound(vn: string, menus: seq<AdminMenu>, n: nat)
    requires n <= |menus|
    ensures Resolve(vn, menus, n).current != null ==> Resolve(vn, menus, n).current.Active(vn)
    ensures Resolve(vn, menus, n).parent != null ==>
      exists j :: 0 <= j < n && menus[j] == Resolve(vn, menus, n).parent && AnyActive(menus[j].subMenus, vn)
  {
    if n > 0 {
      ResolveSound(vn, menus, n - 1);
      var m := menus[n - 1];
      FirstActiveFound(m.subMenus, vn);
      var sel := Resolve(vn, menus, n);
      if sel.parent != null && sel.parent != Resolve(vn, menus, n - 1).parent {
        assert menus[n - 1] == sel.parent;
      }
    }
  }

  /** The last menu that matches decides the current menu: the menu itself
      when it is active, else its first active child, which then has that
      menu as parent. */
  lemma {:induction false} ResolveLastHit(vn: string, menus: seq<AdminMenu>, n: nat, j: nat)
    requires j < n <= |menus| && Hit(menus[j], vn)
    requires forall l :: j < l < n ==> !Hit(menus[l], vn)
    ensures menus[j].Active(vn) ==> Resolve(vn, menus, n).current == menus[j]
    ensures !menus[j].Active(vn) ==>
      FirstActive(menus[j].subMenus, vn) < |menus[j].subMenus| &&
      Resolve(vn, menus, n) == Selection(menus[j].subMenus[FirstActive(menus[j].subMenus, vn)], menus[j])
  {
    FirstActiveFound(menus[j].subMenus, vn);
    if j < n - 1 {
      ResolveLastHit(vn, menus, n - 1, j);
      FirstActiveFound(menus[n - 1].subMenus, vn);
    }
  }

  /** A later menu that is itself active replaces the current menu but not
      the parent found earlier, which then need not contain it. */
  lemma StaleParent(vn: string, a: AdminMenu, s: AdminMenu, b: AdminMenu)
    requires a.subMenus == [s] && s.Active(vn) && !a.Active(vn) && b.Active(vn)
    ensures Resolve(vn, [a, b], 2) == Selection(b, a)
  {
    var menus := [a, b];
    assert Resolve(vn, menus, 1) == Selection(s, a) by {
      assert FirstActive(a.subMenus, vn) == 0;
    }
  }
}
