/** Assembly of the menu forest (`AdminLTEBaseView.menus`): every view
    subclass that declares a menu gives that menu its route name; menus
    without a parent are kept as top-level entries, the others are
    appended to their parent's children and the parent is promoted to the
    top level. The top-level list is then sorted by descending weight. */
module MenuForest {
  import opened Wrappers
  import opened ViewNames
  import opened AdminMenus
  import opened ViewClasses

  /** The menus the first `n` subclasses declare, in subclass order. */
  function Collected(views: seq<ViewClass>, n: nat): seq<AdminMenu>
    requires n <= |views|
  {
    if n == 0 then []
    else Collected(views, n - 1) + (if views[n - 1].menu != null then [views[n - 1].menu] else [])
  }

  /** The set of declared menus. */
  function Declared(views: seq<ViewClass>): set<AdminMenu> {
    set v | v in views && v.menu != null :: v.menu
  }

  /** The route name the first loop leaves in menu `m` once it has seen the
      first `n` subclasses: that of the last one declaring `m`, and nothing
      when none of them declares it. */
  function AssignedName(views: seq<ViewClass>, n: nat, m: AdminMenu): Option<string>
    requires n <= |views|
  {
    if n == 0 then None
    else if views[n - 1].menu == m then Some(CanonicalName(views[n - 1].name))
    else AssignedName(views, n - 1, m)
  }

  /** A menu receives a route name exactly when one of the subclasses seen
      declares it. */
  lemma {:induction false} AssignedNameDefined(views: seq<ViewClass>, n: nat)
    requires n <= |views|
    ensures forall m :: AssignedName(views, n, m).Some? <==> exists j :: 0 <= j < n && views[j].menu == m
  {
    if n > 0 {
      AssignedNameDefined(views, n - 1);
    }
  }

  /** The collected menus are exactly the declared ones. */
  lemma {:induction false} CollectedMembers(views: seq<ViewClass>, n: nat)
    requires n <= |views|
    ensures forall m :: m in Collected(views, n) <==> exists j :: 0 <= j < n && views[j].menu == m
  {
    if n > 0 {
      CollectedMembers(views, n - 1);
    }
  }

  /** All the subclasses together declare exactly the set of declared menus. */
  lemma CollectedDeclared(views: seq<ViewClass>)
    ensures forall m :: m in Collected(views, |views|) <==> m in Declared(views)
  {
    CollectedMembers(views, |views|);
    forall m | m in Declared(views)
      ensures exists j :: 0 <= j < |views| && views[j].menu == m
    {
      var v :| v in views && v.menu == m;
      var j :| 0 <= j < |views| && views[j] == v;
    }
  }

  /** The parents that the second loop extends. */
  function Parents(menus: seq<AdminMenu>): set<AdminMenu> {
    set m | m in menus && m.parentMenu != null :: m.parentMenu
  }

  /** The menus among the first `n` of `menus` whose declared parent is
      `p`, in order. */
  function ChildrenOf(menus: seq<AdminMenu>, n: nat, p: AdminMenu): seq<AdminMenu>
    requires n <= |menus|
  {
    if n == 0 then []
    else ChildrenOf(menus, n - 1, p) + (if menus[n - 1].parentMenu == p then [menus[n - 1]] else [])
  }

  /** A list with each of `cs` appended in turn unless it is already there. */
  function AppendNew(s: seq<AdminMenu>, cs: seq<AdminMenu>): seq<AdminMenu> {
    if cs == [] then s
    else
      var t, c := AppendNew(s, cs[..|cs| - 1]), cs[|cs| - 1];
      if c in t then t else t + [c]
  }

  /** The top-level list the second loop builds from the first `n` menus:
      a parentless menu is appended as it comes, a child brings in its parent unless the parent
      is already there. */
  function TopLevel(menus: seq<AdminMenu>, n: nat): seq<AdminMenu>
    requires n <= |menus|
  {
    if n == 0 then []
    else
      var t, m := TopLevel(menus, n - 1), menus[n - 1];
      if m.parentMenu == null then t + [m]
      else if m.parentMenu in t then t
      else t + [m.parentMenu]
  }

  /** The children list of `p` after the second loop has seen the first
      `n` menus, starting from `s`: a child of `p` is appended unless it is
      already there. */
  function Grafted(s: seq<AdminMenu>, menus: seq<AdminMenu>, n: nat, p: AdminMenu): seq<AdminMenu>
    requires n <= |menus|
  {
    if n == 0 then s
    else
      var t, m := Grafted(s, menus, n - 1, p), menus[n - 1];
      if m.parentMenu == p && m !in t then t + [m] else t
  }

  predicate NoDuplicates(s: seq<AdminMenu>) {
    forall i, j :: 0 <= i < j < |s| ==> s[i] != s[j]
  }

  /** The first loop of `menus`: each declared menu receives its view's
      route name and is collected. */
  method AssignViewNames(views: seq<ViewClass>) returns (menus: seq<AdminMenu>)
    modifies Declared(views)`viewName
    ensures menus == Collected(views, |views|)
    ensures forall m :: m in Declared(views) ==> m.viewName == AssignedName(views, |views|, m)
  {
    menus := [];
    var i := 0;
    while i < |views|
      invariant 0 <= i <= |views|
      invariant menus == Collected(views, i)
      invariant forall m :: m in Declared(views) ==>
        m.viewName == if AssignedName(views, i, m).Some? then AssignedName(views, i, m) else old(m.viewName)
    {
      var v := views[i];
      if v.menu != null {
        var name := ViewName(v.name);
        v.menu.viewName := Some(name);
        menus := menus + [v.menu];
      }
      i := i + 1;
    }
    AssignedNameDefined(views, |views|);
    CollectedDeclared(views);
  }

  /** The second loop of `menus`: children are attached to their parents
      without duplicates and the top-level list is built. */
  method AssembleForest(menus: seq<AdminMenu>) returns (lastMenus: seq<AdminMenu>)
    modifies Parents(menus)`subMenus
    ensures lastMenus == TopLevel(menus, |menus|)
    ensures forall p :: p in Parents(menus) ==> p.subMenus == Grafted(old(p.subMenus), menus, |menus|, p)
  {
    lastMenus := [];
    var i := 0;
    while i < |menus|
      invariant 0 <= i <= |menus|
      invariant lastMenus == TopLevel(menus, i)
      invariant forall p :: p in Parents(menus) ==> p.subMenus == Grafted(old(p.subMenus), menus, i, p)
    {
      var menu := menus[i];
      TopLevelStep(menus, i);
      if menu.parentMenu == null {
        lastMenus := lastMenus + [menu];
      } else {
        var parentMenu := menu.parentMenu;
        if menu !in parentMenu.subMenus {
          parentMenu.subMenus := parentMenu.subMenus + [menu];
        }
        if parentMenu !in lastMenus {
          lastMenus := lastMenus + [parentMenu];
        }
      }
      i := i + 1;
    }
  }

  /** `menus` as written: both loops run and the top-level list is sorted
      in place, but what is returned is the value of the in-place sort,
      which is `None`. */
  method Menus(views: seq<ViewClass>) returns (r: Option<seq<AdminMenu>>)
    modifies Declared(views)`viewName, Parents(Collected(views, |views|))`subMenus
    ensures r == None
    ensures forall m :: m in Declared(views) ==> m.viewName == AssignedName(views, |views|, m)
    ensures forall p :: p in Parents(Collected(views, |views|)) ==>
      p.subMenus == Grafted(old(p.subMenus), Collected(views, |views|), |Collected(views, |views|)|, p)
  {
    var menus := AssignViewNames(views);
    CollectedDeclared(views);
    assert forall p :: p in Parents(menus) ==> p.subMenus == old(p.subMenus);
    var lastMenus := AssembleForest(menus);
    lastMenus := SortByWeight(lastMenus);
    r := None;
  }

  /** `menus` as evidently intended: the same two loops, returning the
      sorted top-level list. */
  method MenusSorted(views: seq<ViewClass>) returns (sorted: seq<AdminMenu>)
    modifies Declared(views)`viewName, Parents(Collected(views, |views|))`subMenus
    ensures sorted == SortByWeight(TopLevel(Collected(views, |views|), |Collected(views, |views|)|))
    ensures forall m :: m in Declared(views) ==> m.viewName == AssignedName(views, |views|, m)
    ensures forall p :: p in Parents(Collected(views, |views|)) ==>
      p.subMenus == Grafted(old(p.subMenus), Collected(views, |views|), |Collected(views, |views|)|, p)
  {
    var menus := AssignViewNames(views);
    CollectedDeclared(views);
    assert forall p :: p in Parents(menus) ==> p.subMenus == old(p.subMenus);
    var lastMenus := AssembleForest(menus);
    sorted := SortByWeight(lastMenus);
  }

  /** `list.sort(key=sort, reverse=True)`: a stable sort by descending
      weight, written as an insertion sort. */
  function SortByWeight(s: seq<AdminMenu>): (r: seq<AdminMenu>)
    ensures |r| == |s|
  {
    if s == [] then [] else InsertByWeight(s[0], SortByWeight(s[1..]))
  }

  /** Inserts `m` in front of the first element that does not outweigh it. */
  function InsertByWeight(m: AdminMenu, s: seq<AdminMenu>): (r: seq<AdminMenu>)
    ensures |r| == |s| + 1
  {
    if s == [] then [m]
    else if m.sort >= s[0].sort then [m] + s
    else [s[0]] + InsertByWeight(m, s[1..])
  }

  predicate SortedByWeight(s: seq<AdminMenu>) {
    forall i, j :: 0 <= i < j < |s| ==> s[i].sort >= s[j].sort
  }

  /** The elements of `s` whose weight is `k`, in order. */
  function WithWeight(s: seq<AdminMenu>, k: int): seq<AdminMenu> {
    if s == [] then [] else (if s[0].sort == k then [s[0]] else []) + WithWeight(s[1..], k)
  }

  // ----- the route names assigned by the first loop -----

  /** A menu carries the route name of the last subclass that declares it;
      when no later subclass shares the menu of subclass `i`, that is the
      name of `i` itself. */
  lemma {:induction false} AssignedNameIsLastView(views: seq<ViewClass>, n: nat, i: nat)
    requires i < n <= |views| && views[i].menu != null
    requires forall j :: i < j < n ==> views[j].menu != views[i].menu
    ensures AssignedName(views, n, views[i].menu) == Some(CanonicalName(views[i].name))
  {
    if i < n - 1 {
      AssignedNameIsLastView(views, n - 1, i);
    }
  }

  // ----- the children lists built by the second loop -----

  /** The new list starts with the old one and holds exactly the old
      elements and the children. */
  lemma {:induction false} AppendNewMembers(s: seq<AdminMenu>, cs: seq<AdminMenu>)
    ensures |s| <= |AppendNew(s, cs)| && AppendNew(s, cs)[..|s|] == s
    ensures forall x :: x in AppendNew(s, cs) <==> x in s || x in cs
  {
    if cs != [] {
      var init := cs[..|cs| - 1];
      AppendNewMembers(s, init);
      assert forall x :: x in cs <==> x in init || x == cs[|cs| - 1];
    }
  }

  /** Appending children never duplicates an entry. */
  lemma {:induction false} AppendNewNoDuplicates(s: seq<AdminMenu>, cs: seq<AdminMenu>)
    requires NoDuplicates(s)
    ensures NoDuplicates(AppendNew(s, cs))
  {
    if cs != [] {
      AppendNewNoDuplicates(s, cs[..|cs| - 1]);
    }
  }

  /** A parent whose children list starts empty, as the constructor leaves
      it, ends up holding each of its children exactly once. */
  lemma ChildAttachedOnce(s: seq<AdminMenu>, cs: seq<AdminMenu>, c: AdminMenu)
    requires NoDuplicates(s) && c in cs
    ensures multiset(AppendNew(s, cs))[c] == 1
  {
    AppendNewMembers(s, cs);
    AppendNewNoDuplicates(s, cs);
    var t := AppendNew(s, cs);
    var k :| 0 <= k < |t| && t[k] == c;
    NoDuplicatesCount(t, k);
  }

  lemma {:induction false} NoDuplicatesCount(t: seq<AdminMenu>, k: nat)
    requires NoDuplicates(t) && k < |t|
    ensures multiset(t)[t[k]] == 1
  {
    var init, last := t[..|t| - 1], t[|t| - 1];
    assert t == init + [last];
    assert NoDuplicates(init);
    if k < |t| - 1 {
      NoDuplicatesCount(init, k);
      assert init[k] == t[k] != last;
    } else {
      assert last !in init;
    }
  }

  /** The children of `p` are the menus that declare `p` as parent. */
  lemma {:induction false} ChildrenOfMembers(menus: seq<AdminMenu>, n: nat, p: AdminMenu)
    requires n <= |menus|
    ensures forall m :: m in ChildrenOf(menus, n, p) <==> m in menus[..n] && m.parentMenu == p
  {
    if n > 0 {
      ChildrenOfMembers(menus, n - 1, p);
      assert menus[..n] == menus[..n - 1] + [menus[n - 1]];
    }
  }

  /** Appending one more child extends the list by it unless it is there. */
  lemma AppendNewStep(s: seq<AdminMenu>, cs: seq<AdminMenu>, c: AdminMenu)
    ensures AppendNew(s, cs + [c]) == if c in AppendNew(s, cs) then AppendNew(s, cs) else AppendNew(s, cs) + [c]
  {
    assert (cs + [c])[..|cs|] == cs;
  }

  /** The loop's children list is the old list with the children of `p`
      appended in declaration order, each unless it is already there. */
  lemma {:induction false} GraftedIsAppendNew(s: seq<AdminMenu>, menus: seq<AdminMenu>, n: nat, p: AdminMenu)
    requires n <= |menus|
    ensures Grafted(s, menus, n, p) == AppendNew(s, ChildrenOf(menus, n, p))
  {
    if n > 0 {
      GraftedIsAppendNew(s, menus, n - 1, p);
      var m := menus[n - 1];
      if m.parentMenu == p {
        AppendNewStep(s, ChildrenOf(menus, n - 1, p), m);
      } else {
        assert ChildrenOf(menus, n, p) == ChildrenOf(menus, n - 1, p);
        assert Grafted(s, menus, n, p) == Grafted(s, menus, n - 1, p);
      }
    }
  }

  // ----- the top-level list built by the second loop -----

  /** One more menu: itself when parentless, else its parent unless present. */
  lemma TopLevelStep(menus: seq<AdminMenu>, i: nat)
    requires i < |menus|
    ensures TopLevel(menus, i + 1) ==
      if menus[i].parentMenu == null then TopLevel(menus, i) + [menus[i]]
      else if menus[i].parentMenu in TopLevel(menus, i) then TopLevel(menus, i)
      else TopLevel(menus, i) + [menus[i].parentMenu]
  {
  }

  /** Each step of the second loop only appends to the top-level list. */
  lemma {:induction false} TopLevelGrows(menus: seq<AdminMenu>, i: nat, n: nat)
    requires i <= n <= |menus|
    ensures |TopLevel(menus, i)| <= |TopLevel(menus, n)|
    ensures TopLevel(menus, n)[..|TopLevel(menus, i)|] == TopLevel(menus, i)
  {
    if i < n {
      TopLevelGrows(menus, i, n - 1);
    }
  }

  /** Every parentless menu and the parent of every child menu are on the
      top-level list. */
  lemma TopLevelCovers(menus: seq<AdminMenu>, i: nat)
    requires i < |menus|
    ensures menus[i].parentMenu == null ==> menus[i] in TopLevel(menus, |menus|)
    ensures menus[i].parentMenu != null ==> menus[i].parentMenu in TopLevel(menus, |menus|)
  {
    TopLevelGrows(menus, i + 1, |menus|);
    var t := TopLevel(menus, i + 1);
    assert TopLevel(menus, |menus|)[..|t|] == t;
    if menus[i].parentMenu == null {
      assert t[|t| - 1] == menus[i];
    } else {
      assert menus[i].parentMenu in t;
    }
  }

  /** Nothing else is on the top-level list: each entry is a parentless
      menu or the parent of a menu. */
  lemma {:induction false} TopLevelOnly(menus: seq<AdminMenu>, n: nat, x: AdminMenu)
    requires n <= |menus| && x in TopLevel(menus, n)
    ensures exists j :: 0 <= j < n && ((menus[j] == x && x.parentMenu == null) || menus[j].parentMenu == x)
  {
    if x in TopLevel(menus, n - 1) {
      TopLevelOnly(menus, n - 1, x);
    } else {
      assert (menus[n - 1] == x && x.parentMenu == null) || menus[n - 1].parentMenu == x;
    }
  }

  /** The child branch brings each parent in at most once: a menu occurs on
      the top-level list no more often than it occurs as a parentless menu,
      plus one. A menu that is never itself a parentless entry, such as a
      pure grouping menu, occurs at most once. */
  lemma {:induction false} TopLevelCount(menus: seq<AdminMenu>, n: nat, x: AdminMenu)
    requires n <= |menus|
    ensures multiset(TopLevel(menus, n))[x] <= (if x.parentMenu == null then multiset(menus[..n])[x] else 0) + 1
  {
    if n > 0 {
      assert menus[..n] == menus[..n - 1] + [menus[n - 1]];
      TopLevelCount(menus, n - 1, x);
      var t: seq<AdminMenu> := TopLevel(menus, n - 1);
      var m := menus[n - 1];
      if m.parentMenu != null && m.parentMenu !in t && m.parentMenu == x {
        assert multiset(t)[x] == 0;
      }
    }
  }

  /** The parentless branch does not check the list: a child collected
      before its parentless parent has already brought the parent in, and
      the parent is then appended a second time. */
  lemma TopLevelRepeatsParent(c: AdminMenu, p: AdminMenu)
    requires c.parentMenu == p && p.parentMenu == null
    ensures TopLevel([c, p], 2) == [p, p]
  {
    assert TopLevel([c, p], 1) == [p];
  }

  // ----- the sort -----

  /** The sort yields a list ordered by descending weight. */
  lemma {:induction false} SortByWeightSorted(s: seq<AdminMenu>)
    ensures SortedByWeight(SortByWeight(s))
    ensures multiset(SortByWeight(s)) == multiset(s)
  {
    if s != [] {
      SortByWeightSorted(s[1..]);
      InsertByWeightSorted(s[0], SortByWeight(s[1..]));
      assert s == [s[0]] + s[1..];
    }
  }

  lemma {:induction false} InsertByWeightPerm(m: AdminMenu, s: seq<AdminMenu>)
    ensures multiset(InsertByWeight(m, s)) == multiset(s) + multiset{m}
  {
    if s != [] && m.sort < s[0].sort {
      InsertByWeightPerm(m, s[1..]);
      assert s == [s[0]] + s[1..];
    }
  }

  /** Every element of the result is the inserted menu or an old element. */
  lemma {:induction false} InsertByWeightMembers(m: AdminMenu, s: seq<AdminMenu>)
    ensures forall k :: 0 <= k < |InsertByWeight(m, s)| ==>
      InsertByWeight(m, s)[k] == m || InsertByWeight(m, s)[k] in s
  {
    if s != [] && m.sort < s[0].sort {
      InsertByWeightMembers(m, s[1..]);
      assert s == [s[0]] + s[1..];
      forall k | 0 <= k < |InsertByWeight(m, s)|
        ensures InsertByWeight(m, s)[k] == m || InsertByWeight(m, s)[k] in s
      {
        if k > 0 {
          assert InsertByWeight(m, s)[k] == InsertByWeight(m, s[1..])[k - 1];
        }
      }
    }
  }

  /** A menu that outweighs every element of a sorted list can go in front. */
  lemma PrependSorted(x: AdminMenu, r: seq<AdminMenu>)
    requires SortedByWeight(r)
    requires forall k :: 0 <= k < |r| ==> r[k].sort <= x.sort
    ensures SortedByWeight([x] + r)
  {
    forall i, j | 0 <= i < j < |[x] + r| ensures ([x] + r)[i].sort >= ([x] + r)[j].sort {
      assert ([x] + r)[j] == r[j - 1];
      if i > 0 {
        assert ([x] + r)[i] == r[i - 1];
      }
    }
  }

  lemma {:induction false} InsertByWeightSorted(m: AdminMenu, s: seq<AdminMenu>)
    requires SortedByWeight(s)
    ensures SortedByWeight(InsertByWeight(m, s))
    ensures multiset(InsertByWeight(m, s)) == multiset(s) + multiset{m}
  {
    InsertByWeightPerm(m, s);
    if s == [] {
    } else if m.sort >= s[0].sort {
      PrependSorted(m, s);
    } else {
      var t := s[1..];
      assert SortedByWeight(t) by {
        forall i, j | 0 <= i < j < |t| ensures t[i].sort >= t[j].sort {
          assert t[i] == s[i + 1] && t[j] == s[j + 1];
        }
      }
      InsertByWeightSorted(m, t);
      var r := InsertByWeight(m, t);
      InsertByWeightMembers(m, t);
      forall k | 0 <= k < |r| ensures r[k].sort <= s[0].sort {
        if r[k] != m {
          var l :| 0 <= l < |t| && t[l] == r[k];
          assert t[l] == s[l + 1];
        }
      }
      PrependSorted(s[0], r);
    }
  }

  /** The sort is stable: the menus of each weight keep their relative
      order. With SortByWeightSorted this determines the sorted list. */
  lemma {:induction false} SortByWeightStable(s: seq<AdminMenu>, k: int)
    ensures WithWeight(SortByWeight(s), k) == WithWeight(s, k)
  {
    if s != [] {
      SortByWeightStable(s[1..], k);
      InsertByWeightStable(s[0], SortByWeight(s[1..]), k);
    }
  }

  /** Filtering a list with one more element in front. */
  lemma WithWeightCons(x: AdminMenu, s: seq<AdminMenu>, k: int)
    ensures WithWeight([x] + s, k) == (if x.sort == k then [x] else []) + WithWeight(s, k)
  {
    assert ([x] + s)[0] == x;
    assert ([x] + s)[1..] == s;
  }

  lemma {:induction false} InsertByWeightStable(m: AdminMenu, s: seq<AdminMenu>, k: int)
    ensures WithWeight(InsertByWeight(m, s), k) == (if m.sort == k then [m] else []) + WithWeight(s, k)
  {
    if s == [] {
      WithWeightCons(m, s, k);
    } else if m.sort >= s[0].sort {
      WithWeightCons(m, s, k);
    } else {
      var r := InsertByWeight(m, s[1..]);
      InsertByWeightStable(m, s[1..], k);
      WithWeightCons(s[0], r, k);
      WithWeightCons(s[0], s[1..], k);
      assert [s[0]] + s[1..] == s;
      var head := if s[0].sort == k then [s[0]] else [];
      var mine := if m.sort == k then [m] else [];
      assert head == [] || mine == [];
    }
  }
}
