/** The menu tree of the admin template context (`ROOT_MENU` in
    `admin_config`): the forest assembled from the view subclasses, handed
    to a new `RootMenu` for the route being rendered. */
module AdminContext {
  import opened AdminMenus
  import opened ViewClasses
  import opened MenuForest
  import opened RootMenus

  /** `RootMenu(current_view_name=..., init_menus=AdminLTEBaseView.menus())`
      with the sorted top-level list that `menus` is meant to return: the
      tree holds that list, and its selection is the one the added menus
      determine once the route names and children have been filled in. */
  method RootMenuFor(views: seq<ViewClass>, currentViewName: string) returns (root: RootMenu)
    modifies Declared(views)`viewName, Parents(Collected(views, |views|))`subMenus
    ensures fresh(root)
    ensures root.currentViewName == currentViewName
    ensures root.menus == SortByWeight(TopLevel(Collected(views, |views|), |Collected(views, |views|)|))
    ensures Selection(root.currentMenu, root.parentMenu) == Resolve(currentViewName, root.menus, |root.menus|)
  {
    var sorted := MenusSorted(views);
    root := NewRootMenu(currentViewName, sorted);
  }
}
