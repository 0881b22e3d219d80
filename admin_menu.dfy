/** A menu entry of the admin sidebar (`AdminMenu`). */
module AdminMenus {
  import opened Wrappers

  /** Icon used when a menu is declared without one. */
  const DefaultIcon := "fa-circle-o"

  /** One entry of the admin menu. The name, icon, description, declared
      parent and sort weight are fixed when the menu is declared; the view
      name and the list of children are filled in by the forest assembly. */
  class AdminMenu {
    const name: string
    const iconClasses: string
    const description: Option<string>
    const parentMenu: AdminMenu?
    const sort: int
    var viewName: Option<string>
    var subMenus: seq<AdminMenu>
    var extraViewNames: seq<string>

    constructor (name: string, iconClasses: string := DefaultIcon,
                 description: Option<string> := None, parentMenu: AdminMenu? := null,
                 sort: int := 0)
      ensures this.name == name && this.iconClasses == iconClasses
      ensures this.description == description && this.parentMenu == parentMenu
      ensures this.sort == sort
      ensures viewName == None && subMenus == [] && extraViewNames == []
    {
      this.name := name;
      this.iconClasses := iconClasses;
      this.description := description;
      this.parentMenu := parentMenu;
      this.sort := sort;
      viewName := None;
      subMenus := [];
      extraViewNames := [];
    }

    /** `active`: the menu is the one shown for the route `vn`. A menu
        whose view name was never assigned is active for no route. */
    predicate Active(vn: string)
      reads this
      ensures viewName == None ==> !Active(vn)
      ensures Active(vn) ==> viewName.Some? && viewName.value == vn
    {
      viewName == Some(vn)
    }
  }
}
