/** The admin view subclasses that the registry walks over. */
module ViewClasses {
  import opened Wrappers
  import opened AdminMenus

  /** A direct subclass of the base view, as the registry sees it: its class
      name, a pattern string when the subclass replaces `_regex_name` by a
      plain attribute, and its `menu` attribute when it has one. */
  datatype ViewClass = ViewClass(name: string, regexOverride: Option<string>, menu: AdminMenu?)
}
