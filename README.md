# AdminLTE view registry, menus, pager and access check

This project models the core of `adminlte/utils.py`, the utility layer of a Django admin theme. It has five parts:

- **View registry.** Each admin view subclass gets a URL pattern (`_regex_name`) and a dotted route name (`_view_name`), both derived from its class name. The URL table (`urlpatterns`) is built from them.
- **Menu forest.** `AdminLTEBaseView.menus` gives every declared `AdminMenu` its route name. It attaches child menus to their parents and builds the list of top-level menus.
- **Active-menu selection.** `RootMenu` finds the menu, and its parent, that is shown as active for the route being rendered.
- **Pagination.** `Pager` holds one page of a query, the next-page flags and the last page number. `Pager.from_request` builds one from the request's query string.
- **Access check.** `dispatch` sends non-staff users to the login route unless the view opts out, then picks the handler for the HTTP method. `admin_only` applies the same check to plain API functions.

Modules, one per file:

| module | file | what it holds |
|---|---|---|
| `Wrappers` | `wrappers.dfy` | `Option` and `Result` |
| `Text` | `text.dfy` | `str.isupper`, `str.lower` and `str.replace(old, '')` on ASCII |
| `ViewNames` | `view_names.dfy` | the two name scans, as loops, with the functions that specify them |
| `UrlTable` | `url_table.dfy` | the URL table loop |
| `AdminMenus` | `admin_menu.dfy` | the `AdminMenu` class |
| `ViewClasses` | `view_class.dfy` | the descriptor of a view subclass |
| `MenuForest` | `menu_forest.dfy` | the two loops of `menus` and the weight sort |
| `RootMenus` | `root_menu.dfy` | the `RootMenu` class and what its selection means |
| `Pagers` | `pager.dfy` | the pager, its flags, the last page, and `from_request` |
| `Access` | `access.dfy` | the `dispatch` decision and `admin_only` |
| `AdminContext` | `admin_context.dfy` | the `ROOT_MENU` tree of the template context: the menu forest handed to a `RootMenu` |

How the model is built:

- **Menus are objects.** `AdminMenu` is a class, because `menus` writes `view_name` and `sub_menus` in place. Two menus are the same when they are the same object, as in the source, which defines no `__eq__`.
- **Subclasses are an explicit sequence.** The subclasses a class would find by reflection are given as a sequence of `ViewClass` descriptors: the class name, an optional pattern string replacing `_regex_name`, and an optional menu.
- **The query is a sequence.** A `Pager` is a value, because nothing changes its fields after construction.
- **The request is a record.** The request's query string is a map from each key to its non-empty list of values. The user is a pair: an optional primary key and the staff flag.

## Model

| member | source | states |
|---|---|---|
| Text.IsUpper | adminlte/utils.py:87 | `isupper` on ASCII, as called at :87 and :102: exactly the letters 'A' to 'Z' |
| Text.ToLower | adminlte/utils.py:90 | the result is never upper case; an upper-case letter moves to the matching lower-case letter; any other character is kept |
| Text.LowerString | adminlte/utils.py:50 | same length; each character is lowered on its own |
| Text.RemoveAll | adminlte/utils.py:85 | `replace(pat, '')` as one left-to-right scan; the result is no longer than the input |
| Text.RemoveAllAbsent | adminlte/utils.py:85 | a name without "View" is left unchanged |
| Text.RemoveAllKeepsPlain | adminlte/utils.py:85 | text before the first possible match is copied and the scan resumes after it |
| Text.RemoveAllDropsFront | adminlte/utils.py:85 | a match at the front is dropped and the scan resumes after it |
| Text.RemoveAllSinglePass | adminlte/utils.py:85 | the scan does not re-examine text that closes up: "VViewiew" becomes "View", which still contains the pattern |
| ViewNames.StrippedPlainThenView | adminlte/utils.py:85 | a name with no 'V', followed by "View", is stripped back to that name |
| ViewNames.ViewListViewExample | adminlte/utils.py:85 | every "View" is deleted, not only a suffix: `ViewListView` is stripped to `List` |
| ViewNames.RegexName | adminlte/utils.py:82-94 | the character loop returns `^` + scan of the stripped name + `$` |
| ViewNames.PatternBodyNoUpper | adminlte/utils.py:86-92 | the pattern body contains no upper-case letter |
| ViewNames.PatternBodyUnslashed | adminlte/utils.py:86-92 | deleting the inserted '/' gives the stripped name in lower case |
| ViewNames.PatternBodySlashes | adminlte/utils.py:86-92 | the number of '/' in the body is the number of upper-case letters after index 0, plus any '/' already in the name |
| ViewNames.PatternBodyPrefix | adminlte/utils.py:86-92 | the scan only appends: the body of a prefix of the name is a prefix of the body |
| ViewNames.PatternSlashBefore | adminlte/utils.py:87-90 | an upper-case letter after index 0 is emitted as '/' and then its lower-case form, right where the scan of the text before it ends |
| ViewNames.ViewName | adminlte/utils.py:97-108 | the character loop returns "adminlte" + dotted scan of the stripped name |
| ViewNames.DottedBodyNoUpper | adminlte/utils.py:101-106 | the route name body contains no upper-case letter |
| ViewNames.DottedBodyUndotted | adminlte/utils.py:101-106 | deleting the dots gives the stripped name in lower case |
| ViewNames.DottedBodyDots | adminlte/utils.py:101-106 | the number of dots added equals the number of upper-case letters, the first included |
| ViewNames.DottedBodyPrefix | adminlte/utils.py:101-106 | the name scan only appends: the body of a prefix of the name is a prefix of the body |
| ViewNames.DottedDotBefore | adminlte/utils.py:102-104 | every upper-case letter, the first included, is emitted as '.' and then its lower-case form, right where the scan of the text before it ends |
| ViewNames.NameFollowsPattern | adminlte/utils.py:86-106 | for a capitalised name, the route name body is the pattern body with '/' read as '.', after one leading dot |
| ViewNames.UserListExample | adminlte/utils.py:82-108 | `UserListView` gives `^user/list$` and `adminlte.user.list` |
| ViewNames.IndexExample | adminlte/utils.py:82-108 | `IndexView` gives `^index$` and `adminlte.index` |
| UrlTable.UrlPatterns | adminlte/utils.py:111-121 | the loop builds the table of entries, view by view |
| UrlTable.TableLength | adminlte/utils.py:115-119 | the table has one entry per view plus one per index view |
| UrlTable.TableLayout | adminlte/utils.py:116-119 | each view's named entry is at its computed position, with its pattern and route name; an index view has the root entry right before it |
| UrlTable.TableEntriesFromViews | adminlte/utils.py:115-119 | every entry comes from some view; an unnamed entry is always the root entry of an index view |
| UrlTable.IndexViewTable | adminlte/utils.py:116-119 | the index view alone yields `^$` and then `^index$` named `adminlte.index` |
| AdminMenus.AdminMenu.constructor | adminlte/utils.py:17-26 | every field takes its argument, with icon `fa-circle-o`, no description, no parent and weight 0 by default; no view name, no children, no extra view names |
| AdminMenus.AdminMenu.Active | adminlte/utils.py:28-33 | a menu whose route name is unset is active for no route; an active menu has exactly that route name |
| MenuForest.AssignViewNames | adminlte/utils.py:61-66 | the first loop collects the declared menus in subclass order; each declared menu ends up with the route name of the last subclass declaring it |
| MenuForest.AssignedNameDefined | adminlte/utils.py:62-65 | a menu receives a route name exactly when some subclass declares it |
| MenuForest.AssignedNameIsLastView | adminlte/utils.py:62-65 | a menu declared by one subclass only carries that subclass's `_view_name` |
| MenuForest.CollectedMembers | adminlte/utils.py:62-66 | the collected menus are exactly those the subclasses declare |
| MenuForest.CollectedDeclared | adminlte/utils.py:62-66 | the collected list holds exactly the set of declared menus |
| MenuForest.AssembleForest | adminlte/utils.py:68-77 | the second loop returns the top-level list; each parent's children become its old list with each of its children appended once, in order |
| MenuForest.GraftedIsAppendNew | adminlte/utils.py:69-75 | a parent's children list is the old list extended by the menus naming it as parent, in order, skipping those already present |
| MenuForest.ChildrenOfMembers | adminlte/utils.py:73-75 | the children gathered for `p` are exactly the menus that declare `p` as parent |
| MenuForest.AppendNewMembers | adminlte/utils.py:74-75 | the old children stay in front; the new list holds exactly the old children and the new ones |
| MenuForest.AppendNewNoDuplicates | adminlte/utils.py:74-75 | attaching children never duplicates an entry |
| MenuForest.ChildAttachedOnce | adminlte/utils.py:74-75 | each child occurs exactly once in its parent's list |
| MenuForest.TopLevelGrows | adminlte/utils.py:68-77 | the loop only appends to the top-level list |
| MenuForest.TopLevelCovers | adminlte/utils.py:70-77 | every parentless menu, and the parent of every child menu, is on the top-level list |
| MenuForest.TopLevelOnly | adminlte/utils.py:70-77 | every top-level entry is a parentless menu or the parent of some menu |
| MenuForest.TopLevelCount | adminlte/utils.py:76-77 | the child branch adds a parent at most once |
| MenuForest.TopLevelRepeatsParent | adminlte/utils.py:70-77 | the parentless branch has no membership guard: a child collected before its parentless parent puts the parent on the list twice |
| MenuForest.Menus | adminlte/utils.py:59-79 | as written: both loops change the menus as stated, and the result is `None` |
| MenuForest.MenusSorted | adminlte/utils.py:59-79 | as intended: the same state changes, and the result is the top-level list sorted by weight |
| MenuForest.SortByWeight | adminlte/utils.py:79 | `sort(key=sort, reverse=True)` as an insertion sort that puts each menu before the first one that does not outweigh it; the result has the same length |
| MenuForest.SortByWeightSorted | adminlte/utils.py:79 | the sort yields descending weights and is a permutation |
| MenuForest.InsertByWeightSorted | adminlte/utils.py:79 | inserting into a sorted list keeps it sorted and adds exactly one element |
| MenuForest.SortByWeightStable | adminlte/utils.py:79 | menus of equal weight keep their relative order, as the stable sort does with `reverse=True` |
| MenuForest.InsertByWeightStable | adminlte/utils.py:79 | insertion places the new menu before the old menus of its weight |
| RootMenus.FirstActive | adminlte/utils.py:140-144 | the index found is the first active child, or the length when none is active |
| RootMenus.FirstActiveFound | adminlte/utils.py:140-144 | the search finds a child exactly when some child is active |
| RootMenus.RootMenu.constructor | adminlte/utils.py:126-133 | `menus` equals the initial menus, in order; the selection is that of adding them one by one from nothing selected |
| RootMenus.NewRootMenu | adminlte/utils.py:126-133 | a new tree holds the initial menus and the selection they determine, stated against the menus as they stand afterwards, since building the tree changes no menu |
| RootMenus.RootMenu.AddMenu | adminlte/utils.py:135-147 | the menu is appended; a menu active itself becomes current and leaves the parent alone; otherwise its first active child becomes current with the menu as parent; otherwise nothing changes; returns itself |
| RootMenus.ResolveNothing | adminlte/utils.py:126-147 | nothing is selected exactly when no menu and no child matches the route; then the parent is also unset |
| RootMenus.ResolveSound | adminlte/utils.py:126-147 | the current menu is active for the route; the parent is an added menu with an active child |
| RootMenus.ResolveLastHit | adminlte/utils.py:132-144 | the last matching menu decides: the menu itself, or its first active child under it as parent |
| RootMenus.StaleParent | adminlte/utils.py:137-138 | a later menu that is itself active replaces the current menu but keeps the earlier parent |
| Pagers.Slice | adminlte/utils.py:157 | slicing yields the items from start up to stop, stopping at the end of the query |
| Pagers.NewPager | adminlte/utils.py:152-160 | an error exactly when a slice bound is negative; otherwise the count, page, size and params as given, and the items from `(page-1)*size` in order |
| Pagers.StartBounds | adminlte/utils.py:155-156 | with positive page and size the page starts at a non-negative item, `size` before the next page |
| Pagers.PageItems | adminlte/utils.py:155-157 | with positive page and size the page holds `size` items, fewer at the end, or none past it |
| Pagers.HasNext | adminlte/utils.py:162-164 | `has_next` is `count > page * size`; its meaning is stated by the next lemma |
| Pagers.HasNextTwo | adminlte/utils.py:166-168 | `has_next_two` is `count > (page + 1) * size`; its meaning is stated by the lemma after next |
| Pagers.HasNextMeansNextPage | adminlte/utils.py:162-164 | `has_next` holds exactly when the next page has items |
| Pagers.HasNextTwoMeansPageAfterNext | adminlte/utils.py:166-168 | `has_next_two` holds exactly when the page after next has items, and it implies `has_next` |
| Pagers.CeilDiv | adminlte/utils.py:172 | the least integer not below the quotient, for either sign of the divisor |
| Pagers.LastPage | adminlte/utils.py:170-172 | an error exactly for size 0; for a positive size the least page count that covers all items; for a negative size the ceiling of the negative quotient |
| Pagers.LastPageBounds | adminlte/utils.py:162-172 | a page has a successor exactly when it is before the last page, and it is empty exactly when it is past it |
| Pagers.PagesCoverQuery | adminlte/utils.py:152-172 | the first `n` pages hold the first `n*size` items; the pages up to the last one hold the whole query in order |
| Pagers.NinetyFiveItems | adminlte/utils.py:152-172 | 95 items in pages of 20: page 3 holds items 40 to 59, both flags hold, and the last page is 5 |
| Pagers.ParseInt | adminlte/utils.py:176-177 | `int(s)` succeeds exactly on an optional sign followed by decimal digits; a value read with '-' is not positive, one without is not negative |
| Pagers.RequestedInt | adminlte/utils.py:176-177 | `int(request.GET.get(key, default))`: the key's last value parsed, or the default when the key is absent |
| Pagers.NatDigitsValue | adminlte/utils.py:176-177 | the numeral of a natural number reads back as that number |
| Pagers.ParseIntString | adminlte/utils.py:176-177 | `int` reads back every integer that `str` writes |
| Pagers.ParseIntRefuses | adminlte/utils.py:176-177 | empty text, a bare sign and letters are errors, not the default |
| Pagers.FromRequest | adminlte/utils.py:174-187 | page and size default to 1 and 20 and take the key's last value; a non-numeric value is an error, page first; params drops `page`, maps `size` to the parsed size and every other key to its first value, and has no other keys |
| Access.IsAdmin | adminlte/utils.py:47 | the user passes the check exactly when its primary key is present and not zero and it is staff, the negation of `not user.id or not user.is_staff` |
| Access.Dispatch | adminlte/utils.py:41-54 | a redirect to `adminlte.login` exactly when the login check applies and the user has no truthy id or is not staff; otherwise a handler exactly when the lowered method is accepted and defined, named by that lowered method |
| Text.LowerStringIdempotent | adminlte/utils.py:50 | lowering twice is lowering once |
| Access.DispatchIgnoresCase | adminlte/utils.py:50-51 | the method is matched regardless of case |
| Access.DispatchOptOut | adminlte/utils.py:46-48 | a view with `login_required` false never redirects; for an admin the flag makes no difference |
| Access.NoIdNoAccess | adminlte/utils.py:47 | an absent or zero primary key is turned away whatever the staff flag |
| Access.DefaultViewExample | adminlte/utils.py:50-53 | with the default method names and only `get` defined, an admin's `GET` is handled and a `POST` is not allowed |
| AdminContext.RootMenuFor | adminlte/utils.py:204 | the `ROOT_MENU` tree holds the top-level menus sorted by weight, and its selection is that of those menus after the route names and children have been filled in |
| Access.AdminOnly | adminlte/utils.py:213-220 | the wrapped function runs exactly for an admin, on the request and the further arguments as given, and its value passes through unchanged; anyone else is sent to `adminlte.login` |
| Access.AdminOnlyMatchesDispatch | adminlte/utils.py:216-217 | the wrapper and a view that keeps the login check turn away the same requests, to the same route |

## Findings

| source | as written | input that shows it | evidently intended | confidence | as-written member | corrected member |
|---|---|---|---|---|---|---|
| adminlte/utils.py:79 | returns the value of `last_menus.sort(...)`, which sorts in place and returns `None` | any view list, even one declaring a single parentless menu | return the sorted top-level list | not executed | MenuForest.Menus | MenuForest.MenusSorted |

## Left out

- Django machinery is not modelled: `View`, `as_view()`, `url`, `render` and `redirect`. A URL entry records the class name of the view it serves, and a redirect is the `Decision` or `Guarded` outcome naming the route.
- Subclasses found by reflection (`cls.__subclasses__()`) are an explicit input sequence. The `callable(_regex_name)` probe is an optional pattern string on the descriptor.
- `Pager.url_params` is not modelled, because its encoding rules lie in `urllib`.
- `admin_config` is modelled only for its `ROOT_MENU` entry, at utils.py:204. That entry is `AdminContext.RootMenuFor`: the intended `menus`, `MenuForest.MenusSorted`, followed by the `RootMenu` constructor. As written, the line hands the `None` from utils.py:79 to the constructor, whose loop cannot iterate it. The rest of `admin_config` is not modelled:
  - the branch on the anonymous user, which gets the fixed guest name '游客' and no join date (utils.py:196-198);
  - the "first last" display name and the join date of any other user (utils.py:200-201);
  - the fixed avatar path (utils.py:207).
  These are framework objects and string formatting, with no bearing on the menus.
- `get` and `http_method_not_allowed`, the two response builders, are not modelled. `dispatch` returns which of them runs.
- The view's handlers are an input: the set of method names it defines. Django's own `options` handler and its `head`-as-`get` fallback are not modelled.
- Characters are ASCII only. `isupper` and `lower` on other Unicode letters are not modelled.
- `int()` is modelled as an optional sign followed by decimal digits. Surrounding whitespace, digit group underscores and non-ASCII digits are not accepted.
- `math.ceil(count / size)` uses float division. It is modelled as exact integer ceiling division, so the rounding of very large counts is not captured.
- Pagers.NewPager: the query is a Django queryset, which refuses negative slice bounds. A page or size that makes a bound negative is therefore modelled as the `NegativeIndex` error, not as Python list slicing from the end. The queryset's own error type is not modelled.
- Pagers.LastPage: a size of 0 gives the `DivisionByZero` error for `ZeroDivisionError`.
- Pagers.FromRequest: the insertion order of the parameter dictionary is not modelled, because a map has no order.
- RootMenus.RootMenu.constructor: the selection is stated against the children lists as they were when the constructor started. Nothing in the constructor changes them. `RootMenus.NewRootMenu` restates it against the state after construction.
- MenuForest.SortByWeightStable: stability is stated through the weight filter `WithWeight`, not as the sorted result being unique.
- AdminMenus.AdminMenu.Active: the route is a string, so the call `active(None)`, which is true for a menu whose view name was never assigned, is not modelled. The only caller passes the resolved route name, which is a string.
- Access.AdminOnly: the further positional and keyword arguments are one value of a type parameter, handed on unchanged; how Python binds them is not modelled.
- MenuForest.AssignedNameIsLastView: when two subclasses share one menu object, the last one wins. That is stated through `AssignedName`, not as an error.
