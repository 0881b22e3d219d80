/** The URL table of the admin views (`AdminLTEBaseView.urlpatterns`):
    one named entry per view subclass, preceded by an unnamed root entry
    for the view whose pattern is `^index$`. */
module UrlTable {
  import opened Wrappers
  import opened ViewNames
  import opened AdminMenus
  import opened ViewClasses

  /** One `url(regex, view, name=...)` entry; the handler is identified by
      the class of the view it serves. */
  datatype UrlEntry = UrlEntry(regex: string, view: string, name: Option<string>)

  /** The pattern that also earns a root entry. */
  const IndexPattern := "^index$"

  /** The pattern of the root entry. */
  const RootPattern := "^$"

  /** The pattern a view is served under: its own attribute when it replaces
      `_regex_name` by a string, the derived pattern otherwise. */
  function RegexFor(v: ViewClass): string {
    match v.regexOverride
    case Some(r) => r
    case None => PatternOf(v.name)
  }

  predicate IsIndex(v: ViewClass) {
    RegexFor(v) == IndexPattern
  }

  /** The named entry of a view: its pattern under its route name. */
  function NamedEntry(v: ViewClass): UrlEntry {
    UrlEntry(RegexFor(v), v.name, Some(CanonicalName(v.name)))
  }

  /** The unnamed root entry of the index view. */
  function RootEntry(v: ViewClass): UrlEntry {
    UrlEntry(RootPattern, v.name, None)
  }

  /** What one view contributes, in order. */
  function EntriesOf(v: ViewClass): seq<UrlEntry> {
    (if IsIndex(v) then [RootEntry(v)] else []) + [NamedEntry(v)]
  }

  /** The table that the loop over the subclasses builds. */
  function Table(views: seq<ViewClass>): seq<UrlEntry> {
    if views == [] then [] else Table(views[..|views| - 1]) + EntriesOf(views[|views| - 1])
  }

  /** Number of views whose pattern is `^index$`. */
  function IndexCount(views: seq<ViewClass>): nat {
    if views == [] then 0
    else IndexCount(views[..|views| - 1]) + (if IsIndex(views[|views| - 1]) then 1 else 0)
  }

  /** Where the named entry of view `i` stands in the table. */
  function NamedPosition(views: seq<ViewClass>, i: nat): nat
    requires i < |views|
  {
    i + IndexCount(views[..i]) + (if IsIndex(views[i]) then 1 else 0)
  }

  /** `urlpatterns`: the loop over the subclasses, appending to a list. */
  method UrlPatterns(views: seq<ViewClass>) returns (patterns: seq<UrlEntry>)
    ensures patterns == Table(views)
  {
    patterns := [];
    var i := 0;
    while i < |views|
      invariant 0 <= i <= |views|
      invariant patterns == Table(views[..i])
    {
      var v := views[i];
      var regexName: string;
      match v.regexOverride {
        case Some(r) => regexName := r;
        case None => regexName := RegexName(v.name);
      }
      if regexName == IndexPattern {
        patterns := patterns + [UrlEntry(RootPattern, v.name, None)];
      }
      var name := ViewName(v.name);
      patterns := patterns + [UrlEntry(regexName, v.name, Some(name))];
      assert views[..i + 1][..i] == views[..i];
      i := i + 1;
    }
    assert views[..i] == views;
  }

  /** The table has one entry per view plus one per index view. */
  lemma {:induction false} TableLength(views: seq<ViewClass>)
    ensures |Table(views)| == |views| + IndexCount(views)
  {
    if views != [] {
      TableLength(views[..|views| - 1]);
    }
  }

  /** Every view has its named entry at its position, and an index view has
      the root entry immediately before it. */
  lemma {:induction false} TableLayout(views: seq<ViewClass>, i: nat)
    requires i < |views|
    ensures NamedPosition(views, i) < |Table(views)|
    ensures Table(views)[NamedPosition(views, i)] == NamedEntry(views[i])
    ensures IsIndex(views[i]) ==> Table(views)[NamedPosition(views, i) - 1] == RootEntry(views[i])
  {
    var init := views[..|views| - 1];
    TableLength(init);
    TableLength(views);
    if i < |init| {
      TableLayout(init, i);
      assert init[..i] == views[..i];
      assert NamedPosition(views, i) == NamedPosition(init, i);
    } else {
      assert views[..i] == init;
    }
  }

  /** The entry is one of those that view `v` contributes. */
  predicate FromView(e: UrlEntry, v: ViewClass) {
    e == NamedEntry(v) || (IsIndex(v) && e == RootEntry(v))
  }

  /** Every entry of the table is the named entry of some view or the root
      entry of an index view; in particular an entry without a name is
      always the root entry of an index view. */
  lemma {:induction false} TableEntriesFromViews(views: seq<ViewClass>, k: nat)
    requires k < |Table(views)|
    ensures exists i :: 0 <= i < |views| && FromView(Table(views)[k], views[i])
    ensures Table(views)[k].name == None ==>
      exists i :: 0 <= i < |views| && IsIndex(views[i]) && Table(views)[k] == RootEntry(views[i])
  {
    var init, v := views[..|views| - 1], views[|views| - 1];
    if k < |Table(init)| {
      TableEntriesFromViews(init, k);
      var i :| 0 <= i < |init| && FromView(Table(init)[k], init[i]);
      assert views[i] == init[i];
    } else {
      assert views[|views| - 1] == v;
    }
  }

  /** A table with the index view alone: the root entry, then the named one. */
  lemma IndexViewTable(views: seq<ViewClass>)
    requires views == [ViewClass("IndexView", None, null)]
    ensures Table(views) == [UrlEntry(RootPattern, "IndexView", None),
                             UrlEntry("^index$", "IndexView", Some("adminlte.index"))]
  {
    IndexExample(views[0].name);
    assert views[..0] == [];
  }
}
