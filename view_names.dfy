/** The URL pattern and the dotted route name that a view class derives
    from its own class name (`_regex_name` and `_view_name` of
    `AdminLTEBaseView`). Both first delete every "View" from the name and
    then scan it character by character. */
module ViewNames {
  import opened Text

  /** The word deleted from a class name, wherever it occurs, before the scan. */
  const ViewWord := "View"

  /** The namespace that prefixes every route name. */
  const Namespace := "adminlte"

  /** The class name with every occurrence of "View" deleted. */
  function Stripped(className: string): string {
    RemoveAll(className, ViewWord)
  }

  /** What the pattern scan emits for one character: an upper-case letter
      becomes its lower-case form, preceded by '/' unless it stands at
      index 0; any other character is copied. */
  function PatternPiece(c: char, first: bool): string {
    if IsUpper(c) then (if first then [] else ['/']) + [ToLower(c)] else [c]
  }

  /** The pattern scan over a whole (stripped) name. */
  function PatternBody(s: string): string {
    if s == [] then [] else PatternBody(s[..|s| - 1]) + PatternPiece(s[|s| - 1], |s| == 1)
  }

  /** The anchored URL pattern of a class. */
  function PatternOf(className: string): string {
    "^" + PatternBody(Stripped(className)) + "$"
  }

  /** What the name scan emits for one character: an upper-case letter,
      the first one included, becomes '.' and its lower-case form. */
  function NamePiece(c: char): string {
    if IsUpper(c) then ['.', ToLower(c)] else [c]
  }

  /** The name scan over a whole (stripped) name. */
  function DottedBody(s: string): string {
    if s == [] then [] else DottedBody(s[..|s| - 1]) + NamePiece(s[|s| - 1])
  }

  /** The route name of a class. */
  function CanonicalName(className: string): string {
    Namespace + DottedBody(Stripped(className))
  }

  /** `_regex_name`: the loop that builds the pattern in a character list. */
  method RegexName(className: string) returns (r: string)
    ensures r == PatternOf(className)
  {
    var name := RemoveAll(className, ViewWord);
    var charList: string := [];
    var index := 0;
    while index < |name|
      invariant 0 <= index <= |name|
      invariant charList == PatternBody(name[..index])
    {
      var c := name[index];
      if IsUpper(c) {
        if index != 0 {
          charList := charList + ['/'];
        }
        charList := charList + [ToLower(c)];
      } else {
        charList := charList + [c];
      }
      assert name[..index + 1][..index] == name[..index];
      index := index + 1;
    }
    assert name[..index] == name;
    r := "^" + charList + "$";
  }

  /** `_view_name`: the loop that builds the route name in a character list. */
  method ViewName(className: string) returns (r: string)
    ensures r == CanonicalName(className)
  {
    var name := RemoveAll(className, ViewWord);
    var charList: string := [];
    var index := 0;
    while index < |name|
      invariant 0 <= index <= |name|
      invariant charList == DottedBody(name[..index])
    {
      var c := name[index];
      if IsUpper(c) {
        charList := charList + ['.'];
        charList := charList + [ToLower(c)];
      } else {
        charList := charList + [c];
      }
      assert name[..index + 1][..index] == name[..index];
      index := index + 1;
    }
    assert name[..index] == name;
    r := Namespace + charList;
  }

  /** The pattern body contains no upper-case letter. */
  lemma {:induction false} PatternBodyNoUpper(s: string)
    ensures NoUpper(PatternBody(s))
  {
    if s != [] {
      PatternBodyNoUpper(s[..|s| - 1]);
    }
  }

  /** Deleting the separators from the pattern body gives back the stripped
      name in lower case: the scan inserts '/' and changes case, nothing else. */
  lemma {:induction false} PatternBodyUnslashed(s: string)
    requires forall i :: 0 <= i < |s| ==> s[i] != '/'
    ensures Without(PatternBody(s), '/') == LowerString(s)
  {
    if s != [] {
      var p, c := s[..|s| - 1], s[|s| - 1];
      PatternBodyUnslashed(p);
      WithoutAppend(PatternBody(p), PatternPiece(c, |s| == 1), '/');
      if IsUpper(c) && |s| != 1 {
        WithoutAppend(['/'], [ToLower(c)], '/');
      }
    }
  }

  /** The scan inserts exactly one '/' before every upper-case letter
      except one at index 0. */
  lemma {:induction false} PatternBodySlashes(s: string)
    requires |s| > 0
    ensures CountChar(PatternBody(s), '/')
         == CountChar(s, '/') + CountUpper(s) - (if IsUpper(s[0]) then 1 else 0)
  {
    var p, c := s[..|s| - 1], s[|s| - 1];
    CountCharAppend(PatternBody(p), PatternPiece(c, |s| == 1), '/');
    if |s| == 1 {
      assert p == [];
    } else {
      PatternBodySlashes(p);
      if IsUpper(c) {
        CountCharAppend(['/'], [ToLower(c)], '/');
      }
    }
  }

  /** The scan only appends: the body of a prefix is a prefix of the body. */
  lemma {:induction false} PatternBodyPrefix(s: string, n: nat)
    requires n <= |s|
    ensures PatternBody(s[..n]) <= PatternBody(s)
    decreases |s| - n
  {
    if n < |s| {
      var p := s[..|s| - 1];
      PatternBodyPrefix(p, n);
      assert p[..n] == s[..n];
    } else {
      assert s[..n] == s;
    }
  }

  /** An upper-case letter after index 0 is emitted as '/' followed by its
      lower-case form, at the place where the scan of the text before it
      ends. */
  lemma PatternSlashBefore(s: string, i: nat)
    requires 0 < i < |s| && IsUpper(s[i])
    ensures var k := |PatternBody(s[..i])|;
      k + 2 <= |PatternBody(s)| && PatternBody(s)[k] == '/' && PatternBody(s)[k + 1] == ToLower(s[i])
  {
    assert s[..i + 1] == s[..i] + [s[i]];
    PatternStep(s[..i], s[i], s[..i + 1]);
    PatternBodyPrefix(s, i + 1);
  }

  /** The route name body contains no upper-case letter. */
  lemma {:induction false} DottedBodyNoUpper(s: string)
    ensures NoUpper(DottedBody(s))
  {
    if s != [] {
      DottedBodyNoUpper(s[..|s| - 1]);
    }
  }

  /** Deleting the dots from the route name body gives back the stripped
      name in lower case. */
  lemma {:induction false} DottedBodyUndotted(s: string)
    requires forall i :: 0 <= i < |s| ==> s[i] != '.'
    ensures Without(DottedBody(s), '.') == LowerString(s)
  {
    if s != [] {
      var p, c := s[..|s| - 1], s[|s| - 1];
      DottedBodyUndotted(p);
      WithoutAppend(DottedBody(p), NamePiece(c), '.');
      if IsUpper(c) {
        WithoutAppend(['.'], [ToLower(c)], '.');
      }
    }
  }

  /** The number of dots the scan adds is the number of upper-case letters,
      the first one included. */
  lemma {:induction false} DottedBodyDots(s: string)
    ensures CountChar(DottedBody(s), '.') == CountChar(s, '.') + CountUpper(s)
  {
    if s != [] {
      var p, c := s[..|s| - 1], s[|s| - 1];
      DottedBodyDots(p);
      CountCharAppend(DottedBody(p), NamePiece(c), '.');
      if IsUpper(c) {
        CountCharAppend(['.'], [ToLower(c)], '.');
      }
    }
  }

  /** For a name that starts with a capital and contains neither separator,
      the route name body is the pattern body with each '/' read as '.',
      behind one more leading dot: the two scans split the name at the
      same places. */
  lemma {:induction false} NameFollowsPattern(s: string)
    requires |s| > 0 && IsUpper(s[0])
    requires forall i :: 0 <= i < |s| ==> s[i] != '/' && s[i] != '.'
    ensures DottedBody(s) == "." + Swap(PatternBody(s), '/', '.')
  {
    var p, c := s[..|s| - 1], s[|s| - 1];
    if |s| == 1 {
      assert p == [];
      assert PatternBody(s) == [ToLower(c)];
    } else {
      NameFollowsPattern(p);
      SwapAppend(PatternBody(p), PatternPiece(c, false), '/', '.');
      if IsUpper(c) {
        SwapAppend(['/'], [ToLower(c)], '/', '.');
      }
    }
  }

  /** The name scan only appends: the body of a prefix is a prefix of the body. */
  lemma {:induction false} DottedBodyPrefix(s: string, n: nat)
    requires n <= |s|
    ensures DottedBody(s[..n]) <= DottedBody(s)
    decreases |s| - n
  {
    if n < |s| {
      var p := s[..|s| - 1];
      DottedBodyPrefix(p, n);
      assert p[..n] == s[..n];
    } else {
      assert s[..n] == s;
    }
  }

  /** Every upper-case letter, the first included, is emitted as '.'
      followed by its lower-case form, where the scan of the text before it
      ends. */
  lemma DottedDotBefore(s: string, i: nat)
    requires i < |s| && IsUpper(s[i])
    ensures var k := |DottedBody(s[..i])|;
      k + 2 <= |DottedBody(s)| && DottedBody(s)[k] == '.' && DottedBody(s)[k + 1] == ToLower(s[i])
  {
    assert s[..i + 1] == s[..i] + [s[i]];
    NameStep(s[..i], s[i], s[..i + 1]);
    DottedBodyPrefix(s, i + 1);
  }

  lemma {:induction false} WithoutAppend(a: string, b: string, c: char)
    ensures Without(a + b, c) == Without(a, c) + Without(b, c)
    decreases |b|
  {
    if b == [] {
      assert a + b == a;
    } else {
      assert (a + b)[..|a + b| - 1] == a + b[..|b| - 1];
      WithoutAppend(a, b[..|b| - 1], c);
    }
  }

  lemma {:induction false} CountCharAppend(a: string, b: string, c: char)
    ensures CountChar(a + b, c) == CountChar(a, c) + CountChar(b, c)
    decreases |b|
  {
    if b == [] {
      assert a + b == a;
    } else {
      assert (a + b)[..|a + b| - 1] == a + b[..|b| - 1];
      CountCharAppend(a, b[..|b| - 1], c);
    }
  }

  lemma {:induction false} SwapAppend(a: string, b: string, x: char, y: char)
    ensures Swap(a + b, x, y) == Swap(a, x, y) + Swap(b, x, y)
    decreases |b|
  {
    if b == [] {
      assert a + b == a;
    } else {
      assert (a + b)[..|a + b| - 1] == a + b[..|b| - 1];
      SwapAppend(a, b[..|b| - 1], x, y);
    }
  }

  /** One more character extends the pattern scan by that character's piece. */
  lemma PatternStep(p: string, c: char, s: string)
    requires s == p + [c]
    ensures PatternBody(s) == PatternBody(p) + PatternPiece(c, p == [])
  {
    assert s[..|p|] == p;
  }

  /** One more character extends the name scan by that character's piece. */
  lemma NameStep(p: string, c: char, s: string)
    requires s == p + [c]
    ensures DottedBody(s) == DottedBody(p) + NamePiece(c)
  {
    assert s[..|p|] == p;
  }

  /** `UserListView` is served at `^user/list$` under the name
      `adminlte.user.list`. */
  lemma UserListExample(className: string)
    requires className == "UserListView"
    ensures PatternOf(className) == "^user/list$"
    ensures CanonicalName(className) == "adminlte.user.list"
  {
    assert className == "UserList" + ViewWord;
    StrippedPlainThenView("UserList");
    UserListScansPattern();
    UserListScansName();
  }

  lemma UserListScansPattern()
    ensures PatternBody("UserList") == "user/list"
  {
    PatternStep([], 'U', "U");
    assert PatternBody("U") == "u";
    PatternStep("U", 's', "Us");
    assert PatternBody("Us") == "us";
    PatternStep("Us", 'e', "Use");
    assert PatternBody("Use") == "use";
    PatternStep("Use", 'r', "User");
    assert PatternBody("User") == "user";
    PatternStep("User", 'L', "UserL");
    assert PatternBody("UserL") == "user/l";
    PatternStep("UserL", 'i', "UserLi");
    assert PatternBody("UserLi") == "user/li";
    PatternStep("UserLi", 's', "UserLis");
    assert PatternBody("UserLis") == "user/lis";
    PatternStep("UserLis", 't', "UserList");
    assert PatternBody("UserList") == "user/list";
  }

  lemma UserListScansName()
    ensures DottedBody("UserList") == ".user.list"
  {
    NameStep([], 'U', "U");
    assert DottedBody("U") == ".u";
    NameStep("U", 's', "Us");
    assert DottedBody("Us") == ".us";
    NameStep("Us", 'e', "Use");
    assert DottedBody("Use") == ".use";
    NameStep("Use", 'r', "User");
    assert DottedBody("User") == ".user";
    NameStep("User", 'L', "UserL");
    assert DottedBody("UserL") == ".user.l";
    NameStep("UserL", 'i', "UserLi");
    assert DottedBody("UserLi") == ".user.li";
    NameStep("UserLi", 's', "UserLis");
    assert DottedBody("UserLis") == ".user.lis";
    NameStep("UserLis", 't', "UserList");
    assert DottedBody("UserList") == ".user.list";
  }

  /** `IndexView` is served at `^index$`, the pattern that also earns the
      root entry of the URL table. */
  lemma IndexExample(className: string)
    requires className == "IndexView"
    ensures PatternOf(className) == "^index$"
    ensures CanonicalName(className) == "adminlte.index"
  {
    assert className == "Index" + ViewWord;
    StrippedPlainThenView("Index");
    IndexScansPattern();
    IndexScansName();
  }

  lemma IndexScansPattern()
    ensures PatternBody("Index") == "index"
  {
    PatternStep([], 'I', "I");
    assert PatternBody("I") == "i";
    PatternStep("I", 'n', "In");
    assert PatternBody("In") == "in";
    PatternStep("In", 'd', "Ind");
    assert PatternBody("Ind") == "ind";
    PatternStep("Ind", 'e', "Inde");
    assert PatternBody("Inde") == "inde";
    PatternStep("Inde", 'x', "Index");
    assert PatternBody("Index") == "index";
  }

  lemma IndexScansName()
    ensures DottedBody("Index") == ".index"
  {
    NameStep([], 'I', "I");
    assert DottedBody("I") == ".i";
    NameStep("I", 'n', "In");
    assert DottedBody("In") == ".in";
    NameStep("In", 'd', "Ind");
    assert DottedBody("Ind") == ".ind";
    NameStep("Ind", 'e', "Inde");
    assert DottedBody("Inde") == ".inde";
    NameStep("Inde", 'x', "Index");
    assert DottedBody("Index") == ".index";
  }

  /** Every "View" is deleted, not only the trailing one. */
  lemma ViewListViewExample()
    ensures Stripped("ViewListView") == "List"
  {
    assert "ViewListView" == ViewWord + ("List" + ViewWord);
    RemoveAllDropsFront("List" + ViewWord, ViewWord);
    StrippedPlainThenView("List");
  }

  /** A name without any 'V' followed by "View" is stripped to that name. */
  lemma StrippedPlainThenView(a: string)
    requires forall i :: 0 <= i < |a| ==> a[i] != 'V'
    ensures Stripped(a + ViewWord) == a
  {
    RemoveAllKeepsPlain(a, ViewWord, ViewWord);
    assert ViewWord == ViewWord + [];
    RemoveAllDropsFront([], ViewWord);
  }
}
