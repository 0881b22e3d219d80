/** Offset pagination of a query (`Pager`): one page of items, the flags
    the template uses to draw the next-page links, the number of the last
    page, and the construction from the query string of a request. */
module Pagers {
  import opened Wrappers

  /** A value of the parameter map: the query-string text of a key, or the
      page size put back as a number. */
  datatype ParamValue = Text(text: string) | Number(number: int)

  /** Why a pager could not be built: the query-string value of `key` is
      not a decimal integer, the page and size ask the query for a
      negative bound, or the last page is asked of a pager of size 0. */
  datatype PagerError = NotANumber(key: string) | NegativeIndex | DivisionByZero

  /** One page of a query of `count` items. */
  datatype Pager<T> = Pager(count: nat, items: seq<T>, page: int, size: int,
                            params: Option<map<string, ParamValue>>)

  /** Slicing the query with non-negative bounds: bounds past the end are
      cut back to the end and a start past the stop gives nothing. */
  function Slice<T>(query: seq<T>, start: nat, stop: nat): (r: seq<T>)
    ensures |r| == if start < stop && start < |query| then (if stop < |query| then stop else |query|) - start else 0
    ensures forall k :: 0 <= k < |r| ==> start + k < |query| && r[k] == query[start + k]
  {
    var lo := if start < |query| then start else |query|;
    var hi := if stop < |query| then stop else |query|;
    if lo < hi then query[lo..hi] else []
  }

  /** The first item of page `page`. */
  function Start(page: int, size: int): int {
    (page - 1) * size
  }

  /** `Pager(query, page, size, params)`: counts the query and keeps the
      items of page `page`. The query refuses negative slice bounds. */
  function NewPager<T>(query: seq<T>, page: int, size: int, params: Option<map<string, ParamValue>>): (r: Result<Pager<T>, PagerError>)
    ensures r.Err? <==> Start(page, size) < 0 || Start(page, size) + size < 0
    ensures r.Err? ==> r.error == NegativeIndex
    ensures r.Ok? ==> r.value.count == |query| && r.value.page == page &&
                      r.value.size == size && r.value.params == params
    ensures r.Ok? ==> r.value.items == Slice(query, Start(page, size), Start(page, size) + size)
    ensures r.Ok? ==> forall k :: 0 <= k < |r.value.items| ==>
      Start(page, size) + k < |query| && r.value.items[k] == query[Start(page, size) + k]
  {
    var start := Start(page, size);
    var end := start + size;
    if start < 0 || end < 0 then Err(NegativeIndex)
    else Ok(Pager(|query|, Slice(query, start, end), page, size, params))
  }

  /** `has_next`: items remain after this page. */
  predicate HasNext<T>(p: Pager<T>) {
    p.count > p.page * p.size
  }

  /** `has_next_two`: items remain after the next page. */
  predicate HasNextTwo<T>(p: Pager<T>) {
    p.count > (p.page + 1) * p.size
  }

  /** The least integer not below the quotient `a / b`. */
  function CeilDiv(a: int, b: int): (q: int)
    requires b != 0
    ensures b > 0 ==> a <= q * b < a + b
    ensures b < 0 ==> a + b < q * b <= a
  {
    if b > 0 then -((-a) / b) else a / b
  }

  /** `last_page`: the number of pages needed for all items. */
  function LastPage<T>(p: Pager<T>): (r: Result<int, PagerError>)
    ensures r.Err? <==> p.size == 0
    ensures r.Ok? && p.size > 0 ==> (r.value - 1) * p.size < p.count <= r.value * p.size
    ensures r.Ok? && p.size < 0 ==> p.count + p.size < r.value * p.size <= p.count
  {
    if p.size == 0 then Err(DivisionByZero) else Ok(CeilDiv(p.count, p.size))
  }

  // ----- pages of a query -----

  /** A positive page number and size start the page at a non-negative
      item, `size` items before the start of the next page. */
  lemma StartBounds(page: int, size: int)
    requires page >= 1 && size >= 1
    ensures 0 <= Start(page, size) && Start(page, size) + size == page * size
  {
    assert (page - 1) * size >= 0;
  }

  /** With a positive page number and size, the pager is built and its
      items are the slice of the query that the page covers. */
  lemma PageItems<T>(query: seq<T>, page: int, size: int, params: Option<map<string, ParamValue>>)
    requires page >= 1 && size >= 1
    ensures NewPager(query, page, size, params).Ok?
    ensures var p := NewPager(query, page, size, params).value;
      |p.items| == (if Start(page, size) >= |query| then 0
                    else if |query| - Start(page, size) < size then |query| - Start(page, size)
                    else size)
  {
    StartBounds(page, size);
  }

  /** `has_next` says that the next page has items. */
  lemma HasNextMeansNextPage<T>(query: seq<T>, page: int, size: int, params: Option<map<string, ParamValue>>)
    requires page >= 1 && size >= 1
    ensures NewPager(query, page, size, params).Ok? && NewPager(query, page + 1, size, params).Ok?
    ensures HasNext(NewPager(query, page, size, params).value) <==>
      NewPager(query, page + 1, size, params).value.items != []
  {
    PageItems(query, page, size, params);
    PageItems(query, page + 1, size, params);
    assert Start(page + 1, size) == page * size;
  }

  /** `has_next_two` says that the page after the next has items, and it
      implies `has_next`. */
  lemma HasNextTwoMeansPageAfterNext<T>(query: seq<T>, page: int, size: int, params: Option<map<string, ParamValue>>)
    requires page >= 1 && size >= 1
    ensures NewPager(query, page, size, params).Ok? && NewPager(query, page + 2, size, params).Ok?
    ensures HasNextTwo(NewPager(query, page, size, params).value) <==>
      NewPager(query, page + 2, size, params).value.items != []
    ensures HasNextTwo(NewPager(query, page, size, params).value) ==> HasNext(NewPager(query, page, size, params).value)
  {
    PageItems(query, page, size, params);
    PageItems(query, page + 2, size, params);
    assert Start(page + 2, size) == (page + 1) * size;
    assert (page + 1) * size == page * size + size;
  }

  /** A page before the last one has a successor, the last one does not;
      the pages past the last one are empty. */
  lemma LastPageBounds<T>(query: seq<T>, page: int, size: int, params: Option<map<string, ParamValue>>)
    requires page >= 1 && size >= 1
    ensures NewPager(query, page, size, params).Ok?
    ensures var p := NewPager(query, page, size, params).value;
      LastPage(p).Ok? &&
      (HasNext(p) <==> page < LastPage(p).value) &&
      (p.items == [] <==> page > LastPage(p).value)
  {
    PageItems(query, page, size, params);
    var p := NewPager(query, page, size, params).value;
    var n := LastPage(p).value;
    if page < n {
      MulLe(page, n - 1, size);
    } else {
      MulLe(n, page, size);
    }
    if page > n {
      MulLe(n, page - 1, size);
    } else {
      MulLe(page - 1, n - 1, size);
    }
  }

  lemma MulLe(a: int, b: int, c: int)
    requires a <= b && c >= 0
    ensures a * c <= b * c
  {
    assert b * c - a * c == (b - a) * c;
  }

  /** The items of the first `n` pages, in order. */
  function PagesUpTo<T>(query: seq<T>, size: int, n: nat): seq<T>
    requires size >= 1
  {
    if n == 0 then [] else PagesUpTo(query, size, n - 1) + NewPager(query, n, size, None).value.items
  }

  /** The first `n` pages hold exactly the first `n * size` items, so the
      pages up to the last one hold the whole query, each item once and in
      order. */
  lemma {:induction false} PagesCoverQuery<T>(query: seq<T>, size: int, n: nat)
    requires size >= 1
    ensures PagesUpTo(query, size, n) == query[..if n * size < |query| then n * size else |query|]
    ensures LastPage(NewPager(query, 1, size, None).value).Ok?
    ensures n == LastPage(NewPager(query, 1, size, None).value).value ==> PagesUpTo(query, size, n) == query
  {
    if n > 0 {
      PagesCoverQuery(query, size, n - 1);
      PageItems(query, n, size, None);
      var items := NewPager(query, n, size, None).value.items;
      var lo := if (n - 1) * size < |query| then (n - 1) * size else |query|;
      var hi := if n * size < |query| then n * size else |query|;
      assert (n - 1) * size == n * size - size;
      assert items == query[lo..hi];
      assert query[..lo] + query[lo..hi] == query[..hi];
    }
    var m := LastPage(NewPager(query, 1, size, None).value).value;
    if n == m {
      assert |query| <= n * size;
    }
  }

  /** Ninety-five items in pages of twenty: page three holds items 40 to 59,
      two more pages follow and there are five pages. */
  lemma NinetyFiveItems<T>(query: seq<T>)
    requires |query| == 95
    ensures var p := NewPager(query, 3, 20, None).value;
      p.items == query[40..60] && HasNext(p) && HasNextTwo(p) && LastPage(p) == Ok(5)
  {
    var p := NewPager(query, 3, 20, None).value;
    assert p.items == query[40..60];
  }

  // ----- the query string -----

  predicate IsDigit(c: char) {
    '0' <= c <= '9'
  }

  predicate AllDigits(s: string) {
    forall i :: 0 <= i < |s| ==> IsDigit(s[i])
  }

  /** The value of a string of decimal digits. */
  function DigitsValue(s: string): nat
    requires AllDigits(s)
  {
    if s == [] then 0 else 10 * DigitsValue(s[..|s| - 1]) + (s[|s| - 1] as int - '0' as int)
  }

  /** An optional sign followed by at least one decimal digit. */
  predicate IsNumeral(s: string) {
    var digits := if |s| > 0 && (s[0] == '-' || s[0] == '+') then s[1..] else s;
    |digits| > 0 && AllDigits(digits)
  }

  /** `int(s)` for a decimal numeral: an optional sign followed by at least
      one digit; anything else is refused. */
  function ParseInt(s: string): (r: Option<int>)
    ensures r.Some? <==> IsNumeral(s)
    ensures r.Some? && s[0] == '-' ==> r.value <= 0
    ensures r.Some? && s[0] != '-' ==> r.value >= 0
  {
    if |s| > 0 && (s[0] == '-' || s[0] == '+') then
      var digits := s[1..];
      if |digits| > 0 && AllDigits(digits) then
        var v: int := DigitsValue(digits);
        Some(if s[0] == '-' then -v else v)
      else None
    else if |s| > 0 && AllDigits(s) then Some(DigitsValue(s))
    else None
  }

  /** The decimal numeral of a natural number. */
  function NatDigits(n: nat): (s: string)
    ensures |s| > 0 && AllDigits(s)
  {
    if n < 10 then [('0' as int + n) as char] else NatDigits(n / 10) + [('0' as int + n % 10) as char]
  }

  /** The decimal numeral of an integer, as `str` writes it. */
  function IntString(i: int): string {
    if i < 0 then "-" + NatDigits(-i) else NatDigits(i)
  }

  lemma {:induction false} NatDigitsValue(n: nat)
    ensures DigitsValue(NatDigits(n)) == n
  {
    if n >= 10 {
      NatDigitsValue(n / 10);
      var s := NatDigits(n);
      assert s[..|s| - 1] == NatDigits(n / 10);
    }
  }

  /** Parsing reads back every integer that `str` writes. */
  lemma ParseIntString(i: int)
    ensures ParseInt(IntString(i)) == Some(i)
  {
    var s := IntString(i);
    if i < 0 {
      NatDigitsValue(-i);
      assert s[0] == '-' && s[1..] == NatDigits(-i);
    } else {
      NatDigitsValue(i);
      assert IsDigit(s[0]);
    }
  }

  /** Text that is not a numeral is refused rather than replaced by the
      default. */
  lemma ParseIntRefuses()
    ensures ParseInt("") == None && ParseInt("-") == None && ParseInt("two") == None
  {
    assert !IsDigit("two"[0]);
  }

  /** The parsed query string of a request: each key with the values it was
      given, in order; a key present always has at least one value. */
  type QueryDict = map<string, seq<string>>

  /** `request.GET.get(key, default)` passed through `int`: the last value
      given for `key`, parsed, or the default when the key is absent. */
  function RequestedInt(get: QueryDict, key: string, default: int): Option<int>
    requires key in get ==> |get[key]| > 0
  {
    if key in get then ParseInt(get[key][|get[key]| - 1]) else Some(default)
  }

  /** `from_request`: the page and the size come from the query string,
      defaulting to 1 and 20; every other key keeps the first of its
      values and the size is put back as a number. */
  method FromRequest<T>(query: seq<T>, get: QueryDict) returns (r: Result<Pager<T>, PagerError>)
    requires forall k :: k in get ==> |get[k]| > 0
    ensures RequestedInt(get, "page", 1).None? ==> r == Err(NotANumber("page"))
    ensures RequestedInt(get, "page", 1).Some? && RequestedInt(get, "size", 20).None? ==> r == Err(NotANumber("size"))
    ensures r.Ok? ==> RequestedInt(get, "page", 1) == Some(r.value.page) &&
                      RequestedInt(get, "size", 20) == Some(r.value.size)
    ensures RequestedInt(get, "page", 1).Some? && RequestedInt(get, "size", 20).Some? ==>
      (r.Err? <==> NewPager(query, RequestedInt(get, "page", 1).value, RequestedInt(get, "size", 20).value, None).Err?)
    ensures r.Ok? ==>
      (r.value.count == |query| &&
       r.value.items == NewPager(query, r.value.page, r.value.size, None).value.items)
    ensures r.Ok? ==>
      (r.value.params.Some? &&
       var params := r.value.params.value;
       "page" !in params && "size" in params && params["size"] == Number(r.value.size) &&
       (forall k :: k in get && k != "page" && k != "size" ==> k in params && params[k] == Text(get[k][0])) &&
       (forall k :: k in params ==> k in get || k == "size"))
  {
    var page := 1;
    if "page" in get {
      var parsed := ParseInt(get["page"][|get["page"]| - 1]);
      if parsed.None? {
        return Err(NotANumber("page"));
      }
      page := parsed.value;
    }
    var size := 20;
    if "size" in get {
      var parsed := ParseInt(get["size"][|get["size"]| - 1]);
      if parsed.None? {
        return Err(NotANumber("size"));
      }
      size := parsed.value;
    }
    var params := map k | k in get :: Text(get[k][0]);
    if "page" in params {
      params := params - {"page"};
    }
    if "size" in params {
      params := params - {"size"};
    }
    params := params["size" := Number(size)];
    r := NewPager(query, page, size, Some(params));
  }
}
