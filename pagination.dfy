/** The paginator used by every feed (yatube/posts/utils.py): Django's
    `Paginator(object_list, per_page).get_page(number)` with its defaults
    (no orphans, an empty first page allowed). */
module Pagination {
  import opened Common

  /** NUMB_OF_POSTS: the number of posts on a feed page. */
  const PostsPerPage: nat := 10

  /** The exceptions of `Paginator.validate_number`. */
  datatype InvalidPage = PageNotAnInteger | EmptyPage

  /** A page of a paginated sequence: its items, its 1-based number and the
      number of pages of the whole sequence. */
  datatype Page<T> = Page(items: seq<T>, number: nat, numPages: nat)

  /** `Paginator.num_pages`: `max(1, ceil(count / perPage))`. */
  function NumPages(count: nat, perPage: nat): (r: nat)
    requires perPage > 0
    ensures 1 <= r
  {
    if count == 0 then 1 else (count - 1) / perPage + 1
  }

  /** The page count is the least positive one whose pages hold all the
      items, so an empty sequence still has one (empty) page. */
  lemma NumPagesBounds(count: nat, perPage: nat)
    requires perPage > 0
    ensures count <= NumPages(count, perPage) * perPage
    ensures NumPages(count, perPage) == 1 || (NumPages(count, perPage) - 1) * perPage < count
  {
    if count > 0 {
      var q := (count - 1) / perPage;
      assert count - 1 == q * perPage + (count - 1) % perPage;
      assert (q + 1) * perPage == q * perPage + perPage;
    }
  }

  predicate IsDigit(c: char)
  {
    '0' <= c <= '9'
  }

  predicate AllDigits(s: string)
  {
    forall i :: 0 <= i < |s| ==> IsDigit(s[i])
  }

  /** The value of a string of decimal digits, most significant first. */
  function DigitsValue(s: string): nat
    requires AllDigits(s)
  {
    if s == [] then 0
    else DigitsValue(s[..|s| - 1]) * 10 + (s[|s| - 1] as int - '0' as int)
  }

  /** Python's `int(s)` on the query string value, restricted to an optional
      sign followed by at least one ASCII decimal digit, of any length; every
      other string is taken as a `ValueError`. */
  function ParseInt(s: string): Option<int>
  {
    if |s| > 0 && (s[0] == '+' || s[0] == '-') then
      var digits := s[1..];
      if digits != [] && AllDigits(digits) then
        var v: int := DigitsValue(digits);
        Some(if s[0] == '-' then -v else v)
      else None
    else if s != [] && AllDigits(s) then Some(DigitsValue(s))
    else None
  }

  /** The decimal rendering of a page number, as a template writes it into a
      `?page=` link. */
  function Decimal(n: nat): (s: string)
    ensures s != [] && AllDigits(s)
  {
    if n < 10 then [('0' as int + n) as char]
    else Decimal(n / 10) + [('0' as int + n % 10) as char]
  }

  /** A page link rendered for page n is read back as page n. */
  lemma {:induction false} ParseDecimal(n: nat)
    ensures ParseInt(Decimal(n)) == Some(n)
  {
    DecimalValue(n);
  }

  lemma {:induction false} DecimalValue(n: nat)
    ensures DigitsValue(Decimal(n)) == n
  {
    if n >= 10 {
      DecimalValue(n / 10);
      var s := Decimal(n);
      assert s[..|s| - 1] == Decimal(n / 10);
    }
  }

  /** `Paginator.validate_number` applied to `request.GET.get('page')`. */
  function ValidateNumber(param: Option<string>, numPages: nat): (r: Result<nat, InvalidPage>)
    ensures r.Ok? ==> 1 <= r.value <= numPages && param.Some? && ParseInt(param.value) == Some(r.value as int)
    ensures r == Err(PageNotAnInteger) <==> param.None? || ParseInt(param.value).None?
    ensures r == Err(EmptyPage) <==>
      param.Some? && ParseInt(param.value).Some? && !(1 <= ParseInt(param.value).value <= numPages)
  {
    if param.None? then Err(PageNotAnInteger)
    else
      match ParseInt(param.value)
      case None => Err(PageNotAnInteger)
      case Some(n) => if n < 1 || n > numPages then Err(EmptyPage) else Ok(n as nat)
  }

  /** The page number `get_page` settles on: a missing or non-integer
      parameter gives the first page, an out-of-range one the last page. */
  function PageNumber(param: Option<string>, numPages: nat): (k: nat)
    requires numPages >= 1
    ensures 1 <= k <= numPages
    ensures (param.None? || ParseInt(param.value).None?) ==> k == 1
    ensures param.Some? && ParseInt(param.value).Some? ==>
      var n := ParseInt(param.value).value;
      k == if 1 <= n <= numPages then n else numPages
  {
    match ValidateNumber(param, numPages)
    case Ok(n) => n
    case Err(PageNotAnInteger) => 1
    case Err(EmptyPage) => numPages
  }

  /** `Paginator.page(k)`: items [(k-1)*perPage, min(k*perPage, count)). Every
      page but the last is full; no page is over-full. */
  function PageSlice<T>(items: seq<T>, perPage: nat, k: nat): (r: seq<T>)
    requires perPage > 0 && 1 <= k <= NumPages(|items|, perPage)
    ensures |r| <= perPage
    ensures k < NumPages(|items|, perPage) ==> |r| == perPage
    ensures k == NumPages(|items|, perPage) ==> (k - 1) * perPage + |r| == |items|
    ensures (k - 1) * perPage + |r| <= |items|
    ensures r == items[(k - 1) * perPage .. (k - 1) * perPage + |r|]
    ensures forall x :: x in r ==> x in items
  {
    PageBounds(|items|, perPage, k);
    var start := (k - 1) * perPage;
    items[start .. Min(start + perPage, |items|)]
  }

  lemma MulMonotone(a: nat, b: nat, c: nat)
    requires a <= b
    ensures a * c <= b * c
  {
  }

  lemma MulStep(j: nat, c: nat)
    ensures (j + 1) * c == j * c + c
  {
  }

  /** Where page k starts and ends relative to the item count. */
  lemma PageBounds(count: nat, perPage: nat, k: nat)
    requires perPage > 0 && 1 <= k <= NumPages(count, perPage)
    ensures (k - 1) * perPage <= count
    ensures k < NumPages(count, perPage) ==> (k - 1) * perPage + perPage < count
    ensures k == NumPages(count, perPage) ==> count <= (k - 1) * perPage + perPage
  {
    var n := NumPages(count, perPage);
    NumPagesBounds(count, perPage);
    var j: nat := k - 1;
    assert k * perPage == j * perPage + perPage;
    if k < n {
      MulMonotone(k, n - 1, perPage);
    } else if n > 1 {
      assert j * perPage < count;
    }
  }

  /** `paginator_function(request, posts, numb_of_posts)`. */
  function GetPage<T>(items: seq<T>, perPage: nat, param: Option<string>): (p: Page<T>)
    requires perPage > 0
    ensures p.numPages == NumPages(|items|, perPage)
    ensures 1 <= p.number <= p.numPages
    ensures p.number == PageNumber(param, p.numPages)
    ensures |p.items| <= perPage
    ensures p.items == PageSlice(items, perPage, p.number)
  {
    var n := NumPages(|items|, perPage);
    var k := PageNumber(param, n);
    Page(PageSlice(items, perPage, k), k, n)
  }

  /** Pages k, k+1, ..., num_pages one after the other. */
  function PagesFrom<T>(items: seq<T>, perPage: nat, k: nat): seq<T>
    requires perPage > 0 && 1 <= k <= NumPages(|items|, perPage)
    decreases NumPages(|items|, perPage) - k
  {
    if k == NumPages(|items|, perPage) then PageSlice(items, perPage, k)
    else PageSlice(items, perPage, k) + PagesFrom(items, perPage, k + 1)
  }

  lemma {:induction false} PagesFromSuffix<T>(items: seq<T>, perPage: nat, k: nat)
    requires perPage > 0 && 1 <= k <= NumPages(|items|, perPage)
    ensures (k - 1) * perPage <= |items|
    ensures PagesFrom(items, perPage, k) == items[(k - 1) * perPage..]
    decreases NumPages(|items|, perPage) - k
  {
    PageSplit(items, perPage, k);
    if k < NumPages(|items|, perPage) {
      var next := k + 1;
      PagesFromSuffix(items, perPage, next);
      assert next - 1 == k;
      assert PagesFrom(items, perPage, next) == items[k * perPage..];
    }
  }

  /** The items from page k onward are page k followed by the items from
      page k + 1 onward. */
  lemma PageSplit<T>(items: seq<T>, perPage: nat, k: nat)
    requires perPage > 0 && 1 <= k <= NumPages(|items|, perPage)
    ensures (k - 1) * perPage <= |items|
    ensures k == NumPages(|items|, perPage) ==> PageSlice(items, perPage, k) == items[(k - 1) * perPage..]
    ensures k < NumPages(|items|, perPage) ==>
      && k * perPage <= |items|
      && items[(k - 1) * perPage..] == PageSlice(items, perPage, k) + items[k * perPage..]
  {
    PageBounds(|items|, perPage, k);
    MulStep(k - 1, perPage);
    var lo := (k - 1) * perPage;
    var page := PageSlice(items, perPage, k);
    if k < NumPages(|items|, perPage) {
      var hi := lo + perPage;
      assert page == items[lo..hi];
      assert items[lo..] == items[lo..hi] + items[hi..];
    }
  }

  /** Concatenating pages 1..num_pages reproduces the sequence exactly: every
      item is on exactly one page, in its original position. */
  lemma PagesConcatenate<T>(items: seq<T>, perPage: nat)
    requires perPage > 0
    ensures PagesFrom(items, perPage, 1) == items
  {
    PagesFromSuffix(items, perPage, 1);
  }

  /** Item i of the sequence is item i % perPage of page i / perPage + 1. */
  lemma PageOfIndex<T>(items: seq<T>, perPage: nat, i: nat)
    requires perPage > 0 && i < |items|
    ensures 1 <= i / perPage + 1 <= NumPages(|items|, perPage)
    ensures i % perPage < |PageSlice(items, perPage, i / perPage + 1)|
    ensures PageSlice(items, perPage, i / perPage + 1)[i % perPage] == items[i]
  {
    var n := NumPages(|items|, perPage);
    var q := i / perPage;
    assert i == q * perPage + i % perPage;
    assert q + 1 <= n by {
      if q + 1 > n {
        MulMonotone(n, q, perPage);
      }
    }
    var page := PageSlice(items, perPage, q + 1);
    if q + 1 == n {
      assert (q + 1 - 1) * perPage + |page| == |items|;
    }
  }

  /** Thirteen posts with ten to a page: the first page (no parameter) holds
      ten of them, `?page=2` the other three, and `?page=3` falls back to the
      last page. */
  lemma ThirteenPosts<T>(items: seq<T>)
    requires |items| == 13
    ensures GetPage(items, PostsPerPage, None).number == 1
    ensures |GetPage(items, PostsPerPage, None).items| == 10
    ensures |GetPage(items, PostsPerPage, Some("2")).items| == 3
    ensures GetPage(items, PostsPerPage, Some("3")).number == 2
    ensures GetPage(items, PostsPerPage, Some("abc")).number == 1
  {
    assert NumPages(13, 10) == 2;
    assert ParseInt("2") == Some(2) by {
      assert "2"[..0] == "";
    }
    assert ParseInt("3") == Some(3) by {
      assert "3"[..0] == "";
    }
    assert ParseInt("abc") == None by {
      assert !IsDigit("abc"[0]);
    }
  }
}
