/**
  The pagination helper of yatube/posts/utils.py: a listing is cut into pages of
  `NumOfPosts` items and the `page` query parameter chooses one, following the
  contract of Django's `Paginator.get_page` (with `orphans == 0` and
  `allow_empty_first_page == True`, the defaults the helper uses).
*/
module Pagination {

  /** `NUM_OF_POSTS`: the fixed page size. */
  const NumOfPosts: nat := 10

  /** The raw `page` query parameter: missing, not parseable as an integer, or an integer. */
  datatype PageParam = Absent | NotAnInteger | Number(n: int)

  /** What `get_page` returns: the page's items, its 1-based number and the total page count. */
  datatype Page<T> = Page(objectList: seq<T>, number: nat, numPages: nat)

  function Min(a: int, b: int): int { if a < b then a else b }

  /** `Paginator.num_pages`: at least one page, even for an empty listing. */
  function NumPages(count: nat): (r: nat)
    ensures r >= 1
    ensures count <= r * NumOfPosts
    ensures count == 0 || (r - 1) * NumOfPosts < count
    ensures count == 0 ==> r == 1
  {
    var hits := if count == 0 then 1 else count;
    (hits + NumOfPosts - 1) / NumOfPosts
  }

  /**
    The page number `get_page` settles on: 1 when the parameter is missing or not an
    integer, the requested number when it names an existing page, and the last page
    when the integer is out of range on either side.
  */
  function PageNumber(count: nat, param: PageParam): (k: nat)
    ensures 1 <= k <= NumPages(count)
    ensures !param.Number? ==> k == 1
    ensures param.Number? && 1 <= param.n <= NumPages(count) ==> k == param.n
    ensures param.Number? && !(1 <= param.n <= NumPages(count)) ==> k == NumPages(count)
  {
    match param
    case Absent => 1
    case NotAnInteger => 1
    case Number(n) => if 1 <= n <= NumPages(count) then n else NumPages(count)
  }

  /** `Paginator.page(k)`: the items at positions (k-1)*NumOfPosts up to k*NumOfPosts, cut at the end. */
  function PageAt<T>(items: seq<T>, k: nat): (page: seq<T>)
    requires 1 <= k <= NumPages(|items|)
    ensures |page| <= NumOfPosts
    ensures |page| == Min(NumOfPosts, |items| - (k - 1) * NumOfPosts)
    ensures forall i :: 0 <= i < |page| ==> page[i] == items[(k - 1) * NumOfPosts + i]
  {
    var bottom := (k - 1) * NumOfPosts;
    var top := bottom + NumOfPosts;
    items[bottom .. if top >= |items| then |items| else top]
  }

  /** `paginator(post_list, request)`: the page the request's `page` parameter selects. */
  function Paginate<T>(items: seq<T>, param: PageParam): (p: Page<T>)
    ensures p.numPages == NumPages(|items|)
    ensures p.number == PageNumber(|items|, param)
    ensures p.objectList == PageAt(items, PageNumber(|items|, param))
    ensures 1 <= p.number <= p.numPages
    ensures |p.objectList| <= NumOfPosts
    ensures forall x :: x in p.objectList ==> x in items
    ensures param.Absent? ==> p.objectList == items[..Min(NumOfPosts, |items|)]
  {
    var k := PageNumber(|items|, param);
    var page := PageAt(items, k);
    assert forall i :: 0 <= i < |page| ==> page[i] in items;
    Page(page, k, NumPages(|items|))
  }

  /** Pages k, k+1, ..., last, joined in order. */
  function PagesFrom<T>(items: seq<T>, k: nat): seq<T>
    requires 1 <= k
    decreases NumPages(|items|) + 1 - k
  {
    if k > NumPages(|items|) then [] else PageAt(items, k) + PagesFrom(items, k + 1)
  }

  /** Page k followed by everything after it is everything from page k on. */
  lemma PageThenRest<T>(items: seq<T>, k: nat)
    requires 1 <= k <= NumPages(|items|)
    ensures PageAt(items, k) + items[Min(k * NumOfPosts, |items|)..]
         == items[Min((k - 1) * NumOfPosts, |items|)..]
  {
    var bottom := (k - 1) * NumOfPosts;
    var top := Min(k * NumOfPosts, |items|);
    assert PageAt(items, k) == items[bottom..top];
  }

  /** Pages k to last are exactly the items from position (k-1)*NumOfPosts on. */
  lemma {:induction false} PagesFromSuffix<T>(items: seq<T>, k: nat)
    requires 1 <= k <= NumPages(|items|) + 1
    ensures PagesFrom(items, k) == items[Min((k - 1) * NumOfPosts, |items|)..]
    decreases NumPages(|items|) + 1 - k
  {
    if k <= NumPages(|items|) {
      PagesFromSuffix(items, k + 1);
      PageThenRest(items, k);
    }
  }

  /** Joining pages 1 to last reproduces the listing: no item is lost, duplicated or moved. */
  lemma PagesCoverListing<T>(items: seq<T>)
    ensures PagesFrom(items, 1) == items
  {
    PagesFromSuffix(items, 1);
  }

  /** The item at position i is on page i / NumOfPosts + 1, at offset i % NumOfPosts. */
  lemma ItemOnPage<T>(items: seq<T>, i: nat)
    requires i < |items|
    ensures 1 <= i / NumOfPosts + 1 <= NumPages(|items|)
    ensures PageAt(items, i / NumOfPosts + 1)[i % NumOfPosts] == items[i]
  {
    var k := i / NumOfPosts + 1;
    assert (k - 1) * NumOfPosts + i % NumOfPosts == i;
  }

  /** Thirteen items make a full first page of ten and a second page of three. */
  lemma ThirteenItems<T>(items: seq<T>)
    requires |items| == 13
    ensures |Paginate(items, Absent).objectList| == 10
    ensures |Paginate(items, Number(2)).objectList| == 3
    ensures Paginate(items, Number(2)).objectList == items[10..]
  {
    assert NumPages(13) == 2;
    assert PageAt(items, 2) == items[10..13];
  }
}
