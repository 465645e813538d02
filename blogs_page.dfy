/** The list page (src/pages/Blogs.tsx): the search/status filter over the
    loaded records, the five-per-page slice, soft delete, and the page state
    those are computed from. */
module Blogs {
  import opened Wrappers
  import opened BlogTypes
  import opened Seqs
  import opened Text
  import opened Storage
  import opened Pagination

  /** Records per page (`perPage`). */
  const PerPage: nat := 5

  /** The listing predicate: not soft-deleted, the lower-cased title includes
      the lower-cased search text, and, when a status is chosen, the record
      has that status. An empty status string means "all". A deleted record
      never matches, a chosen status is the name of the record's status, and
      with no search and no status every live record matches. */
  predicate Matches(b: Blog, search: string, status: string)
    ensures Matches(b, search, status) ==> !b.isDeleted
    ensures Matches(b, search, status) && status != "" ==> ParseStatus(status) == Some(b.status)
    ensures search == "" && status == "" ==> (Matches(b, search, status) <==> !b.isDeleted)
  {
    ParseStatusName(b.status);
    ContainsEmpty(Lower(b.title));
    && !b.isDeleted
    && Contains(Lower(b.title), Lower(search))
    && (if status != "" then StatusName(b.status) == status else true)
  }

  /** `filtered`: the records the list page shows before pagination. */
  function Listed(blogs: seq<Blog>, search: string, status: string): (r: seq<Blog>)
    ensures |r| <= |blogs|
    ensures forall b :: b in r <==> b in blogs && Matches(b, search, status)
  {
    Filter(blogs, b => Matches(b, search, status))
  }

  /** A listed record is never soft-deleted, its title matches the search
      regardless of case, and it has the chosen status if there is one. */
  lemma ListedRecords(blogs: seq<Blog>, search: string, status: string, b: Blog)
    requires b in Listed(blogs, search, status)
    ensures !b.isDeleted
    ensures Contains(Lower(b.title), Lower(search))
    ensures status != "" ==> StatusName(b.status) == status
  {
  }

  /** With no search text and no status, the listing is exactly the live
      records in their original order. */
  lemma ListedUnfiltered(blogs: seq<Blog>)
    ensures Listed(blogs, "", "") == Filter(blogs, (b: Blog) => !b.isDeleted)
  {
    FilterExtensional(blogs, b => Matches(b, "", ""), (b: Blog) => !b.isDeleted);
  }

  /** The listing keeps the loaded order. */
  lemma ListedIsSubsequence(blogs: seq<Blog>, search: string, status: string)
    ensures IsSubsequence(Listed(blogs, search, status), blogs)
  {
    FilterIsSubsequence(blogs, b => Matches(b, search, status));
  }

  /** The search is case-insensitive: searching for the lower-cased text
      lists the same records. */
  lemma ListedCaseInsensitive(blogs: seq<Blog>, search: string, status: string)
    ensures Listed(blogs, Lower(search), status) == Listed(blogs, search, status)
  {
    LowerIdempotent(search);
    FilterExtensional(blogs, b => Matches(b, Lower(search), status), b => Matches(b, search, status));
  }

  /** A status string that names no status lists nothing. */
  lemma ListedUnknownStatus(blogs: seq<Blog>, search: string, status: string)
    requires status != "" && ParseStatus(status).None?
    ensures Listed(blogs, search, status) == []
  {
    FirstIsMember(Listed(blogs, search, status));
  }

  /** `filtered.slice((page - 1) * perPage, page * perPage)`: never fails, and
      shows only records of `xs`. */
  function PageSlice(xs: seq<Blog>, page: int): (r: seq<Blog>)
    ensures |r| <= |xs|
    ensures forall b :: b in r ==> b in xs
  {
    Slice(xs, (page - 1) * PerPage, page * PerPage)
  }

  /** For a page numbered from 1, the slice is the window of at most five
      records starting at `(page - 1) * 5`, empty past the end. */
  lemma PageSliceWindow(xs: seq<Blog>, page: int)
    requires page >= 1
    ensures |PageSlice(xs, page)| <= PerPage
    ensures (page - 1) * PerPage >= |xs| ==> PageSlice(xs, page) == []
    ensures (page - 1) * PerPage < |xs| ==>
              PageSlice(xs, page) == xs[(page - 1) * PerPage .. if page * PerPage < |xs| then page * PerPage else |xs|]
  {
  }

  /** The second page of twelve records holds the records at indices 5 to 9. */
  lemma SecondPageOfTwelve(xs: seq<Blog>)
    requires |xs| == 12
    ensures PageSlice(xs, 2) == xs[5..10]
  {
  }

  /** Every page that has a button shows at least one record. */
  lemma ButtonPagesNonEmpty(xs: seq<Blog>, page: int)
    requires 1 <= page <= PageCount(|xs|, PerPage)
    ensures PageSlice(xs, page) != []
  {
  }

  /** Every page from 1 to the page count shows at least one record. */
  lemma AllButtonPagesNonEmpty(xs: seq<Blog>)
    ensures forall p :: 1 <= p <= PageCount(|xs|, PerPage) ==> PageSlice(xs, p) != []
  {
    forall p | 1 <= p <= PageCount(|xs|, PerPage) ensures PageSlice(xs, p) != [] {
      ButtonPagesNonEmpty(xs, p);
    }
  }

  /** Pages 1..n shown one after another. */
  function PagesThrough(xs: seq<Blog>, n: nat): seq<Blog> {
    if n == 0 then [] else PagesThrough(xs, n - 1) + PageSlice(xs, n)
  }

  /** Pages 1..n together are the first `5 * n` records (or all of them). */
  lemma {:induction false} PagesThroughPrefix(xs: seq<Blog>, n: nat)
    ensures PagesThrough(xs, n) == xs[..if n * PerPage < |xs| then n * PerPage else |xs|]
  {
    if n > 0 {
      PagesThroughPrefix(xs, n - 1);
      PageSliceWindow(xs, n);
      var lo := if (n - 1) * PerPage < |xs| then (n - 1) * PerPage else |xs|;
      var hi := if n * PerPage < |xs| then n * PerPage else |xs|;
      assert xs[..lo] + xs[lo..hi] == xs[..hi];
    }
  }

  /** Showing every page that has a button reproduces the whole listing. */
  lemma AllPagesReproduceListing(xs: seq<Blog>)
    ensures PagesThrough(xs, PageCount(|xs|, PerPage)) == xs
  {
    var pages := PageCount(|xs|, PerPage);
    PagesThroughPrefix(xs, pages);
    assert xs[..|xs|] == xs;
  }

  /** `softDelete`'s map: every record with the id becomes soft-deleted at `now`. */
  function MarkDeleted(blogs: seq<Blog>, id: string, now: int): (r: seq<Blog>)
    ensures |r| == |blogs|
    ensures forall i :: 0 <= i < |blogs| && blogs[i].id == id ==>
              r[i] == blogs[i].(isDeleted := true, deletedAt := Some(now))
    ensures forall i :: 0 <= i < |blogs| && blogs[i].id != id ==> r[i] == blogs[i]
  {
    UpdateById(blogs, id, (b: Blog) => b.(isDeleted := true, deletedAt := Some(now)))
  }

  /** Soft delete keeps the ids in order, so it keeps them unique. */
  lemma MarkDeletedKeepsIds(blogs: seq<Blog>, id: string, now: int)
    ensures Ids(MarkDeleted(blogs, id, now)) == Ids(blogs)
    ensures UniqueIds(blogs) ==> UniqueIds(MarkDeleted(blogs, id, now))
  {
  }

  /** Deleting again overwrites `deletedAt` with the newer time and changes
      nothing else. */
  lemma MarkDeletedRepeat(blogs: seq<Blog>, id: string, first: int, second: int)
    ensures MarkDeleted(MarkDeleted(blogs, id, first), id, second) == MarkDeleted(blogs, id, second)
  {
  }

  /** No record is undeleted, and every record keeps the lifecycle invariant. */
  lemma MarkDeletedLifecycle(blogs: seq<Blog>, id: string, now: int)
    requires forall b :: b in blogs ==> DeletionConsistent(b)
    ensures forall i :: 0 <= i < |blogs| && blogs[i].isDeleted ==> MarkDeleted(blogs, id, now)[i].isDeleted
    ensures forall b :: b in MarkDeleted(blogs, id, now) ==> DeletionConsistent(b)
  {
  }

  /** After a soft delete no record with that id is listed, whatever the filter. */
  lemma MarkDeletedHidden(blogs: seq<Blog>, id: string, now: int, search: string, status: string)
    ensures forall b :: b in Listed(MarkDeleted(blogs, id, now), search, status) ==> b.id != id
  {
  }

  /** The list page's state: the records loaded at mount, the search text,
      the status filter and the current page, over the store it reads and writes. */
  class BlogsView {
    const store: BlogStore
    var blogs: seq<Blog>
    var search: string
    var status: string
    var page: int

    /** Pages are numbered from 1: the initial page, the reset on a filter
        change and every button click keep it so. */
    ghost predicate Valid()
      reads this
    {
      page >= 1
    }

    /** The initial `useState` values. */
    constructor (store: BlogStore)
      ensures Valid()
      ensures this.store == store
      ensures blogs == [] && search == "" && status == "" && page == 1
    {
      this.store := store;
      blogs := [];
      search := "";
      status := "";
      page := 1;
    }

    /** The mount effect: `setBlogs(getBlogs())`. */
    method Load(now: int)
      requires Valid()
      modifies this`blogs, store
      ensures Valid()
      ensures blogs == Purge(old(store.Raw()), now)
      ensures store.stored == Some(blogs)
    {
      blogs := store.GetBlogs(now);
    }

    /** `filtered`: the loaded records that match, in loaded order. */
    function Filtered(): (r: seq<Blog>)
      reads this
      ensures forall b :: b in r <==> b in blogs && Matches(b, search, status)
      ensures IsSubsequence(r, blogs)
    {
      ListedIsSubsequence(blogs, search, status);
      Listed(blogs, search, status)
    }

    /** `paginated`: at most one page of the filtered records. */
    function Paginated(): (r: seq<Blog>)
      reads this
      ensures Valid() ==> |r| <= PerPage
      ensures forall b :: b in r ==> b in Filtered()
    {
      PageSlice(Filtered(), page)
    }

    /** The pager's buttons for the current listing: one per page, numbered
      from 1, each selecting a non-empty page, the current one highlighted. */
    function PageButtons(): (bs: seq<Button>)
      reads this
      ensures |bs| == PageCount(|Filtered()|, PerPage)
      ensures forall i :: 0 <= i < |bs| ==> bs[i].number == i + 1 && PageSlice(Filtered(), i + 1) != []
      ensures forall i :: 0 <= i < |bs| ==> (bs[i].highlighted <==> i + 1 == page)
    {
      AllButtonPagesNonEmpty(Filtered());
      Buttons(PageCount(|Filtered()|, PerPage), page)
    }

    /** Typing in the search box: new search text, back to page 1. */
    method SetSearch(s: string)
      requires Valid()
      modifies this`search, this`page
      ensures Valid()
      ensures search == s && page == 1
    {
      search := s;
      page := 1;
    }

    /** Choosing a status: new status filter, back to page 1. */
    method SetStatus(s: string)
      requires Valid()
      modifies this`status, this`page
      ensures Valid()
      ensures status == s && page == 1
    {
      status := s;
      page := 1;
    }

    /** Clicking the pager button at position `i`: `setPage(i + 1)`. */
    method ClickPage(i: nat)
      requires Valid()
      requires i < |PageButtons()|
      modifies this`page
      ensures Valid()
      ensures page == old(PageButtons())[i].number
      ensures 1 <= page <= PageCount(|Filtered()|, PerPage)
      ensures Paginated() != []
    {
      page := i + 1;
      ButtonPagesNonEmpty(Filtered(), page);
    }

    /** `softDelete(id)`: mark the loaded records, then show and store the
        same list. The page is not reset. */
    method SoftDelete(id: string, now: int)
      requires Valid()
      modifies this`blogs, store
      ensures Valid()
      ensures blogs == MarkDeleted(old(blogs), id, now)
      ensures store.stored == Some(blogs)
    {
      var updated := MarkDeleted(blogs, id, now);
      blogs := updated;
      store.SaveBlogs(updated);
    }
  }
}
