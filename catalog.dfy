/** `get_books` and `get_url_book` of main.py: listing the user's products page by
    page, and asking for a book's download url with one token refresh on failure. */
module Catalog {
  import opened Util
  import opened Session

  datatype Book = Book(productId: string, productName: string)

  /** One reply of the products endpoint: its `count` and its `data` list. */
  datatype Page = Page(count: int, data: seq<Book>)

  /** The products endpoint as a function of the Authorization header sent, the offset
      and the limit of the request. */
  type PageService = (string, int, int) -> Page

  /** The file-url endpoint as a function of the Authorization header sent, the book id
      and the format; None when the reply has no `data` field. */
  type UrlService = (string, string, string) -> Option<string>

  const DefaultOffset := 0
  const DefaultLimit := 10

  /** The number of iterations of `range(count // limit)`: Python's floor division, and
      no iterations at all when the bound is not positive. */
  function MorePages(count: int, limit: int): (k: nat)
    requires limit > 0
    ensures count < limit ==> k == 0
    ensures count >= 0 ==> k * limit <= count < k * limit + limit
  {
    if count / limit > 0 then count / limit else 0
  }

  /** How many page requests `get_books` sends for a first reply with this count. */
  function PageCount(count: int, limit: int): (n: nat)
    requires limit > 0
    ensures n >= 1
  {
    MorePages(count, limit) + 1
  }

  /** offset0, offset0 + limit, ..., n offsets in all. */
  function Offsets(offset0: int, limit: int, n: nat): (r: seq<int>)
    ensures |r| == n
    ensures forall k :: 0 <= k < n ==> r[k] == offset0 + k * limit
  {
    if n == 0 then [] else Offsets(offset0, limit, n - 1) + [offset0 + (n - 1) * limit]
  }

  /** The offsets `get_books` requests: the count is read from the first reply only. */
  function Schedule(service: PageService, auth: string, offset0: int, limit: int): seq<int>
    requires limit > 0
  {
    Offsets(offset0, limit, PageCount(service(auth, offset0, limit).count, limit))
  }

  /** The `data` lists of the pages at these offsets, joined in request order. */
  function Collect(service: PageService, auth: string, limit: int, offsets: seq<int>): seq<Book>
  {
    if offsets == [] then []
    else Collect(service, auth, limit, offsets[..|offsets| - 1])
         + service(auth, offsets[|offsets| - 1], limit).data
  }

  /** The list `get_books` returns. */
  function Listing(service: PageService, auth: string, offset0: int, limit: int): seq<Book>
    requires limit > 0
  {
    Collect(service, auth, limit, Schedule(service, auth, offset0, limit))
  }

  /** `get_books`: every page is requested with the header the user holds, the offsets
      requested are exactly the schedule, and the result joins the pages' data in order. */
  method GetBooks(user: User, service: PageService, offset0: int, limit: int)
    returns (books: seq<Book>, requested: seq<int>)
    requires limit > 0 && user.header.Valid()
    ensures requested == Schedule(service, user.header.Authorization(), offset0, limit)
    ensures books == Listing(service, user.header.Authorization(), offset0, limit)
  {
    var offset := offset0;
    var header := user.GetHeader();
    var r := service(header.entries["Authorization"], offset, limit);
    books := r.data;
    requested := [offset];
    // `range(...)` is evaluated once, from the first reply.
    var more := MorePages(r.count, limit);
    ghost var n := PageCount(r.count, limit);
    var i := 0;
    while i < more
      invariant 0 <= i <= more && n == more + 1 && header == user.header
      invariant offset == offset0 + i * limit
      invariant requested == Offsets(offset0, limit, i + 1)
      invariant books == Collect(service, header.Authorization(), limit, requested)
    {
      offset := offset + limit;
      assert offset == offset0 + (i + 1) * limit;
      header := user.GetHeader();
      r := service(header.entries["Authorization"], offset, limit);
      CollectStep(service, header.Authorization(), limit, requested, offset);
      books := books + r.data;
      requested := requested + [offset];
      i := i + 1;
    }
  }

  lemma CollectStep(service: PageService, auth: string, limit: int, offsets: seq<int>, offset: int)
    ensures Collect(service, auth, limit, offsets + [offset])
            == Collect(service, auth, limit, offsets) + service(auth, offset, limit).data
  {
    assert (offsets + [offset])[..|offsets|] == offsets;
  }

  /** The schedule starts at the given offset, steps by exactly `limit`, and (counted
      from offset 0) its last offset L is the one with L <= count < L + limit. */
  lemma ScheduleShape(service: PageService, auth: string, offset0: int, limit: int)
    requires limit > 0
    ensures var s := Schedule(service, auth, offset0, limit);
            && |s| == PageCount(service(auth, offset0, limit).count, limit)
            && s[0] == offset0
            && (forall k :: 0 <= k < |s| - 1 ==> s[k] < s[k + 1] == s[k] + limit)
    ensures var s := Schedule(service, auth, offset0, limit);
            var count := service(auth, offset0, limit).count;
            count >= 0 ==> s[|s| - 1] - offset0 <= count < s[|s| - 1] - offset0 + limit
  {
    var s := Schedule(service, auth, offset0, limit);
    forall k | 0 <= k < |s| - 1
      ensures s[k] < s[k + 1] == s[k] + limit
    {
      assert s[k + 1] == offset0 + k * limit + limit;
    }
  }

  /** When the count is a multiple of the limit, the last page requested starts at the
      count itself: one request more than the pages that hold items. */
  lemma ExactMultipleRequestsPageAtCount(count: int, limit: int)
    requires limit > 0 && count >= 0 && count % limit == 0
    ensures var s := Offsets(0, limit, PageCount(count, limit));
            |s| == count / limit + 1 && s[|s| - 1] == count
  {
    assert count == (count / limit) * limit;
  }

  /** 101 items in pages of 25: requests at offsets 0, 25, 50, 75 and 100. */
  lemma PaginationOf101By25(service: PageService, auth: string)
    requires service(auth, 0, 25).count == 101
    ensures Schedule(service, auth, 0, 25) == [0, 25, 50, 75, 100]
  {
  }

  function Clamp(x: int, n: nat): (r: nat)
    ensures r <= n
  {
    if x < 0 then 0 else if x > n then n else x
  }

  /** Python's items[offset : offset + limit] for a non-negative offset and limit. */
  function Slice(items: seq<Book>, offset: int, limit: int): seq<Book>
  {
    var lo := Clamp(offset, |items|);
    var hi := Clamp(offset + limit, |items|);
    if lo <= hi then items[lo..hi] else []
  }

  /** A stub products endpoint over a fixed list: its slice at the requested offset and
      limit, and the list's length as count. */
  function SliceService(items: seq<Book>): PageService
  {
    (auth: string, offset: int, limit: int) => Page(|items|, Slice(items, offset, limit))
  }

  /** Two adjacent slices join into one prefix. */
  lemma SliceJoin(items: seq<Book>, offset: int, limit: int)
    requires offset >= 0 && limit >= 0
    ensures items[..Min(offset, |items|)] + Slice(items, offset, limit)
            == items[..Min(offset + limit, |items|)]
  {
    var lo := Min(offset, |items|);
    var hi := Min(offset + limit, |items|);
    assert Slice(items, offset, limit) == items[lo..hi];
    assert items[..lo] + items[lo..hi] == items[..hi];
  }

  lemma {:induction false} CollectSlices(items: seq<Book>, auth: string, limit: int, n: nat)
    requires limit > 0
    ensures Collect(SliceService(items), auth, limit, Offsets(0, limit, n))
            == items[..Min(n * limit, |items|)]
  {
    if n > 0 {
      var s := Offsets(0, limit, n);
      var o := (n - 1) * limit;
      assert o >= 0 && o + limit == n * limit by {
        assert (n - 1) * limit + limit == n * limit;
      }
      CollectSlices(items, auth, limit, n - 1);
      assert Collect(SliceService(items), auth, limit, s)
             == items[..Min(o, |items|)] + Slice(items, o, limit) by {
        assert s[..n - 1] == Offsets(0, limit, n - 1);
        assert s[n - 1] == o;
      }
      SliceJoin(items, o, limit);
    }
  }

  /** Against a stub that serves slices of a list, `get_books` returns the list itself:
      no item is dropped or duplicated, and the final page past the end adds nothing. */
  lemma ListingOfSlices(items: seq<Book>, auth: string, limit: int)
    requires limit > 0
    ensures Listing(SliceService(items), auth, 0, limit) == items
  {
    var n := PageCount(|items|, limit);
    CollectSlices(items, auth, limit, n);
    assert MorePages(|items|, limit) * limit + limit == n * limit;
    assert items[..Min(n * limit, |items|)] == items;
  }

  /** `get_url_book`: the reply to the current header is returned when it has `data`;
      otherwise the header is refreshed with exactly one login and the request is sent
      once more, and its `data` is returned, or the missing field raises KeyError.
      `sent` lists the Authorization values of the url requests made, in order. */
  method GetUrlBook(user: User, bookId: string, format: string, service: UrlService, auth: AuthService)
    returns (r: Run<string>, sent: seq<string>)
    requires user.header.Valid()
    modifies user.header
    ensures user.header.Valid()
    ensures var first := old(user.header.Authorization());
            var token := TokenFrom(auth(Credentials(user.username, user.password), old(user.header.logins)));
            if service(first, bookId, format).Some? then
              && r == Ok(service(first, bookId, format).value) && sent == [first]
              && user.header.entries == old(user.header.entries)
              && user.header.logins == old(user.header.logins)
            else if token.Halt? then
              && r == Halt(Exited(2)) && sent == [first]
              && user.header.entries == old(user.header.entries)
              && user.header.logins == old(user.header.logins) + 1
            else
              && sent == [first, token.value]
              && user.header.entries == old(user.header.entries)["Authorization" := token.value]
              && user.header.logins == old(user.header.logins) + 1
              && r == match service(token.value, bookId, format)
                      case Some(url) => Ok(url)
                      case None => Halt(Raised(KeyError))
    ensures r.Ok? ==> |sent| > 0 && service(sent[|sent| - 1], bookId, format) == Some(r.value)
  {
    var header := user.GetHeader();
    sent := [header.entries["Authorization"]];
    var reply := service(header.entries["Authorization"], bookId, format);
    if reply.Some? {
      return Ok(reply.value), sent;
    }
    var refreshed := user.RefreshHeader(auth);
    if refreshed.Halt? {
      return Halt(refreshed.status), sent;
    }
    header := refreshed.value;
    sent := sent + [header.entries["Authorization"]];
    reply := service(header.entries["Authorization"], bookId, format);
    if reply.Some? {
      r := Ok(reply.value);
    } else {
      r := Halt(Raised(KeyError));
    }
  }
}
