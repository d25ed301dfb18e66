/** `UserManagementController.getUsers`: the in-memory search and
    pagination over the listed accounts. Query parameters arrive as text
    (or are absent); `page` and `limit` go through `Number(...)`. */
module UserManagementController {
  import opened Wrappers
  import opened Text
  import opened Lists
  import opened JsNumbers
  import opened UserManagementService

  datatype PaginationQuery = PaginationQuery(page: Option<string>, limit: Option<string>, search: Option<string>)

  datatype Meta = Meta(page: int, limit: int, total: nat, totalPages: int)

  /** Either every account (no pagination asked for) or one page of the
      matching accounts with its metadata. */
  datatype UsersPage = Unpaged(users: seq<SystemUser>) | Paged(data: seq<SystemUser>, meta: Meta)

  /** Truthiness of an optional query string: present and not empty. */
  predicate Given(p: Option<string>) {
    p.Some? && p.value != ""
  }

  /** `Number(s) || default`. */
  function NumberOr(s: string, default: int): (r: int)
    ensures NumberOf(s).Truthy() ==> r == NumberOf(s).v
    ensures !NumberOf(s).Truthy() ==> r == default
    ensures default != 0 ==> r != 0
  {
    var n := NumberOf(s);
    if n.Truthy() then n.v else default
  }

  /** `Math.ceil(a / b)`. */
  function CeilDiv(a: int, b: int): (q: int)
    requires b != 0
    ensures b > 0 ==> b * (q - 1) < a <= b * q
    ensures b < 0 ==> b * q <= a < b * (q - 1)
    decreases if b < 0 then 1 else 0
  {
    if b < 0 then CeilDiv(-a, -b) else (a + b - 1) / b
  }

  /** An account matches a (lowercased) search when its lowercased user
      name or shell contains it. */
  predicate Matches(u: SystemUser, search: string) {
    Contains(ToLower(u.username), search) || Contains(ToLower(u.shell), search)
  }

  /** The accounts kept by the search parameter: all of them without a
      (non-empty) search, otherwise the matching ones in their order. */
  function Matching(users: seq<SystemUser>, search: Option<string>): seq<SystemUser> {
    if Given(search) then Filter(users, u => Matches(u, ToLower(search.value))) else users
  }

  function Min(a: int, b: int): int {
    if a <= b then a else b
  }

  /** The page of `items` numbered `page` (from 1) with `limit` items per
      page, and its metadata; `slice` reads a negative start from the end. */
  function Paginate(items: seq<SystemUser>, page: int, limit: int): (r: UsersPage)
    requires limit != 0
    ensures r.Paged? && r.meta.page == page && r.meta.limit == limit && r.meta.total == |items|
  {
    var total := |items|;
    var startIndex := (page - 1) * limit;
    var endIndex := Min(startIndex + limit, total);
    Paged(Slice(items, startIndex, endIndex), Meta(page, limit, total, CeilDiv(total, limit)))
  }

  /** `getUsers(paginationDto)` over the listed accounts. */
  function GetUsers(users: seq<SystemUser>, q: PaginationQuery): (r: UsersPage)
    ensures r.Unpaged? <==> !Given(q.page) || !Given(q.limit)
    ensures r.Unpaged? ==> r.users == users
    ensures r.Paged? ==>
      && NumberOr(q.limit.value, 10) != 0
      && r == Paginate(Matching(users, q.search), NumberOr(q.page.value, 1), NumberOr(q.limit.value, 10))
  {
    if !Given(q.page) || !Given(q.limit) then Unpaged(users)
    else Paginate(Matching(users, q.search), NumberOr(q.page.value, 1), NumberOr(q.limit.value, 10))
  }

  /** Without `page` and `limit` every account is returned; with them, the
      page number and size are the numeric values given, 1 and 10 standing
      in for a zero or non-numeric value. */
  lemma PaginationDefaults(users: seq<SystemUser>, q: PaginationQuery)
    ensures !Given(q.page) || !Given(q.limit) ==> GetUsers(users, q) == Unpaged(users)
    ensures Given(q.page) && Given(q.limit) ==>
      var m := GetUsers(users, q).meta;
      && m.total == |Matching(users, q.search)|
      && (NumberOf(q.page.value).Truthy() ==> m.page == NumberOf(q.page.value).v)
      && (!NumberOf(q.page.value).Truthy() ==> m.page == 1)
      && (NumberOf(q.limit.value).Truthy() ==> m.limit == NumberOf(q.limit.value).v)
      && (!NumberOf(q.limit.value).Truthy() ==> m.limit == 10)
  {
  }

  /** The search keeps exactly the matching accounts (case-insensitively),
      in their original order; without a search nothing is dropped. */
  lemma SearchKeepsMatches(users: seq<SystemUser>, search: Option<string>)
    ensures !Given(search) ==> Matching(users, search) == users
    ensures Given(search) ==> forall k :: 0 <= k < |users| ==>
      (users[k] in Matching(users, search) <==> Matches(users[k], ToLower(search.value)))
    ensures Given(search) ==> forall u :: u in Matching(users, search) ==> u in users && Matches(u, ToLower(search.value))
  {
    if Given(search) {
      var p := (u: SystemUser) => Matches(u, ToLower(search.value));
      var r := Filter(users, p);
      assert forall u :: u in r ==> u in multiset(r);
      assert forall u :: u in multiset(users) ==> u in users;
    }
  }

  /** totalPages is the least number of pages of `limit` items that hold
      every item. */
  lemma TotalPagesCover(items: seq<SystemUser>, page: int, limit: int)
    requires limit > 0
    ensures var m := Paginate(items, page, limit).meta;
      m.limit * (m.totalPages - 1) < m.total <= m.limit * m.totalPages
  {
  }

  /** For a page and limit of at least 1, the page is the contiguous run of
      items starting at (page - 1) * limit, at most `limit` long, and empty
      past the end. */
  lemma PageContents(items: seq<SystemUser>, page: int, limit: int)
    requires page >= 1 && limit >= 1
    ensures 0 <= (page - 1) * limit
    ensures var start := (page - 1) * limit; var data := Paginate(items, page, limit).data;
      && (0 <= start <= |items| ==> data == items[start..Min(start + limit, |items|)])
      && (start > |items| ==> data == [])
  {
    MulMonotone(0, page - 1, limit);
  }

  /** A page with a positive limit never holds more than `limit` items,
      whatever the page number (a negative page counts from the end). */
  lemma PageAtMostLimit(items: seq<SystemUser>, page: int, limit: int)
    requires limit >= 1
    ensures |Paginate(items, page, limit).data| <= limit
  {
  }

  /** For a page and limit of at least 1, the page holds something exactly
      when its number is at most totalPages. */
  lemma PageNonEmptyIff(items: seq<SystemUser>, page: int, limit: int)
    requires page >= 1 && limit >= 1
    ensures var r := Paginate(items, page, limit);
      |r.data| > 0 <==> page <= r.meta.totalPages
  {
    var m := Paginate(items, page, limit).meta;
    PageContents(items, page, limit);
    TotalPagesCover(items, page, limit);
    StartBeforeTotal(page, limit, m.total, m.totalPages);
  }

  /** Arithmetic behind `PageNonEmptyIff`: with totalPages the ceiling of
      total / limit, a page starts before the end exactly when its number
      is at most totalPages. */
  lemma StartBeforeTotal(page: int, limit: int, total: int, totalPages: int)
    requires page >= 1 && limit >= 1
    requires limit * (totalPages - 1) < total <= limit * totalPages
    ensures (page - 1) * limit < total <==> page <= totalPages
  {
    if page <= totalPages {
      MulMonotone(page - 1, totalPages - 1, limit);
    } else {
      MulMonotone(totalPages, page - 1, limit);
    }
  }

  lemma MulMonotone(a: int, b: int, c: int)
    requires a <= b && c >= 0
    ensures a * c <= b * c
  {
    assert (b - a) * c >= 0;
  }

  /** Consecutive pages follow each other: the pages from 1 to totalPages,
      put together, are all the items in order. */
  lemma {:induction false} PagesCoverAll(items: seq<SystemUser>, limit: int, n: nat)
    requires limit >= 1 && n * limit <= |items|
    ensures PagesUpTo(items, limit, n) == items[..n * limit]
  {
    if n > 0 {
      PageStep(items, limit, n);
      var start := (n - 1) * limit;
      var end := n * limit;
      PagesCoverAll(items, limit, n - 1);
      assert items[..end] == items[..start] + items[start..end];
    }
  }

  /** Page n of a run of full pages is the n-th block of `limit` items. */
  lemma PageStep(items: seq<SystemUser>, limit: int, n: nat)
    requires limit >= 1 && n >= 1 && n * limit <= |items|
    ensures 0 <= (n - 1) * limit == n * limit - limit
    ensures Paginate(items, n, limit).data == items[(n - 1) * limit..n * limit]
  {
    var start := (n - 1) * limit;
    var end := n * limit;
    assert start == end - limit;
    PageContents(items, n, limit);
    assert Min(start + limit, |items|) == end;
  }

  /** Pages 1 to n, concatenated. */
  function PagesUpTo(items: seq<SystemUser>, limit: int, n: nat): seq<SystemUser>
    requires limit >= 1
  {
    if n == 0 then [] else PagesUpTo(items, limit, n - 1) + Paginate(items, n, limit).data
  }
}
