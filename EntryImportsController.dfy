/** Model of Controllers/EntryImportsController.cs: the caller's import jobs,
    newest first and paged, the hypermedia links attached to them, lookup of
    one job, and the creation of a pending job. The job table is a sequence of
    records held by the controller; the signed-in user's id, the clock, the new
    job's id and the pagination flags are inputs. */
module EntryImportsController {
  import opened Wrappers
  import opened Text

  /** A C# int. */
  type Int32 = x: int | -0x8000_0000 <= x < 0x8000_0000

  /** Two's-complement wrap-around of an unchecked int operation. */
  function Wrap32(x: int): (r: Int32)
    ensures -0x8000_0000 <= x < 0x8000_0000 ==> r == x
    ensures (r - x) % 0x1_0000_0000 == 0
  {
    (x + 0x8000_0000) % 0x1_0000_0000 - 0x8000_0000
  }

  /** EntryImportStatus: Pending is the value a new job gets; the other
      members are identified by their numeric value. */
  datatype EntryImportStatus = Pending | OtherStatus(code: int)

  /** The EntryImportJob columns this controller reads or sets. */
  datatype EntryImportJob = EntryImportJob(
    id: string,
    userId: string,
    status: EntryImportStatus,
    fileName: string,
    fileContent: seq<byte>,
    createdAtUtc: int)

  /** The route values of a generated link. */
  datatype RouteValues = JobRoute(id: string) | PageRoute(page: Int32, pageSize: Int32)

  /** A LinkDto, before the endpoint is resolved to an href. */
  datatype Link = Link(endpointName: string, rel: string, httpMethod: string, values: RouteValues)

  /** HttpMethods.Get */
  const Get := "GET"

  /** An EntryImportJobDto: the job's data and its optional links. */
  datatype EntryImportJobDto = EntryImportJobDto(job: EntryImportJob, links: Option<seq<Link>>)

  /** PaginationResult<EntryImportJobDto> */
  datatype PaginationResult = PaginationResult(
    items: seq<EntryImportJobDto>,
    page: Int32,
    pageSize: Int32,
    totalCount: int,
    links: Option<seq<Link>>)

  /** The action results the handlers return. */
  datatype ActionResult<T> =
    | Unauthorized
    | NotFound
    | OkObject(value: T)
    | CreatedAt(actionName: string, routeId: string, value: T)

  /** `Where(j => j.UserId == userId)`: the caller's jobs, in table order. */
  function Owned(jobs: seq<EntryImportJob>, userId: string): (r: seq<EntryImportJob>)
    ensures forall j :: j in r <==> j in jobs && j.userId == userId
    ensures multiset(r) <= multiset(jobs)
  {
    if jobs == [] then []
    else
      var rest := Owned(jobs[1..], userId);
      assert jobs == [jobs[0]] + jobs[1..];
      if jobs[0].userId == userId then [jobs[0]] + rest else rest
  }

  /** Ordered by CreatedAtUtc, latest first. */
  predicate NewestFirstOrdered(s: seq<EntryImportJob>) {
    forall i, j :: 0 <= i < j < |s| ==> s[i].createdAtUtc >= s[j].createdAtUtc
  }

  /** Insert a job before the first job that is not newer than it. */
  function InsertByDate(x: EntryImportJob, s: seq<EntryImportJob>): (r: seq<EntryImportJob>)
    requires NewestFirstOrdered(s)
    ensures |r| == |s| + 1
    ensures r[0] == x || (s != [] && r[0] == s[0])
    ensures NewestFirstOrdered(r)
    ensures multiset(r) == multiset(s) + multiset{x}
  {
    if s == [] then [x]
    else if s[0].createdAtUtc <= x.createdAtUtc then
      ConsOrdered(x, s);
      assert multiset([x] + s) == multiset{x} + multiset(s);
      [x] + s
    else
      TailOrdered(s);
      var rest := InsertByDate(x, s[1..]);
      InsertBehind(x, s, rest);
      [s[0]] + rest
  }

  /** The head of s, newer than x, stays in front of the insertion into the tail. */
  lemma InsertBehind(x: EntryImportJob, s: seq<EntryImportJob>, rest: seq<EntryImportJob>)
    requires NewestFirstOrdered(s) && s != [] && s[0].createdAtUtc > x.createdAtUtc
    requires rest != [] && (rest[0] == x || (|s| > 1 && rest[0] == s[1]))
    requires NewestFirstOrdered(rest) && multiset(rest) == multiset(s[1..]) + multiset{x}
    ensures NewestFirstOrdered([s[0]] + rest)
    ensures multiset([s[0]] + rest) == multiset(s) + multiset{x}
  {
    assert s == [s[0]] + s[1..];
    ConsOrdered(s[0], rest);
    assert multiset(s) == multiset{s[0]} + multiset(s[1..]);
    assert multiset([s[0]] + rest) == multiset{s[0]} + multiset(rest);
  }

  lemma TailOrdered(s: seq<EntryImportJob>)
    requires s != [] && NewestFirstOrdered(s)
    ensures NewestFirstOrdered(s[1..])
  {
    forall i, j | 0 <= i < j < |s| - 1 ensures s[1..][i].createdAtUtc >= s[1..][j].createdAtUtc {
      assert s[1..][i] == s[i + 1] && s[1..][j] == s[j + 1];
    }
  }

  lemma ConsOrdered(y: EntryImportJob, rest: seq<EntryImportJob>)
    requires NewestFirstOrdered(rest)
    requires rest == [] || y.createdAtUtc >= rest[0].createdAtUtc
    ensures NewestFirstOrdered([y] + rest)
  {
    var r := [y] + rest;
    forall i, j | 0 <= i < j < |r| ensures r[i].createdAtUtc >= r[j].createdAtUtc {
      assert r[j] == rest[j - 1];
      if i > 0 {
        assert r[i] == rest[i - 1];
      } else if j > 1 {
        assert rest[0].createdAtUtc >= rest[j - 1].createdAtUtc;
      }
    }
  }

  /** `OrderByDescending(j => j.CreatedAtUtc)`: the same jobs, latest first;
      jobs with the same timestamp keep their table order. */
  function NewestFirst(s: seq<EntryImportJob>): (r: seq<EntryImportJob>)
    ensures NewestFirstOrdered(r)
    ensures multiset(r) == multiset(s)
  {
    if s == [] then []
    else
      assert s == [s[0]] + s[1..];
      InsertByDate(s[0], NewestFirst(s[1..]))
  }

  /** Enumerable.Skip: a negative count skips nothing. */
  function Skip<T>(s: seq<T>, n: int): seq<T> {
    if n <= 0 then s else if n >= |s| then [] else s[n..]
  }

  /** Enumerable.Take: a count of zero or less takes nothing. */
  function Take<T>(s: seq<T>, n: int): seq<T> {
    if n <= 0 then [] else if n >= |s| then s else s[..n]
  }

  /** `(page - 1) * pageSize` as written: both steps in unchecked 32-bit arithmetic. */
  function WrappedOffset(page: Int32, pageSize: Int32): Int32 {
    Wrap32(Wrap32(page - 1) * pageSize)
  }

  /** The number of jobs before the requested page: `(page - 1) * pageSize`
      without wrap-around. */
  function PageOffset(page: Int32, pageSize: Int32): int {
    (page - 1) * pageSize
  }

  /** The jobs of one page of a query, as GetImportJobs computes them:
      `Skip((page - 1) * pageSize).Take(pageSize)` on the wrapped offset. */
  function Window(query: seq<EntryImportJob>, page: Int32, pageSize: Int32): seq<EntryImportJob> {
    Take(Skip(query, WrappedOffset(page, pageSize)), pageSize)
  }

  /** The page the code means to return: the one after (page - 1) * pageSize
      jobs, computed without wrap-around. */
  function IntendedWindow(query: seq<EntryImportJob>, page: Int32, pageSize: Int32): seq<EntryImportJob> {
    Take(Skip(query, PageOffset(page, pageSize)), pageSize)
  }

  /** Whenever `(page - 1) * pageSize` fits in 32 bits, the page as written
      is the intended page. */
  lemma WindowAsIntended(query: seq<EntryImportJob>, page: Int32, pageSize: Int32)
    requires page > -0x8000_0000
    requires -0x8000_0000 <= PageOffset(page, pageSize) < 0x8000_0000
    ensures Window(query, page, pageSize) == IntendedWindow(query, page, pageSize)
  {
    assert Wrap32(page - 1) == page - 1;
    assert WrappedOffset(page, pageSize) == PageOffset(page, pageSize);
  }

  /** The intended page is the run of the query that starts after the
      earlier pages and holds at most pageSize jobs. */
  lemma PageWindow(query: seq<EntryImportJob>, page: Int32, pageSize: Int32)
    requires page >= 1 && pageSize >= 0
    ensures var start := if PageOffset(page, pageSize) < |query| then PageOffset(page, pageSize) else |query|;
      var end := if start + pageSize < |query| then start + pageSize else |query|;
      IntendedWindow(query, page, pageSize) == query[start..end]
    ensures |IntendedWindow(query, page, pageSize)| <= pageSize
  {
    var n := PageOffset(page, pageSize);
    assert n >= 0 by {
      NonNegativeProduct(page - 1, pageSize);
    }
    var start := if n < |query| then n else |query|;
    var end := if start + pageSize < |query| then start + pageSize else |query|;
    var skipped := Skip(query, n);
    assert skipped == query[start..];
    if pageSize == 0 {
      assert IntendedWindow(query, page, pageSize) == [];
    } else if pageSize >= |skipped| {
      assert end == |query|;
    } else {
      assert Take(skipped, pageSize) == query[start..][..pageSize];
      SliceOfSuffix(query, start, pageSize);
    }
  }

  lemma NonNegativeProduct(a: int, b: int)
    requires a >= 0 && b >= 0
    ensures a * b >= 0
  {
  }

  lemma SliceOfSuffix<T>(s: seq<T>, a: int, n: int)
    requires 0 <= a <= |s| && 0 <= n <= |s| - a
    ensures s[a..][..n] == s[a..a + n]
  {
  }

  /** With the arithmetic as written, page 3 of pages of 2^30 jobs starts at
      offset -2^31, which Skip treats as 0: the caller gets the first page. */
  lemma OffsetOverflowShowsFirstPage(query: seq<EntryImportJob>)
    ensures PageOffset(3, 0x4000_0000) == 0x8000_0000
    ensures WrappedOffset(3, 0x4000_0000) == -0x8000_0000
    ensures Window(query, 3, 0x4000_0000) == Window(query, 1, 0x4000_0000)
    ensures 0 < |query| <= 0x8000_0000 ==>
              IntendedWindow(query, 3, 0x4000_0000) == [] && Window(query, 3, 0x4000_0000) != []
  {
  }

  /** CreateLinksForImportJob(id) */
  function JobLinks(id: string): seq<Link> {
    [Link("GetImportJob", "self", Get, JobRoute(id))]
  }

  /** A link to one page of GetImportJobs. */
  function PageLink(rel: string, page: Int32, pageSize: Int32): Link {
    Link("GetImportJobs", rel, Get, PageRoute(page, pageSize))
  }

  /** CreateLinksForImportJobs(page, pageSize, hasNextPage, hasPreviousPage) */
  function CollectionLinks(page: Int32, pageSize: Int32, hasNextPage: bool, hasPreviousPage: bool): seq<Link> {
    [PageLink("self", page, pageSize)]
    + (if hasNextPage then [PageLink("next-page", Wrap32(page + 1), pageSize)] else [])
    + (if hasPreviousPage then [PageLink("previous-page", Wrap32(page - 1), pageSize)] else [])
  }

  /** The collection links: "self" for the same page first, then "next-page"
      exactly when there is a next page, then "previous-page" exactly when
      there is a previous page; no other link. */
  lemma CollectionLinksOrder(page: Int32, pageSize: Int32, hasNextPage: bool, hasPreviousPage: bool)
    ensures var links := CollectionLinks(page, pageSize, hasNextPage, hasPreviousPage);
      && |links| == 1 + (if hasNextPage then 1 else 0) + (if hasPreviousPage then 1 else 0)
      && links[0] == PageLink("self", page, pageSize)
      && (hasNextPage ==> links[1] == PageLink("next-page", Wrap32(page + 1), pageSize))
      && (hasPreviousPage ==> links[|links| - 1] == PageLink("previous-page", Wrap32(page - 1), pageSize))
      && (forall i :: 0 <= i < |links| ==>
            (links[i].endpointName == "GetImportJobs" && links[i].httpMethod == Get
             && links[i].values.PageRoute? && links[i].values.pageSize == pageSize))
      && ((exists i :: 0 <= i < |links| && links[i].rel == "next-page") <==> hasNextPage)
      && ((exists i :: 0 <= i < |links| && links[i].rel == "previous-page") <==> hasPreviousPage)
  {
    var links := CollectionLinks(page, pageSize, hasNextPage, hasPreviousPage);
    if hasNextPage {
      assert links[1].rel == "next-page";
    }
    if hasPreviousPage {
      assert links[|links| - 1].rel == "previous-page";
    }
  }

  /** The DTO of a job, with its links when they are asked for. */
  function JobDto(job: EntryImportJob, includeLinks: bool): EntryImportJobDto {
    EntryImportJobDto(job, if includeLinks then Some(JobLinks(job.id)) else None)
  }

  /** The result GetImportJobs builds for a signed-in user. */
  function PageOf(jobs: seq<EntryImportJob>, userId: string, includeLinks: bool,
                  page: Int32, pageSize: Int32, hasNextPage: bool, hasPreviousPage: bool): PaginationResult
  {
    var query := NewestFirst(Owned(jobs, userId));
    var window := Window(query, page, pageSize);
    PaginationResult(
      seq(|window|, i requires 0 <= i < |window| => JobDto(window[i], includeLinks)),
      page, pageSize, |query|,
      if includeLinks then Some(CollectionLinks(page, pageSize, hasNextPage, hasPreviousPage)) else None)
  }

  /** Every listed job is the caller's, they come latest first, and together
      they are the requested page of all the caller's jobs. TotalCount counts
      all the caller's jobs, whatever the page. */
  lemma PageOfCallersJobs(jobs: seq<EntryImportJob>, userId: string, includeLinks: bool,
                          page: Int32, pageSize: Int32, hasNextPage: bool, hasPreviousPage: bool)
    ensures var r := PageOf(jobs, userId, includeLinks, page, pageSize, hasNextPage, hasPreviousPage);
      && r.totalCount == |Owned(jobs, userId)|
      && (forall i :: 0 <= i < |r.items| ==> r.items[i].job in jobs && r.items[i].job.userId == userId)
      && (forall i, j :: 0 <= i < j < |r.items| ==> r.items[i].job.createdAtUtc >= r.items[j].job.createdAtUtc)
      && (pageSize >= 0 ==> |r.items| <= pageSize)
  {
    var query := NewestFirst(Owned(jobs, userId));
    var window := Window(query, page, pageSize);
    QueryOfOwned(jobs, userId);
    WindowOfQuery(query, page, pageSize);
    if pageSize >= 0 {
      WindowBound(query, page, pageSize);
    }
    var r := PageOf(jobs, userId, includeLinks, page, pageSize, hasNextPage, hasPreviousPage);
    assert |r.items| == |window| && forall i :: 0 <= i < |r.items| ==> r.items[i].job == window[i];
  }

  /** The query holds the caller's jobs, as many as they own, latest first. */
  lemma QueryOfOwned(jobs: seq<EntryImportJob>, userId: string)
    ensures var query := NewestFirst(Owned(jobs, userId));
      && |query| == |Owned(jobs, userId)|
      && NewestFirstOrdered(query)
      && forall j :: j in query ==> j in jobs && j.userId == userId
  {
    var owned := Owned(jobs, userId);
    var query := NewestFirst(owned);
    assert |multiset(query)| == |multiset(owned)|;
    forall j | j in query ensures j in jobs && j.userId == userId {
      assert j in multiset(query);
    }
  }

  /** A page of an ordered query is ordered and drawn from the query. */
  lemma WindowOfQuery(query: seq<EntryImportJob>, page: Int32, pageSize: Int32)
    requires NewestFirstOrdered(query)
    ensures NewestFirstOrdered(Window(query, page, pageSize))
    ensures forall j :: j in Window(query, page, pageSize) ==> j in query
  {
    WindowIsRun(query, page, pageSize);
    var a, b :| 0 <= a <= b <= |query| && Window(query, page, pageSize) == query[a..b];
    RunOfOrdered(query, a, b);
  }

  /** A run of an ordered sequence is ordered and drawn from it. */
  lemma RunOfOrdered(query: seq<EntryImportJob>, a: int, b: int)
    requires 0 <= a <= b <= |query| && NewestFirstOrdered(query)
    ensures NewestFirstOrdered(query[a..b])
    ensures forall j :: j in query[a..b] ==> j in query
  {
    var run := query[a..b];
    forall i, j | 0 <= i < j < |run| ensures run[i].createdAtUtc >= run[j].createdAtUtc {
      assert run[i] == query[a + i] && run[j] == query[a + j];
    }
    forall x | x in run ensures x in query {
      var i :| 0 <= i < |run| && run[i] == x;
      assert query[a + i] == x;
    }
  }

  /** Take never yields more than pageSize jobs, whatever the offset. */
  lemma WindowBound(query: seq<EntryImportJob>, page: Int32, pageSize: Int32)
    requires pageSize >= 0
    ensures |Window(query, page, pageSize)| <= pageSize
  {
  }

  /** A window is a contiguous run of the query. */
  lemma WindowIsRun(query: seq<EntryImportJob>, page: Int32, pageSize: Int32)
    ensures exists a, b :: 0 <= a <= b <= |query| && Window(query, page, pageSize) == query[a..b]
  {
    var n := WrappedOffset(page, pageSize);
    var skipped := Skip(query, n);
    var a := if n <= 0 then 0 else if n >= |query| then |query| else n;
    assert skipped == query[a..];
    var b := if pageSize <= 0 then a else if pageSize >= |skipped| then |query| else a + pageSize;
    assert Window(query, page, pageSize) == query[a..b];
  }

  /** The independent count: how many jobs belong to the user. */
  function CountOwned(jobs: seq<EntryImportJob>, userId: string): nat {
    if jobs == [] then 0 else (if jobs[0].userId == userId then 1 else 0) + CountOwned(jobs[1..], userId)
  }

  /** TotalCount is the number of the user's jobs in the table. */
  lemma {:induction false} TotalCountCountsOwned(jobs: seq<EntryImportJob>, userId: string)
    ensures |Owned(jobs, userId)| == CountOwned(jobs, userId)
  {
    if jobs != [] {
      TotalCountCountsOwned(jobs[1..], userId);
    }
  }

  /** Links appear on the items and on the result exactly when they are asked for. */
  lemma LinksOnlyWhenIncluded(jobs: seq<EntryImportJob>, userId: string, includeLinks: bool,
                              page: Int32, pageSize: Int32, hasNextPage: bool, hasPreviousPage: bool)
    ensures var r := PageOf(jobs, userId, includeLinks, page, pageSize, hasNextPage, hasPreviousPage);
      && (r.links.Some? <==> includeLinks)
      && (forall i :: 0 <= i < |r.items| ==>
            (r.items[i].links.Some? <==> includeLinks)
            && (includeLinks ==> r.items[i].links.value == [Link("GetImportJob", "self", Get, JobRoute(r.items[i].job.id))]))
  {
  }

  /** `FirstOrDefault(j => j.Id == id && j.UserId == userId)` in table order. */
  function FindOwned(jobs: seq<EntryImportJob>, id: string, userId: string): (r: Option<EntryImportJob>)
    ensures r.None? <==> forall j :: j in jobs ==> !(j.id == id && j.userId == userId)
    ensures r.Some? ==> r.value in jobs && r.value.id == id && r.value.userId == userId
  {
    if jobs == [] then None
    else if jobs[0].id == id && jobs[0].userId == userId then Some(jobs[0])
    else
      assert jobs == [jobs[0]] + jobs[1..];
      FindOwned(jobs[1..], id, userId)
  }

  /** The page's dtos: each job as a dto, then, when links are asked for,
      the links of each dto. */
  method JobDtos(window: seq<EntryImportJob>, includeLinks: bool) returns (dtos: seq<EntryImportJobDto>)
    ensures dtos == seq(|window|, i requires 0 <= i < |window| => JobDto(window[i], includeLinks))
  {
    dtos := seq(|window|, i requires 0 <= i < |window| => JobDto(window[i], false));
    if includeLinks {
      dtos := AttachItemLinks(dtos);
    }
  }

  /** CreateLinksForImportJobs: the self link, then the conditional ones. */
  method CreateLinksForImportJobs(page: Int32, pageSize: Int32, hasNextPage: bool, hasPreviousPage: bool)
    returns (links: seq<Link>)
    ensures links == CollectionLinks(page, pageSize, hasNextPage, hasPreviousPage)
  {
    links := [PageLink("self", page, pageSize)];
    if hasNextPage {
      links := links + [PageLink("next-page", Wrap32(page + 1), pageSize)];
    }
    if hasPreviousPage {
      links := links + [PageLink("previous-page", Wrap32(page - 1), pageSize)];
    }
  }

  /** The foreach of GetImportJobs that sets each DTO's links. */
  method AttachItemLinks(dtos: seq<EntryImportJobDto>) returns (linked: seq<EntryImportJobDto>)
    ensures |linked| == |dtos|
    ensures forall i :: 0 <= i < |dtos| ==> linked[i] == JobDto(dtos[i].job, true)
  {
    linked := [];
    var i := 0;
    while i < |dtos|
      invariant 0 <= i <= |dtos|
      invariant |linked| == i
      invariant forall k :: 0 <= k < i ==> linked[k] == JobDto(dtos[k].job, true)
    {
      linked := linked + [dtos[i].(links := Some(JobLinks(dtos[i].job.id)))];
      i := i + 1;
    }
  }

  /** The controller over the EntryImportJobs table. PaginationResult's
      HasNextPage and HasPreviousPage are functions of page, page size and
      total count that are not part of this model. */
  class EntryImportsController {
    var importJobs: seq<EntryImportJob>
    const hasNextPage: (Int32, Int32, int) -> bool
    const hasPreviousPage: (Int32, Int32, int) -> bool

    constructor (importJobs: seq<EntryImportJob>, hasNextPage: (Int32, Int32, int) -> bool,
                 hasPreviousPage: (Int32, Int32, int) -> bool)
      ensures this.importJobs == importJobs
      ensures this.hasNextPage == hasNextPage && this.hasPreviousPage == hasPreviousPage
    {
      this.importJobs := importJobs;
      this.hasNextPage := hasNextPage;
      this.hasPreviousPage := hasPreviousPage;
    }

    /** GetImportJobs(acceptHeader, page, pageSize) */
    method GetImportJobs(userId: Option<string>, includeLinks: bool, page: Int32 := 1, pageSize: Int32 := 10)
      returns (r: ActionResult<PaginationResult>)
      ensures IsNullOrWhiteSpace(userId) <==> r == Unauthorized
      ensures !IsNullOrWhiteSpace(userId) ==>
        var total := |Owned(importJobs, userId.value)|;
        r == OkObject(PageOf(importJobs, userId.value, includeLinks, page, pageSize,
                             hasNextPage(page, pageSize, total), hasPreviousPage(page, pageSize, total)))
    {
      if IsNullOrWhiteSpace(userId) {
        return Unauthorized;
      }
      var query := NewestFirst(Owned(importJobs, userId.value));
      var totalCount := |query|;
      assert totalCount == |Owned(importJobs, userId.value)| by {
        assert |multiset(query)| == |multiset(Owned(importJobs, userId.value))|;
      }
      var window := Window(query, page, pageSize);
      var importJobDtos := JobDtos(window, includeLinks);
      var links: Option<seq<Link>> := None;
      if includeLinks {
        var collectionLinks := CreateLinksForImportJobs(page, pageSize,
          hasNextPage(page, pageSize, totalCount), hasPreviousPage(page, pageSize, totalCount));
        links := Some(collectionLinks);
      }
      assert importJobDtos == PageOf(importJobs, userId.value, includeLinks, page, pageSize,
        hasNextPage(page, pageSize, totalCount), hasPreviousPage(page, pageSize, totalCount)).items;
      r := OkObject(PaginationResult(importJobDtos, page, pageSize, totalCount, links));
    }

    /** GetImportJob(id, acceptHeader): NotFound unless the caller owns a job
        with that id; the self link uses the requested id. */
    method GetImportJob(userId: Option<string>, id: string, includeLinks: bool)
      returns (r: ActionResult<EntryImportJobDto>)
      ensures IsNullOrWhiteSpace(userId) <==> r == Unauthorized
      ensures !IsNullOrWhiteSpace(userId) ==>
        (r == NotFound <==> forall j :: j in importJobs ==> !(j.id == id && j.userId == userId.value))
      ensures r.OkObject? ==>
        (r.value.job in importJobs && r.value.job.id == id
         && userId.Some? && r.value.job.userId == userId.value
         && r.value.links == (if includeLinks then Some(JobLinks(id)) else None))
      ensures r.Unauthorized? || r.NotFound? || r.OkObject?
    {
      if IsNullOrWhiteSpace(userId) {
        return Unauthorized;
      }
      var found := FindOwned(importJobs, id, userId.value);
      if found.None? {
        return NotFound;
      }
      var importJob := EntryImportJobDto(found.value, None);
      if includeLinks {
        importJob := importJob.(links := Some(JobLinks(id)));
      }
      r := OkObject(importJob);
    }

    /** CreateImportJob(createImportJobDto, acceptHeader, validator): a new
        pending job owned by the caller, holding the uploaded file and stamped
        with the current time, appended to the table. */
    method CreateImportJob(userId: Option<string>, fileName: string, fileContent: seq<byte>,
                           includeLinks: bool, newId: string, utcNow: int)
      returns (r: ActionResult<EntryImportJobDto>)
      modifies this
      ensures IsNullOrWhiteSpace(userId) ==> r == Unauthorized && importJobs == old(importJobs)
      ensures !IsNullOrWhiteSpace(userId) ==>
        var job := EntryImportJob(newId, userId.value, Pending, fileName, fileContent, utcNow);
        importJobs == old(importJobs) + [job]
        && r == CreatedAt("GetImportJob", newId, JobDto(job, includeLinks))
    {
      if IsNullOrWhiteSpace(userId) {
        return Unauthorized;
      }
      var importJob := EntryImportJob(newId, userId.value, Pending, fileName, fileContent, utcNow);
      importJobs := importJobs + [importJob];
      var importJobDto := EntryImportJobDto(importJob, None);
      if includeLinks {
        importJobDto := importJobDto.(links := Some(JobLinks(importJob.id)));
      }
      r := CreatedAt("GetImportJob", importJobDto.job.id, importJobDto);
    }
  }
}
