/** The `/api/matches` route: the signed-in user's page of matches, filtered
    by organisation and facility, ordered by score from highest to lowest,
    with a generated avatar for every facility that has no logo. */
module MatchesApi {
  import opened Wrappers
  import Rbac
  import Uri

  /** An embedded `facilities` row: `id, name, logo_url, industry`. */
  datatype FacilityRef = FacilityRef(id: Option<string>, name: Option<string>, logoUrl: Option<string>, industry: Option<string>)

  /** A row of `matches` with both facilities embedded; an embedded facility
      is `None` when the foreign key is null. */
  datatype MatchRow = MatchRow(
    id: string,
    orgId: Option<string>,
    facilityAId: Option<string>,
    facilityBId: Option<string>,
    score: real,
    facilityA: Option<FacilityRef>,
    facilityB: Option<FacilityRef>)

  /** The query string, with `page` and `per_page` already read as integers;
      `None` is a parameter that is absent or empty. */
  datatype Query = Query(page: Option<int>, perPage: Option<int>, orgId: Option<string>, facilityId: Option<string>)

  datatype Reply = Matches(matches: seq<MatchRow>) | Error(status: int, message: string)

  /** A string value JavaScript treats as true: present and non-empty. */
  predicate Truthy(v: Option<string>) {
    v.Some? && v.value != ""
  }

  /** `Math.max(1, Number(page || "1"))`. */
  function Page(p: Option<int>): (n: int)
    ensures n >= 1
    ensures p.None? ==> n == 1
    ensures p.Some? && p.value >= 1 ==> n == p.value
    ensures p.Some? && p.value < 1 ==> n == 1
  {
    if p.None? then 1 else if p.value < 1 then 1 else p.value
  }

  /** `Math.min(100, Math.max(1, Number(per_page || "10")))`: an explicit
      `0` is clamped to 1, not replaced by the default. */
  function PerPage(p: Option<int>): (n: int)
    ensures 1 <= n <= 100
    ensures p.None? ==> n == 10
    ensures p.Some? && 1 <= p.value <= 100 ==> n == p.value
    ensures p.Some? && p.value > 100 ==> n == 100
    ensures p.Some? && p.value < 1 ==> n == 1
  {
    var m := if p.None? then 10 else if p.value < 1 then 1 else p.value;
    if m > 100 then 100 else m
  }

  /** The first position of `.range(from, to)`. */
  function From(page: int, perPage: int): (f: int)
    ensures page >= 1 && perPage >= 1 ==> f >= 0
  {
    (page - 1) * perPage
  }

  /** The last position of `.range(from, to)`, included. */
  function To(page: int, perPage: int): int {
    page * perPage - 1
  }

  /** A page covers `perPage` positions starting at a multiple of `perPage`,
      and the next page starts right after it. */
  lemma RangeShape(page: int, perPage: int)
    requires page >= 1 && perPage >= 1
    ensures From(page, perPage) >= 0
    ensures To(page, perPage) - From(page, perPage) + 1 == perPage
    ensures To(page, perPage) + 1 == From(page + 1, perPage)
  {
  }

  /** The organisation to filter on: the `orgId` parameter, else the
      `x-user-org` request header, else none. */
  function OrgFilter(param: Option<string>, header: Option<string>): (r: Option<string>)
    ensures Truthy(param) ==> r == param
    ensures !Truthy(param) && Truthy(header) ==> r == header
    ensures !Truthy(param) && !Truthy(header) ==> r.None?
  {
    if Truthy(param) then param else if Truthy(header) then header else None
  }

  /** The row passes `.eq("org_id", org)` and the `or` filter on either
      facility id. A null column equals nothing. */
  predicate Keep(m: MatchRow, org: Option<string>, facility: Option<string>) {
    (org.None? || m.orgId == org) &&
    (facility.None? || m.facilityAId == facility || m.facilityBId == facility)
  }

  /** The rows that pass the filters, in table order. */
  function Filtered(rows: seq<MatchRow>, org: Option<string>, facility: Option<string>): (r: seq<MatchRow>)
    ensures forall x :: x in r <==> x in rows && Keep(x, org, facility)
    ensures |r| <= |rows|
  {
    if rows == [] then []
    else
      assert rows == [rows[0]] + rows[1..];
      (if Keep(rows[0], org, facility) then [rows[0]] else []) + Filtered(rows[1..], org, facility)
  }

  /** Filtering invents no row and duplicates none. */
  lemma {:induction false} FilteredWithin(rows: seq<MatchRow>, org: Option<string>, facility: Option<string>)
    ensures multiset(Filtered(rows, org, facility)) <= multiset(rows)
  {
    if rows != [] {
      assert rows == [rows[0]] + rows[1..];
      FilteredWithin(rows[1..], org, facility);
    }
  }

  /** Highest score first. */
  predicate SortedDesc(s: seq<MatchRow>) {
    forall i, j :: 0 <= i < j < |s| ==> s[i].score >= s[j].score
  }

  /** A row put in front of a descending list that it scores at least as
      high as its head keeps the list descending. */
  lemma ConsSorted(h: MatchRow, t: seq<MatchRow>)
    requires SortedDesc(t) && (t == [] || h.score >= t[0].score)
    ensures SortedDesc([h] + t)
  {
    var r := [h] + t;
    forall i, j | 0 <= i < j < |r|
      ensures r[i].score >= r[j].score
    {
      assert r[j] == t[j - 1];
      if i == 0 {
        assert t[0].score >= t[j - 1].score;
      } else {
        assert r[i] == t[i - 1];
      }
    }
  }

  /** `x` placed before the first row of `s` that scores lower, keeping rows
      of equal score in their order. */
  function Insert(x: MatchRow, s: seq<MatchRow>): (r: seq<MatchRow>)
    requires SortedDesc(s)
    ensures SortedDesc(r)
    ensures |r| == |s| + 1
    ensures r[0] == x || (s != [] && r[0] == s[0])
  {
    if s == [] then [x]
    else if x.score >= s[0].score then
      ConsSorted(x, s);
      [x] + s
    else
      assert s == [s[0]] + s[1..];
      var rest := Insert(x, s[1..]);
      assert rest[0] == x || rest[0] == s[1];
      ConsSorted(s[0], rest);
      [s[0]] + rest
  }

  /** `.order("score", { ascending: false })`: the rows sorted by score,
      highest first, with nothing added or lost. */
  function SortDesc(xs: seq<MatchRow>): (r: seq<MatchRow>)
    ensures SortedDesc(r)
    ensures |r| == |xs|
  {
    if xs == [] then []
    else
      Insert(xs[0], SortDesc(xs[1..]))
  }

  /** Inserting adds exactly the new row. */
  lemma {:induction false} InsertPermutes(x: MatchRow, s: seq<MatchRow>)
    requires SortedDesc(s)
    ensures multiset(Insert(x, s)) == multiset(s) + multiset{x}
  {
    if s != [] && x.score < s[0].score {
      assert s == [s[0]] + s[1..];
      InsertPermutes(x, s[1..]);
    }
  }

  /** Sorting adds and loses nothing: the result is a permutation. */
  lemma {:induction false} SortDescPermutes(xs: seq<MatchRow>)
    ensures multiset(SortDesc(xs)) == multiset(xs)
  {
    if xs != [] {
      assert xs == [xs[0]] + xs[1..];
      SortDescPermutes(xs[1..]);
      InsertPermutes(xs[0], SortDesc(xs[1..]));
    }
  }

  /** `.range(from, to)`: positions `from` to `to` of the ordered rows, as far
      as there are rows. */
  function Window(xs: seq<MatchRow>, from: int, to: int): (r: seq<MatchRow>)
    requires from >= 0
    ensures |r| <= if to < from then 0 else to - from + 1
    ensures from <= |xs| ==> r == xs[from .. if to + 1 < from then from else if to + 1 > |xs| then |xs| else to + 1]
    ensures from > |xs| ==> r == []
  {
    if from >= |xs| then []
    else if to + 1 < from then []
    else if to + 1 > |xs| then xs[from..]
    else xs[from .. to + 1]
  }

  /** The rows of page `page`. */
  function PageOf(xs: seq<MatchRow>, page: int, perPage: int): seq<MatchRow>
    requires page >= 1 && perPage >= 1
  {
    Window(xs, From(page, perPage), To(page, perPage))
  }

  /** Pages 1 .. k, one after the other. */
  function FirstPages(xs: seq<MatchRow>, k: nat, perPage: int): seq<MatchRow>
    requires perPage >= 1
  {
    if k == 0 then [] else FirstPages(xs, k - 1, perPage) + PageOf(xs, k, perPage)
  }

  function Min(a: int, b: int): int {
    if a < b then a else b
  }

  /** Reading pages 1 to k in turn gives the first `k * perPage` rows, each
      once and in order: pages neither overlap nor leave gaps. */
  lemma PagesTileTheList(xs: seq<MatchRow>, k: nat, perPage: int)
    requires perPage >= 1
    ensures FirstPages(xs, k, perPage) == xs[..Min(k * perPage, |xs|)]
  {
    FirstPagesJoin(xs, k, perPage);
    OffsetIsProduct(k, perPage);
  }

  /** `PagesTileTheList`, with the offset counted page by page. */
  lemma {:induction false} FirstPagesJoin(xs: seq<MatchRow>, k: nat, perPage: nat)
    requires perPage >= 1
    ensures FirstPages(xs, k, perPage) == xs[..Min(Offset(k, perPage), |xs|)]
  {
    if k > 0 {
      FirstPagesJoin(xs, k - 1, perPage);
      PageAtOffset(xs, k, perPage);
      var a := Min(Offset(k - 1, perPage), |xs|);
      var b := Min(Offset(k, perPage), |xs|);
      assert a <= b;
      SliceSplit(xs, a, b);
    }
  }

  /** Page k covers the positions from `(k - 1) * perPage` up to
      `k * perPage`, clipped at the end of the list. */
  lemma PageAtOffset(xs: seq<MatchRow>, k: nat, perPage: nat)
    requires k >= 1 && perPage >= 1
    ensures PageOf(xs, k, perPage) == xs[Min(Offset(k - 1, perPage), |xs|) .. Min(Offset(k, perPage), |xs|)]
  {
    OffsetIsProduct(k - 1, perPage);
    OffsetIsProduct(k, perPage);
    assert From(k, perPage) == Offset(k - 1, perPage) && To(k, perPage) + 1 == Offset(k, perPage);
    WindowSlice(xs, From(k, perPage), To(k, perPage));
  }

  /** The facility with its logo: the stored `logo_url` when it is a
      non-empty string, else a ui-avatars URL for the name, or for
      "Business" when there is no name. A null facility becomes one with
      only a logo. */
  function WithLogo(f: Option<FacilityRef>): (r: FacilityRef)
    ensures f.Some? ==> r.id == f.value.id && r.name == f.value.name && r.industry == f.value.industry
    ensures f.None? ==> r == FacilityRef(None, None, Some(AvatarUrl("Business")), None)
    ensures f.Some? && Truthy(f.value.logoUrl) ==> r.logoUrl == f.value.logoUrl
    ensures f.Some? && !Truthy(f.value.logoUrl) ==>
      r.logoUrl == Some(AvatarUrl(if Truthy(f.value.name) then f.value.name.value else "Business"))
    ensures Truthy(r.logoUrl)
  {
    var base := f.GetOr(FacilityRef(None, None, None, None));
    var logo := if Truthy(base.logoUrl) then base.logoUrl.value
      else AvatarUrl(if Truthy(base.name) then base.name.value else "Business");
    base.(logoUrl := Some(logo))
  }

  const AvatarPrefix := "https://ui-avatars.com/api/?name="
  const AvatarSuffix := "&background=random"

  /** The generated avatar URL for a name. */
  function AvatarUrl(name: string): (url: string)
    ensures |url| >= |AvatarPrefix| + |AvatarSuffix|
    ensures url[..|AvatarPrefix|] == AvatarPrefix
    ensures url[|url| - |AvatarSuffix|..] == AvatarSuffix
  {
    AvatarPrefix + Uri.EncodeURIComponent(name) + AvatarSuffix
  }

  /** Whatever the name holds, it stays inside the `name` parameter of the
      avatar URL: no `&`, `=`, `#` or `?` of it reaches the URL. */
  lemma AvatarNameIsEscaped(name: string, i: int)
    requires |AvatarPrefix| <= i < |AvatarUrl(name)| - |AvatarSuffix|
    ensures Uri.IsUnreserved(AvatarUrl(name)[i]) || AvatarUrl(name)[i] == '%'
  {
    var e := Uri.EncodeURIComponent(name);
    assert AvatarUrl(name)[i] == e[i - |AvatarPrefix|];
  }

  /** A name made only of unreserved characters appears in the URL as it
      is. */
  lemma AvatarUrlOfPlainName(name: string)
    requires forall i :: 0 <= i < |name| ==> Uri.IsUnreserved(name[i])
    ensures AvatarUrl(name) == AvatarPrefix + name + AvatarSuffix
  {
    Uri.EncodeUnreserved(name);
  }

  /** Different names get different avatar URLs. */
  lemma AvatarUrlInjective(a: string, b: string)
    requires AvatarUrl(a) == AvatarUrl(b)
    ensures a == b
  {
    var ea := Uri.EncodeURIComponent(a);
    var eb := Uri.EncodeURIComponent(b);
    var u := AvatarUrl(a);
    assert u[|AvatarPrefix| .. |AvatarPrefix| + |ea|] == ea;
    assert AvatarUrl(b)[|AvatarPrefix| .. |AvatarPrefix| + |eb|] == eb;
    Uri.EncodeInjective(a, b);
  }

  /** A match as returned: both facilities replaced by their logo form. */
  function Decorate(m: MatchRow): (r: MatchRow)
    ensures r.id == m.id && r.orgId == m.orgId && r.score == m.score
    ensures r.facilityAId == m.facilityAId && r.facilityBId == m.facilityBId
    ensures r.facilityA == Some(WithLogo(m.facilityA)) && r.facilityB == Some(WithLogo(m.facilityB))
  {
    m.(facilityA := Some(WithLogo(m.facilityA)), facilityB := Some(WithLogo(m.facilityB)))
  }

  function DecorateAll(xs: seq<MatchRow>): (r: seq<MatchRow>)
    ensures |r| == |xs|
    ensures forall i :: 0 <= i < |r| ==> r[i] == Decorate(xs[i])
  {
    seq(|xs|, i requires 0 <= i < |xs| => Decorate(xs[i]))
  }

  /** A page of a descending list holds at most `perPage` of its rows, in
      descending order. */
  lemma PageFacts(xs: seq<MatchRow>, page: int, perPage: int)
    requires page >= 1 && perPage >= 1 && SortedDesc(xs)
    ensures |PageOf(xs, page, perPage)| <= perPage
    ensures SortedDesc(PageOf(xs, page, perPage))
    ensures forall x :: x in PageOf(xs, page, perPage) ==> x in xs
  {
    RangeShape(page, perPage);
    WindowOfSorted(xs, From(page, perPage), To(page, perPage));
  }

  /** A window that does not run backwards is a slice clipped at the end. */
  lemma WindowSlice(xs: seq<MatchRow>, from: int, to: int)
    requires 0 <= from <= to + 1
    ensures Window(xs, from, to) == xs[Min(from, |xs|) .. Min(to + 1, |xs|)]
  {
  }

  /** The facility filter of a query: `facilityId` when it is a non-empty
      string, otherwise no filter. */
  function FacilityFilter(q: Query): Option<string> {
    if Truthy(q.facilityId) then q.facilityId else None
  }

  /** The rows of a query that pass both filters, highest score first: the
      list that the query's pages are cut from. */
  function Ranked(rows: seq<MatchRow>, q: Query, orgHeader: Option<string>): (r: seq<MatchRow>)
    ensures SortedDesc(r)
    ensures |r| == |Filtered(rows, OrgFilter(q.orgId, orgHeader), FacilityFilter(q))|
  {
    SortDesc(Filtered(rows, OrgFilter(q.orgId, orgHeader), FacilityFilter(q)))
  }

  /** The page a query asks for: the rows at positions `from` to `to` of the
      ranked list, as many of them as exist, with logos; so at most
      `perPage` matches, by descending score, each a stored row that passes
      both filters. */
  function Listing(rows: seq<MatchRow>, q: Query, orgHeader: Option<string>): (r: seq<MatchRow>)
    ensures var n := |Ranked(rows, q, orgHeader)|;
      var from := From(Page(q.page), PerPage(q.perPage));
      |r| == if from >= n then 0 else Min(PerPage(q.perPage), n - from)
    ensures var rk := Ranked(rows, q, orgHeader);
      var from := From(Page(q.page), PerPage(q.perPage));
      var to := To(Page(q.page), PerPage(q.perPage));
      0 <= from <= to + 1 && r == DecorateAll(rk[Min(from, |rk|) .. Min(to + 1, |rk|)])
    ensures |r| <= PerPage(q.perPage)
    ensures SortedDesc(r)
    ensures forall i :: 0 <= i < |r| ==> DecoratedStored(r[i], rows, OrgFilter(q.orgId, orgHeader), FacilityFilter(q))
  {
    var sorted := Ranked(rows, q, orgHeader);
    var window := PageOf(sorted, Page(q.page), PerPage(q.perPage));
    PageFacts(sorted, Page(q.page), PerPage(q.perPage));
    RangeShape(Page(q.page), PerPage(q.perPage));
    WindowSlice(sorted, From(Page(q.page), PerPage(q.perPage)), To(Page(q.page), PerPage(q.perPage)));
    DecorateKeepsOrder(window);
    RankedRowsAreStored(rows, q, orgHeader, window);
    DecoratedRowsAreStored(rows, OrgFilter(q.orgId, orgHeader), FacilityFilter(q), window);
    DecorateAll(window)
  }

  /** `y` is a stored row that passes both filters, with its logos. */
  predicate DecoratedStored(y: MatchRow, rows: seq<MatchRow>, org: Option<string>, fac: Option<string>) {
    exists x :: x in rows && Keep(x, org, fac) && y == Decorate(x)
  }

  /** Decorated rows come from stored rows that pass both filters. */
  lemma DecoratedRowsAreStored(rows: seq<MatchRow>, org: Option<string>, fac: Option<string>, w: seq<MatchRow>)
    requires forall x :: x in w ==> x in rows && Keep(x, org, fac)
    ensures forall i :: 0 <= i < |DecorateAll(w)| ==> DecoratedStored(DecorateAll(w)[i], rows, org, fac)
  {
    forall i | 0 <= i < |DecorateAll(w)|
      ensures DecoratedStored(DecorateAll(w)[i], rows, org, fac)
    {
      var x := w[i];
      assert x in w && DecorateAll(w)[i] == Decorate(x);
    }
  }

  /** Every row taken from the ranked list is a stored row that passes both
      filters. */
  lemma RankedRowsAreStored(rows: seq<MatchRow>, q: Query, orgHeader: Option<string>, w: seq<MatchRow>)
    requires forall x :: x in w ==> x in Ranked(rows, q, orgHeader)
    ensures forall x :: x in w ==> x in rows && Keep(x, OrgFilter(q.orgId, orgHeader), FacilityFilter(q))
  {
    var org := OrgFilter(q.orgId, orgHeader);
    var fac := FacilityFilter(q);
    var kept := Filtered(rows, org, fac);
    var rk := Ranked(rows, q, orgHeader);
    SortDescPermutes(kept);
    forall x | x in w
      ensures x in rows && Keep(x, org, fac)
    {
      assert x in multiset(rk);
      assert x in kept;
    }
  }

  /** Decorating a joined list decorates each part. */
  lemma DecorateAllAppend(xs: seq<MatchRow>, ys: seq<MatchRow>)
    ensures DecorateAll(xs + ys) == DecorateAll(xs) + DecorateAll(ys)
  {
    var l := DecorateAll(xs + ys);
    var rr := DecorateAll(xs) + DecorateAll(ys);
    forall i | 0 <= i < |l|
      ensures l[i] == rr[i]
    {
      if i < |xs| {
        assert (xs + ys)[i] == xs[i];
      } else {
        assert (xs + ys)[i] == ys[i - |xs|];
      }
    }
  }

  /** `k * perPage`, counted one page at a time. */
  function Offset(k: nat, perPage: nat): nat {
    if k == 0 then 0 else Offset(k - 1, perPage) + perPage
  }

  lemma {:induction false} OffsetIsProduct(k: nat, perPage: nat)
    ensures Offset(k, perPage) == k * perPage
  {
    if k > 0 {
      OffsetIsProduct(k - 1, perPage);
      assert (k - 1) * perPage + perPage == k * perPage;
    }
  }

  /** Page k of a query: the decorated rows of the ranked list from
      `(k - 1) * perPage` up to `k * perPage`, clipped at its end. */
  lemma ListingOfPage(rows: seq<MatchRow>, q: Query, orgHeader: Option<string>, k: nat)
    requires k >= 1
    ensures var rk := Ranked(rows, q, orgHeader); var pp := PerPage(q.perPage);
      Listing(rows, q.(page := Some(k)), orgHeader) ==
        DecorateAll(rk[Min(Offset(k - 1, pp), |rk|) .. Min(Offset(k, pp), |rk|)])
  {
    var q' := q.(page := Some(k));
    var rk := Ranked(rows, q, orgHeader);
    var pp := PerPage(q.perPage);
    assert Ranked(rows, q', orgHeader) == rk;
    assert Listing(rows, q', orgHeader) == DecorateAll(PageOf(rk, k, pp));
    PageAtOffset(rk, k, pp);
  }

  /** The pages of a query from the first to page k, read in order and
      joined. */
  function Listed(rows: seq<MatchRow>, q: Query, orgHeader: Option<string>, k: nat): seq<MatchRow> {
    if k == 0 then [] else Listed(rows, q, orgHeader, k - 1) + Listing(rows, q.(page := Some(k)), orgHeader)
  }

  /** Reading the pages of a query from the first to page k, and joining
      them, gives the first `k * perPage` filtered rows in descending score
      order, each once, with logos: pages neither overlap nor skip a match. */
  lemma ListingsTile(rows: seq<MatchRow>, q: Query, orgHeader: Option<string>, k: nat)
    ensures var rk := Ranked(rows, q, orgHeader);
      Listed(rows, q, orgHeader, k) == DecorateAll(rk[..Min(k * PerPage(q.perPage), |rk|)])
  {
    ListedPrefix(rows, q, orgHeader, k);
    OffsetIsProduct(k, PerPage(q.perPage));
  }

  lemma {:induction false} ListedPrefix(rows: seq<MatchRow>, q: Query, orgHeader: Option<string>, k: nat)
    ensures var rk := Ranked(rows, q, orgHeader);
      Listed(rows, q, orgHeader, k) == DecorateAll(rk[..Min(Offset(k, PerPage(q.perPage)), |rk|)])
  {
    if k > 0 {
      var rk := Ranked(rows, q, orgHeader);
      var pp := PerPage(q.perPage);
      ListedPrefix(rows, q, orgHeader, k - 1);
      ListingOfPage(rows, q, orgHeader, k);
      DecoratedJoin(rk, Min(Offset(k - 1, pp), |rk|), Min(Offset(k, pp), |rk|));
    }
  }

  /** A decorated prefix followed by the decorated slice after it is the
      longer decorated prefix. */
  lemma DecoratedJoin(xs: seq<MatchRow>, a: int, b: int)
    requires 0 <= a <= b <= |xs|
    ensures DecorateAll(xs[..a]) + DecorateAll(xs[a..b]) == DecorateAll(xs[..b])
  {
    SliceSplit(xs, a, b);
    DecorateAllAppend(xs[..a], xs[a..b]);
  }

  lemma SliceSplit(xs: seq<MatchRow>, a: int, b: int)
    requires 0 <= a <= b <= |xs|
    ensures xs[..a] + xs[a..b] == xs[..b]
  {
  }

  /** Decorating keeps scores, hence the order. */
  lemma DecorateKeepsOrder(xs: seq<MatchRow>)
    requires SortedDesc(xs)
    ensures SortedDesc(DecorateAll(xs))
  {
  }

  /** GET `/api/matches`: the `checkAccess` error as it is, the store's error
      as a 500, or the page of filtered matches by descending score. The
      `x-user-org` header is the one of the request. */
  function Get(users: Rbac.Store, session: Option<string>, q: Query, orgHeader: Option<string>,
               rows: seq<MatchRow>, readError: Option<string>): (r: Reply)
    ensures Rbac.CheckAccess(users, session, None).Denied? ==>
      r == Error(Rbac.CheckAccess(users, session, None).status, Rbac.CheckAccess(users, session, None).message)
    ensures session.None? ==> r == Error(401, "Unauthorized")
    ensures Rbac.CheckAccess(users, session, None).Allowed? && readError.Some? ==> r == Error(500, readError.value)
    ensures Rbac.CheckAccess(users, session, None).Allowed? && readError.None? ==> r == Matches(Listing(rows, q, orgHeader))
  {
    var access := Rbac.CheckAccess(users, session, None);
    if access.Denied? then Error(access.status, access.message)
    else if readError.Some? then Error(500, readError.value)
    else Matches(Listing(rows, q, orgHeader))
  }

  /** A window of a sorted list is sorted. */
  lemma WindowOfSorted(xs: seq<MatchRow>, from: int, to: int)
    requires from >= 0 && SortedDesc(xs)
    ensures SortedDesc(Window(xs, from, to))
    ensures forall x :: x in Window(xs, from, to) ==> x in xs
  {
  }
}
