/**
 * The employee directory fetcher: offset pagination over the HR backend's
 * employee resource until a page is empty, lacks its `data` key, or the
 * request fails; whatever was gathered by then is the roster.
 */
module Roster {
  import opened Records

  /** `limit_page_length`: every request asks for this many entries. */
  const PageLength: nat := 1000

  /** The backend's answer to the request for page number `k`. */
  function PageAnswer(b: Backend, k: nat): PageResponse {
    if k < |b.pages| then b.pages[k] else Page([])
  }

  /** The backend's answer to a request with `limit_start == offset`. */
  function Respond(b: Backend, offset: nat): PageResponse {
    PageAnswer(b, offset / PageLength)
  }

  /** The request at offset `k * 1000` asks for page number `k`. */
  lemma PageOffset(b: Backend, k: nat)
    ensures Respond(b, k * PageLength) == PageAnswer(b, k)
  {
  }

  /** Whether an answer ends the pagination loop. */
  predicate Stops(r: PageResponse) {
    !r.Page? || r.data == []
  }

  /** The entries an answer contributes to the roster. */
  function PageData(r: PageResponse): seq<Employee> {
    if r.Page? then r.data else []
  }

  /** The roster gathered by reading pages from page number `k` on. */
  function Listing(b: Backend, k: nat): seq<Employee>
    decreases |b.pages| - k
  {
    var r := PageAnswer(b, k);
    if Stops(r) then [] else r.data + Listing(b, k + 1)
  }

  /** Page `n` is the first whose answer ends the loop. */
  ghost predicate FirstStop(b: Backend, n: nat) {
    && Stops(PageAnswer(b, n))
    && forall k :: 0 <= k < n ==> !Stops(PageAnswer(b, k))
  }

  /** The concatenation, in page order, of the first `n` pages. */
  function Pages(b: Backend, n: nat): seq<Employee> {
    if n == 0 then [] else Pages(b, n - 1) + PageData(PageAnswer(b, n - 1))
  }

  /** At most one page is the first to end the loop. */
  lemma FirstStopUnique(b: Backend, n: nat, m: nat)
    requires FirstStop(b, n) && FirstStop(b, m)
    ensures n == m
  {
  }

  /** Reading from page `k` on completes the first `k` pages to the first `n`. */
  lemma {:induction false} ListingCompletesPages(b: Backend, k: nat, n: nat)
    requires k <= n && FirstStop(b, n)
    ensures Pages(b, k) + Listing(b, k) == Pages(b, n)
    decreases n - k
  {
    if k < n {
      var r := PageAnswer(b, k);
      assert !Stops(r);
      var head, tail := Pages(b, k), Listing(b, k + 1);
      assert Listing(b, k) == r.data + tail;
      assert Pages(b, k + 1) == head + r.data;
      ListingCompletesPages(b, k + 1, n);
      AppendAssoc(head, r.data, tail);
    } else {
      assert Listing(b, k) == [];
    }
  }

  lemma AppendAssoc(a: seq<Employee>, b: seq<Employee>, c: seq<Employee>)
    ensures a + (b + c) == (a + b) + c
  {
  }

  /**
   * The roster is the concatenation, in order, of the non-empty pages
   * received before the first stop.
   */
  lemma ListingIsPages(b: Backend, n: nat)
    requires FirstStop(b, n)
    ensures Listing(b, 0) == Pages(b, n)
  {
    ListingCompletesPages(b, 0, n);
  }

  /** Every roster entry comes from one of the pages before the first stop, and every entry of those pages is kept. */
  lemma {:induction false} PagesMembers(b: Backend, n: nat, e: Employee)
    ensures e in Pages(b, n) <==> exists k :: 0 <= k < n && e in PageData(PageAnswer(b, k))
  {
    if n > 0 {
      PagesMembers(b, n - 1, e);
      var last := PageData(PageAnswer(b, n - 1));
      assert Pages(b, n) == Pages(b, n - 1) + last;
      if e in last {
        assert exists k :: 0 <= k < n && e in PageData(PageAnswer(b, k));
      }
      if exists k :: 0 <= k < n && e in PageData(PageAnswer(b, k)) {
        var k :| 0 <= k < n && e in PageData(PageAnswer(b, k));
        if k < n - 1 {
          assert exists k' :: 0 <= k' < n - 1 && e in PageData(PageAnswer(b, k'));
        }
      }
    }
  }

  /**
   * `fetch_employee_data`'s loop: requests the offsets 0, 1000, 2000, ... in
   * order, stops at the first page that is empty, lacks `data` or fails, and
   * returns the pages received before it (a partial roster, never an error).
   * `requests` lists the `limit_start` of every request made.
   */
  method FetchEmployeeData(b: Backend) returns (roster: seq<Employee>, requests: seq<nat>)
    ensures |requests| >= 1
    ensures forall j :: 0 <= j < |requests| ==> requests[j] == j * PageLength
    ensures FirstStop(b, |requests| - 1)
    ensures roster == Pages(b, |requests| - 1)
    ensures roster == Listing(b, 0)
  {
    var limitStart: nat := 0;
    var allData: seq<Employee> := [];
    requests := [];
    while true
      invariant limitStart == |requests| * PageLength
      invariant |requests| <= |b.pages|
      invariant forall j :: 0 <= j < |requests| ==> requests[j] == j * PageLength
      invariant forall k :: 0 <= k < |requests| ==> !Stops(PageAnswer(b, k))
      invariant allData == Pages(b, |requests|)
      decreases |b.pages| - |requests|
    {
      PageOffset(b, |requests|);
      var response := Respond(b, limitStart);
      requests := requests + [limitStart];
      match response
      case RequestFailed =>
        break;
      case MissingData =>
        break;
      case Page(soData) =>
        if soData == [] {
          break;
        }
        allData := allData + soData;
        limitStart := limitStart + PageLength;
    }
    roster := allData;
    ListingIsPages(b, |requests| - 1);
  }
}
