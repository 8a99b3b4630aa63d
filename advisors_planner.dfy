/** The pagination planner and the two-wave crawl of send_requests: every
    first-wave page that has a next page schedules its remaining pages in a
    buffer, which is dispatched once the first wave is drained. */
module AdvisorsPlanner {
  import opened Wrappers
  import opened AdvisorsDirectory
  import opened AdvisorsRequests
  import opened AdvisorsPages

  /** Requests for pages `current + 1 .. total` of the page's congressperson,
      in ascending order, when the page has a next page; none otherwise. */
  function PagesFor(d: PageData): (reqs: seq<PageRequest>)
    ensures |reqs| == Remaining(d)
    ensures !d.hasNextPage ==> reqs == []
  {
    if d.hasNextPage then
      seq(Max0(d.numberOfPages - d.currentPage),
          k requires 0 <= k => GetPage(d.congressperson, d.currentPage + 1 + k))
    else []
  }

  /** How many pages a first-wave page schedules: those after the current one,
      when it has a next page. */
  function Remaining(d: PageData): nat
  {
    if d.hasNextPage then Max0(d.numberOfPages - d.currentPage) else 0
  }

  /** The buffer after a sequence of first-wave pages, in arrival order. */
  function SecondWave(pages: seq<PageData>): seq<PageRequest>
  {
    Flatten(Scheduled(pages))
  }

  /** The requests each first-wave page schedules, page by page. */
  function Scheduled(pages: seq<PageData>): (parts: seq<seq<PageRequest>>)
    ensures |parts| == |pages|
  {
    seq(|pages|, i requires 0 <= i < |pages| => PagesFor(pages[i]))
  }

  /** The parsed pages of a response stream, up to the first one that fails to
      parse (the exception ends the generator). */
  function ParsePrefix(xs: seq<PageExtract>): seq<PageData>
  {
    if |xs| == 0 then []
    else
      match ParsePage(xs[0])
      case None => []
      case Some(d) => [d] + ParsePrefix(xs[1..])
  }

  predicate AllParse(xs: seq<PageExtract>)
  {
    forall i :: 0 <= i < |xs| ==> ParsePage(xs[i]).Some?
  }

  /** Each wave-1 page with a next page contributes max(0, total - current)
      requests, all for its own congressperson, for pages current+1, current+2, ... */
  lemma PagesForSpec(d: PageData)
    requires WellFormed(d)
    ensures |PagesFor(d)| == Max0(d.numberOfPages - d.currentPage)
    ensures forall k :: 0 <= k < |PagesFor(d)| ==>
              PagesFor(d)[k].lotacao == d.congressperson.number
              && PageOf(PagesFor(d)[k]) == d.currentPage + 1 + k
  {
    forall k | 0 <= k < |PagesFor(d)|
      ensures PagesFor(d)[k].lotacao == d.congressperson.number
      ensures PageOf(PagesFor(d)[k]) == d.currentPage + 1 + k
    {
      assert PagesFor(d)[k] == GetPage(d.congressperson, d.currentPage + 1 + k);
      PageOfGetPage(d.congressperson, d.currentPage + 1 + k);
    }
  }

  /** The requests of one page are in strictly ascending order of offset. */
  lemma PagesForAscending(d: PageData, i: int, j: int)
    requires 0 <= i < j < |PagesFor(d)|
    ensures PagesFor(d)[i].bStart < PagesFor(d)[j].bStart
  {
    GetPageMonotonic(d.congressperson, d.currentPage + 1 + i, d.currentPage + 1 + j);
  }

  /** A request is scheduled for a page exactly when that page lies strictly
      after the current page and no later than the last. */
  lemma PagesForMembership(d: PageData, p: int)
    ensures GetPage(d.congressperson, p) in PagesFor(d)
            <==> d.hasNextPage && d.currentPage < p <= d.numberOfPages
  {
    if GetPage(d.congressperson, p) in PagesFor(d) {
      var k :| 0 <= k < |PagesFor(d)| && PagesFor(d)[k] == GetPage(d.congressperson, p);
      GetPageInjective(d.congressperson, p, d.congressperson, d.currentPage + 1 + k);
    }
    if d.hasNextPage && d.currentPage < p <= d.numberOfPages {
      var k := p - d.currentPage - 1;
      assert PagesFor(d)[k] == GetPage(d.congressperson, p);
    }
  }

  /** Appending a page's requests never touches what the buffer held. */
  lemma SecondWaveSnoc(pages: seq<PageData>, d: PageData)
    ensures SecondWave(pages + [d]) == SecondWave(pages) + PagesFor(d)
  {
    assert Scheduled(pages + [d]) == Scheduled(pages) + [PagesFor(d)];
    FlattenSnoc(Scheduled(pages), PagesFor(d));
  }

  lemma SecondWaveConcat(a: seq<PageData>, b: seq<PageData>)
    ensures SecondWave(a + b) == SecondWave(a) + SecondWave(b)
  {
    assert Scheduled(a + b) == Scheduled(a) + Scheduled(b);
    FlattenConcat(Scheduled(a), Scheduled(b));
  }

  /** Pages without a next page (in particular 1-of-1 pages) add nothing. */
  lemma {:induction false} NoNextPageNoSecondWave(pages: seq<PageData>)
    requires forall i :: 0 <= i < |pages| ==> !pages[i].hasNextPage
    ensures SecondWave(pages) == []
    decreases |pages|
  {
    if |pages| > 0 {
      var init := pages[..|pages| - 1];
      assert pages == init + [pages[|pages| - 1]];
      NoNextPageNoSecondWave(init);
      SecondWaveSnoc(init, pages[|pages| - 1]);
    }
  }

  function SumRemaining(pages: seq<PageData>): nat
  {
    if |pages| == 0 then 0
    else SumRemaining(pages[..|pages| - 1])
         + Remaining(pages[|pages| - 1])
  }

  /** The buffer length is the sum over the pages of max(0, total - current). */
  lemma {:induction false} SecondWaveLength(pages: seq<PageData>)
    ensures |SecondWave(pages)| == SumRemaining(pages)
    decreases |pages|
  {
    if |pages| > 0 {
      var init := pages[..|pages| - 1];
      assert pages == init + [pages[|pages| - 1]];
      SecondWaveLength(init);
      SecondWaveSnoc(init, pages[|pages| - 1]);
    }
  }

  /** A page schedules a request when it has a next page and the request is for
      its congressperson and a page after its current one, no later than its last. */
  ghost predicate Schedules(d: PageData, req: PageRequest)
  {
    d.hasNextPage
    && exists p :: d.currentPage < p <= d.numberOfPages && req == GetPage(d.congressperson, p)
  }

  lemma PagesForSchedules(d: PageData, req: PageRequest)
    ensures req in PagesFor(d) <==> Schedules(d, req)
  {
    if req in PagesFor(d) {
      var k :| 0 <= k < |PagesFor(d)| && PagesFor(d)[k] == req;
      PagesForMembership(d, d.currentPage + 1 + k);
    }
    if Schedules(d, req) {
      var p :| d.currentPage < p <= d.numberOfPages && req == GetPage(d.congressperson, p);
      PagesForMembership(d, p);
    }
  }

  /** A request is in the buffer exactly when some wave-1 page with a next page
      asked for it: same congressperson, a page after its current one and
      no later than its last. */
  lemma {:induction false} SecondWaveMembership(pages: seq<PageData>, req: PageRequest)
    ensures req in SecondWave(pages) <==> exists i :: 0 <= i < |pages| && Schedules(pages[i], req)
    decreases |pages|
  {
    if |pages| > 0 {
      var init := pages[..|pages| - 1];
      var d := pages[|pages| - 1];
      assert pages == init + [d];
      SecondWaveMembership(init, req);
      SecondWaveSnoc(init, d);
      PagesForSchedules(d, req);
      if exists i :: 0 <= i < |pages| && Schedules(pages[i], req) {
        var i :| 0 <= i < |pages| && Schedules(pages[i], req);
        if i < |pages| - 1 {
          assert init[i] == pages[i];
        }
      }
      if exists i :: 0 <= i < |init| && Schedules(init[i], req) {
        var i :| 0 <= i < |init| && Schedules(init[i], req);
        assert pages[i] == init[i];
      }
    }
  }

  lemma SplitAt<T>(b: seq<T>, j: int)
    requires 0 <= j < |b|
    ensures b == b[..j] + [b[j]] + b[j + 1..]
    ensures multiset(b[..j] + b[j + 1..]) == multiset(b) - multiset{b[j]}
  {
    assert b == b[..j] + [b[j]] + b[j + 1..];
  }

  /** Taking one page out of the arrival order takes its requests out of the buffer. */
  lemma SecondWaveRemove(l: seq<PageData>, d: PageData, r: seq<PageData>)
    ensures multiset(SecondWave(l + [d] + r))
            == multiset(SecondWave(l + r)) + multiset(PagesFor(d))
  {
    SecondWaveConcat(l + [d], r);
    SecondWaveSnoc(l, d);
    SecondWaveConcat(l, r);
    var sl, sd, sr := SecondWave(l), PagesFor(d), SecondWave(r);
    assert SecondWave(l + [d] + r) == sl + sd + sr;
    assert SecondWave(l + r) == sl + sr;
    calc {
      multiset(SecondWave(l + [d] + r));
      multiset(sl + sd + sr);
      multiset(sl) + multiset(sd) + multiset(sr);
      multiset(sl + sr) + multiset(sd);
    }
  }

  /** The second-wave workload does not depend on the order in which the
      first-wave responses arrived: any reordering of them yields the same
      requests, with the same multiplicities (only their order in the buffer changes). */
  lemma {:induction false} SecondWaveArrivalOrder(a: seq<PageData>, b: seq<PageData>)
    requires multiset(a) == multiset(b)
    ensures multiset(SecondWave(a)) == multiset(SecondWave(b))
    decreases |a|
  {
    if |a| == 0 {
      assert |b| == |multiset(b)| == 0;
    } else {
      var a' := a[..|a| - 1];
      var d := a[|a| - 1];
      assert a == a' + [d];
      assert multiset(a') == multiset(a) - multiset{d};
      assert d in multiset(b);
      var j :| 0 <= j < |b| && b[j] == d;
      SplitAt(b, j);
      SecondWaveArrivalOrder(a', b[..j] + b[j + 1..]);
      SecondWaveSnoc(a', d);
      SecondWaveRemove(b[..j], d, b[j + 1..]);
    }
  }

  /** One step of reading a response stream. */
  lemma ParsePrefixStep(xs: seq<PageExtract>, i: int)
    requires 0 <= i < |xs|
    ensures ParsePage(xs[i]).None? ==> ParsePrefix(xs[i..]) == []
    ensures ParsePage(xs[i]).Some? ==>
              ParsePrefix(xs[i..]) == [ParsePage(xs[i]).value] + ParsePrefix(xs[i + 1..])
  {
    assert xs[i..][1..] == xs[i + 1..];
  }

  /** The inner loop of send_requests: `for page in range(current + 1, total + 1)`
      appends the request for each page to the buffer. */
  method AppendNextPages(buffer: seq<PageRequest>, d: PageData) returns (buffer': seq<PageRequest>)
    requires d.hasNextPage
    ensures buffer' == buffer + PagesFor(d)
  {
    buffer' := buffer;
    var current := d.currentPage;
    var total := d.numberOfPages;
    var page := current + 1;
    while page < total + 1
      invariant current + 1 <= page <= Max0(total - current) + current + 1
      invariant buffer' == buffer + PagesFor(d)[..page - current - 1]
    {
      buffer' := buffer' + [GetPage(d.congressperson, page)];
      page := page + 1;
    }
    assert PagesFor(d)[..page - current - 1] == PagesFor(d);
  }

  /** The second `grequests.imap` loop: every response is parsed and yielded,
      until one fails to parse. */
  method DrainWave(responses: seq<PageExtract>) returns (pages: seq<PageData>, complete: bool)
    ensures pages == ParsePrefix(responses)
    ensures complete == AllParse(responses)
  {
    pages := [];
    var j := 0;
    while j < |responses|
      invariant 0 <= j <= |responses|
      invariant AllParse(responses[..j])
      invariant ParsePrefix(responses) == pages + ParsePrefix(responses[j..])
    {
      var pageData := ExtractDataFromPage(responses[j]);
      if pageData.None? {
        assert ParsePrefix(responses) == pages by { ParsePrefixStep(responses, j); }
        return pages, false;
      }
      var d := pageData.value;
      assert ParsePrefix(responses) == (pages + [d]) + ParsePrefix(responses[j + 1..]) by {
        ParsePrefixStep(responses, j);
      }
      assert AllParse(responses[..j + 1]) by {
        assert responses[..j + 1] == responses[..j] + [responses[j]];
      }
      pages := pages + [d];
      j := j + 1;
    }
    assert responses[..j] == responses;
    assert responses[j..] == [];
    complete := true;
  }

  /** The first `grequests.imap` loop of send_requests: every response is
      parsed and yielded, and a page with a next page appends its remaining
      pages to the buffer; a page that fails to parse raises and ends the loop. */
  method DrainFirstWave(arrivals: seq<PageExtract>)
    returns (pages: seq<PageData>, buffer: seq<PageRequest>, complete: bool)
    ensures pages == ParsePrefix(arrivals)
    ensures complete == AllParse(arrivals)
    ensures buffer == SecondWave(pages)
  {
    buffer := [];
    pages := [];
    var i := 0;
    while i < |arrivals|
      invariant 0 <= i <= |arrivals|
      invariant AllParse(arrivals[..i])
      invariant ParsePrefix(arrivals) == pages + ParsePrefix(arrivals[i..])
      invariant buffer == SecondWave(pages)
    {
      var pageData := ExtractDataFromPage(arrivals[i]);
      if pageData.None? {
        assert ParsePrefix(arrivals) == pages by { ParsePrefixStep(arrivals, i); }
        return pages, buffer, false;
      }
      var d := pageData.value;
      assert ParsePrefix(arrivals) == (pages + [d]) + ParsePrefix(arrivals[i + 1..]) by {
        ParsePrefixStep(arrivals, i);
      }
      assert AllParse(arrivals[..i + 1]) by {
        assert arrivals[..i + 1] == arrivals[..i] + [arrivals[i]];
      }
      assert SecondWave(pages + [d]) == buffer + PagesFor(d) by { SecondWaveSnoc(pages, d); }
      pages := pages + [d];
      if d.hasNextPage {
        buffer := AppendNextPages(buffer, d);
      } else {
        assert PagesFor(d) == [];
      }
      i := i + 1;
    }
    assert arrivals[..i] == arrivals;
    assert ParsePrefix(arrivals[i..]) == [];
    assert ParsePrefix(arrivals) == pages;
    complete := true;
  }

  /** send_requests, with the transport abstracted:
      `arrivals` are the first-wave responses (as XPath extracts) in completion
      order, failed requests already dropped; `dispatch` stands for the second
      `grequests.imap` over the buffer and returns its responses in completion
      order. The yielded stream is the first-wave pages followed by the
      second-wave pages; a page that does not parse raises and ends it. */
  method SendRequests(arrivals: seq<PageExtract>, dispatch: seq<PageRequest> -> seq<PageExtract>)
    returns (stream: seq<PageData>, buffer: seq<PageRequest>, complete: bool)
    ensures buffer == SecondWave(ParsePrefix(arrivals))
    ensures !AllParse(arrivals) ==> stream == ParsePrefix(arrivals) && !complete
    ensures AllParse(arrivals) ==>
      && stream == ParsePrefix(arrivals) + ParsePrefix(dispatch(buffer))
      && complete == AllParse(dispatch(buffer))
  {
    var wave1, drained;
    wave1, buffer, drained := DrainFirstWave(arrivals);
    if !drained {
      return wave1, buffer, false;
    }
    var wave2;
    wave2, complete := DrainWave(dispatch(buffer));
    stream := wave1 + wave2;
  }
}
