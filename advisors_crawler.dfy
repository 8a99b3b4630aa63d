/** run(): read the directory, send page 1 for every congressperson, follow the
    pagination through send_requests, and write every yielded page. */
module AdvisorsCrawler {
  import opened Wrappers
  import opened AdvisorsDirectory
  import opened AdvisorsRequests
  import opened AdvisorsPages
  import opened AdvisorsPlanner
  import opened AdvisorsOutput

  /** The pages run() writes, in order, when the directory options are all readable:
      the parsed first-wave pages, then (when every one of them parsed) the parsed
      pages of the buffered second wave. `dispatch` stands for `grequests.imap`:
      the responses to a list of requests, in completion order. */
  function CrawlStream(cs: seq<Congressperson>, dispatch: seq<PageRequest> -> seq<PageExtract>): seq<PageData>
  {
    var first := dispatch(FirstWave(cs));
    ParsePrefix(first)
    + (if AllParse(first) then ParsePrefix(dispatch(SecondWave(ParsePrefix(first)))) else [])
  }

  /** The whole of run(). An unreadable directory option raises before anything is
      written; otherwise the output gains the header and records of every page of
      the crawl, and `complete` says whether the crawl ended without a parse error. */
  method RunCrawl(options: seq<SelectOption>, dispatch: seq<PageRequest> -> seq<PageExtract>,
                  output: OutputFile)
    returns (complete: bool)
    modifies output
    ensures FetchCongresspeopleData(options).None? ==> !complete && output.rows == old(output.rows)
    ensures FetchCongresspeopleData(options).Some? ==>
      var cs := FetchCongresspeopleData(options).value;
      var first := dispatch(FirstWave(cs));
      && output.rows == old(output.rows) + StreamRows(CrawlStream(cs, dispatch))
      && (complete <==> AllParse(first) && AllParse(dispatch(SecondWave(ParsePrefix(first)))))
  {
    var congresspeople := FetchCongresspeopleData(options);
    if congresspeople.None? {
      return false;
    }
    var requests := FirstWave(congresspeople.value);
    var first := dispatch(requests);
    var stream, buffer;
    stream, buffer, complete := SendRequests(first, dispatch);
    assert stream == CrawlStream(congresspeople.value, dispatch);
    Run(stream, output);
  }
}
