/** The page response parser (extract_data_from_page and its helpers), applied
    to what the XPath queries return for one result page. */
module AdvisorsPages {
  import opened Wrappers
  import opened AdvisorsDirectory

  /** The cell texts of one table row, as `./td/text() | ./td/span/text()` returns them. */
  type Row = seq<string>

  /** The literal appended to a row whose publication date cell had no text. */
  const EmptyCell: string := "Empty"

  /** What the XPath queries of one result page return:
      - `currentMarkers`: the integer values of the `li.current` span texts;
      - `markerCount`: the count of pagination items that are neither "next" nor "previous";
      - `rows`: the cell texts of every table-body row, top to bottom;
      - `selected`: the `option[@selected]` elements of the `lotacao` select. */
  datatype PageExtract = PageExtract(
    currentMarkers: seq<int>,
    markerCount: nat,
    rows: seq<Row>,
    selected: seq<SelectOption>)

  /** The dictionary extract_data_from_page returns. */
  datatype PageData = PageData(
    congressperson: Congressperson,
    advisors: seq<Row>,
    numberOfPages: int,
    currentPage: int,
    hasNextPage: bool)

  /** extract_current_page: 1 when no current marker exists, else the first marker. */
  function ExtractCurrentPage(markers: seq<int>): (page: int)
    ensures |markers| == 0 ==> page == 1
    ensures |markers| > 0 ==> page == markers[0]
  {
    if |markers| == 0 then 1 else markers[0]
  }

  /** extract_number_of_pages: the marker count, or 1 when there is none. */
  function ExtractNumberOfPages(count: nat): (pages: int)
    ensures pages >= 1
    ensures count > 0 ==> pages == count
    ensures count == 0 ==> pages == 1
  {
    if count == 0 then 1 else count
  }

  /** The `has_next_page` entry: `False if current_page == number_of_pages else True`. */
  function HasNextPage(current: int, total: int): bool
  {
    current != total
  }

  /** The invariant every parsed page satisfies: at least one page, and a next
      page exactly when the current page is not the last. */
  predicate WellFormed(d: PageData)
  {
    d.numberOfPages >= 1 && (d.hasNextPage <==> d.currentPage != d.numberOfPages)
  }

  /** A row of exactly three cells gets "Empty" appended; other rows are unchanged. */
  function PadRow(r: Row): Row
  {
    if |r| == 3 then r + [EmptyCell] else r
  }

  function PaddedRows(rows: seq<Row>): (padded: seq<Row>)
    ensures |padded| == |rows|
  {
    seq(|rows|, i requires 0 <= i < |rows| => PadRow(rows[i]))
  }

  /** The padding loop of extract_data_from_page, in place: every row of length
      three gains a trailing "Empty", every other row keeps its cells. */
  method PadRows(rows: array<Row>)
    modifies rows
    ensures rows[..] == PaddedRows(old(rows[..]))
    ensures forall i :: 0 <= i < rows.Length && |old(rows[i])| == 3 ==>
              rows[i] == old(rows[i]) + [EmptyCell]
    ensures forall i :: 0 <= i < rows.Length && |old(rows[i])| != 3 ==>
              rows[i] == old(rows[i])
  {
    for i := 0 to rows.Length
      invariant forall k :: 0 <= k < i ==> rows[k] == PadRow(old(rows[k]))
      invariant forall k :: i <= k < rows.Length ==> rows[k] == old(rows[k])
    {
      if |rows[i]| == 3 {
        rows[i] := rows[i] + [EmptyCell];
      }
    }
  }

  /** Padding keeps every cell of the row in place, leaves rows of other lengths
      alone, and padding twice is padding once. */
  lemma PadRowProperties(r: Row)
    ensures PadRow(r)[..|r|] == r
    ensures |r| == 3 ==> |PadRow(r)| == 4 && PadRow(r)[3] == EmptyCell
    ensures |r| != 3 ==> PadRow(r) == r
    ensures PadRow(PadRow(r)) == PadRow(r)
  {
  }

  /** The whole of extract_data_from_page as a value: fails (the `[0]` on the
      selected option raises) when no option is selected or it cannot be read. */
  function ParsePage(x: PageExtract): Option<PageData>
  {
    if |x.selected| == 0 then None
    else
      match ReadOption(x.selected[0])
      case None => None
      case Some(c) =>
        var total := ExtractNumberOfPages(x.markerCount);
        var current := ExtractCurrentPage(x.currentMarkers);
        Some(PageData(c, PaddedRows(x.rows), total, current, HasNextPage(current, total)))
  }

  /** extract_data_from_page: reads the page numbers, takes the rows, reads the
      selected option and pads the rows in place. */
  method ExtractDataFromPage(x: PageExtract) returns (r: Option<PageData>)
    ensures r == ParsePage(x)
  {
    var numberOfPages := ExtractNumberOfPages(x.markerCount);
    var currentPage := ExtractCurrentPage(x.currentMarkers);
    var advisors := new Row[|x.rows|](i => if 0 <= i < |x.rows| then x.rows[i] else []);
    assert advisors[..] == x.rows;
    if |x.selected| == 0 || !Readable(x.selected[0]) {
      return None;
    }
    var c := Congressperson(x.selected[0].texts[0], x.selected[0].values[0]);
    PadRows(advisors);
    r := Some(PageData(c, advisors[..], numberOfPages, currentPage,
                       HasNextPage(currentPage, numberOfPages)));
  }

  /** What a parsed page promises: it exists exactly when the selected option
      can be read; the congressperson is that option; the current page and the
      page count are the values extracted from the pagination markers, the count
      at least one; `has_next_page` is false exactly when the current page is the last;
      the rows are the table rows, padded, in order. */
  lemma ParsePageSpec(x: PageExtract)
    ensures ParsePage(x).Some? <==> |x.selected| > 0 && Readable(x.selected[0])
    ensures ParsePage(x).Some? ==>
      var d := ParsePage(x).value;
      && WellFormed(d)
      && d.congressperson == Congressperson(x.selected[0].texts[0], x.selected[0].values[0])
      && d.currentPage == ExtractCurrentPage(x.currentMarkers)
      && d.numberOfPages == ExtractNumberOfPages(x.markerCount)
      && d.numberOfPages >= 1
      && (!d.hasNextPage <==> d.currentPage == d.numberOfPages)
      && |d.advisors| == |x.rows|
      && (forall i :: 0 <= i < |x.rows| ==> d.advisors[i] == PadRow(x.rows[i]))
  {
  }

  /** A page with no pagination block is page 1 of 1 and has no next page. */
  lemma SinglePageHasNoNext(x: PageExtract)
    requires |x.currentMarkers| == 0 && x.markerCount == 0
    requires |x.selected| > 0 && Readable(x.selected[0])
    ensures ParsePage(x).Some?
    ensures ParsePage(x).value.currentPage == 1 && ParsePage(x).value.numberOfPages == 1
    ensures !ParsePage(x).value.hasNextPage
  {
  }
}
