/** The streaming writer and the consumer loop of run(): each parsed page is
    normalised and appended to the output as a header row followed by its
    records (write_to_csv with `csv.DictWriter`). */
module AdvisorsOutput {
  import opened Wrappers
  import opened AdvisorsPages
  import opened AdvisorsRecords

  /** The CSV row `DictWriter.writerow` writes for a record: one value per
      field name, a missing key written as the empty `restval`. */
  function CsvRow(r: Record): (row: seq<string>)
    ensures |row| == |FieldNames|
  {
    seq(|FieldNames|, i requires 0 <= i < |FieldNames| =>
          if FieldNames[i] in r then r[FieldNames[i]] else "")
  }

  function CsvRows(records: seq<Record>): (rows: seq<seq<string>>)
    ensures |rows| == |records|
  {
    seq(|records|, i requires 0 <= i < |records| => CsvRow(records[i]))
  }

  /** Values cut or filled with "" to exactly one per field name. */
  function Fit(values: seq<string>): (row: seq<string>)
    ensures |row| == |FieldNames|
  {
    if |values| >= 6 then values[..6] else values + seq(6 - |values|, _ => "")
  }

  /** Writing a zipped record gives its values back, truncated or filled to
      the six columns: a row never shifts a value into another column. */
  lemma CsvRowOfZip(values: seq<string>)
    ensures CsvRow(Zip(FieldNames, values)) == Fit(values)
  {
    FieldNamesDistinct();
    ZipSpec(FieldNames, values);
    var n := Min(6, |values|);
    forall i | 0 <= i < 6
      ensures CsvRow(Zip(FieldNames, values))[i] == Fit(values)[i]
    {
      if i < n {
        assert FieldNames[i] in FieldNames[..n];
      } else {
        assert FieldNames[i] !in FieldNames[..n];
      }
    }
  }

  /** What writing one page appends: a header row, then its records. */
  function PageRows(d: PageData): seq<seq<string>>
  {
    [FieldNames] + CsvRows(OrganizeCongresspersonData(d.congressperson, d.advisors))
  }

  /** The rows written for each page of a stream, page by page. */
  function PagesRows(stream: seq<PageData>): (parts: seq<seq<seq<string>>>)
    ensures |parts| == |stream|
  {
    seq(|stream|, i requires 0 <= i < |stream| => PageRows(stream[i]))
  }

  /** Everything run() appends for a stream of pages, in stream order. */
  function StreamRows(stream: seq<PageData>): seq<seq<string>>
  {
    Flatten(PagesRows(stream))
  }

  /** Every page contributes exactly one header and max(1, |advisors|) records. */
  lemma PageRowsLength(d: PageData)
    ensures |PageRows(d)| == 1 + (if |d.advisors| == 0 then 1 else |d.advisors|)
    ensures PageRows(d)[0] == FieldNames
  {
  }

  /** The writer does not deduplicate: output for two streams is the output of
      the first followed by that of the second, so a page seen twice is written twice. */
  lemma StreamRowsConcat(a: seq<PageData>, b: seq<PageData>)
    ensures StreamRows(a + b) == StreamRows(a) + StreamRows(b)
  {
    assert PagesRows(a + b) == PagesRows(a) + PagesRows(b);
    FlattenConcat(PagesRows(a), PagesRows(b));
  }

  lemma StreamRowsSnoc(s: seq<PageData>, d: PageData)
    ensures StreamRows(s + [d]) == StreamRows(s) + PageRows(d)
  {
    assert PagesRows(s + [d]) == PagesRows(s) + [PageRows(d)];
    FlattenSnoc(PagesRows(s), PageRows(d));
  }

  /** The output file, opened in append mode: its rows so far. */
  class OutputFile {
    var rows: seq<seq<string>>

    /** Opening appends to what the file already holds (nothing, when it is created). */
    constructor (existing: seq<seq<string>>)
      ensures rows == existing
    {
      rows := existing;
    }

    /** write_to_csv: a header row, then one row per record, in order,
        after whatever the file held. */
    method WriteToCsv(data: seq<Record>)
      modifies this
      ensures rows == old(rows) + [FieldNames] + CsvRows(data)
    {
      rows := rows + [FieldNames];
      for i := 0 to |data|
        invariant rows == old(rows) + [FieldNames] + CsvRows(data[..i])
      {
        assert CsvRows(data[..i + 1]) == CsvRows(data[..i]) + [CsvRow(data[i])];
        rows := rows + [CsvRow(data[i])];
      }
      assert data[..|data|] == data;
    }
  }

  lemma RunStep(initial: seq<seq<string>>, before: seq<seq<string>>, after: seq<seq<string>>,
                written: seq<PageData>, d: PageData)
    requires before == initial + StreamRows(written)
    requires after == before + [FieldNames] + CsvRows(OrganizeCongresspersonData(d.congressperson, d.advisors))
    ensures after == initial + StreamRows(written + [d])
  {
    StreamRowsSnoc(written, d);
  }

  /** The loop of run(): each page of the stream is normalised and written. */
  method Run(stream: seq<PageData>, output: OutputFile)
    modifies output
    ensures output.rows == old(output.rows) + StreamRows(stream)
  {
    ghost var initial := output.rows;
    var i := 0;
    while i < |stream|
      invariant 0 <= i <= |stream|
      invariant output.rows == initial + StreamRows(stream[..i])
    {
      var d := stream[i];
      ghost var before := output.rows;
      var information := OrganizeCongresspersonData(d.congressperson, d.advisors);
      output.WriteToCsv(information);
      assert stream[..i + 1] == stream[..i] + [d];
      RunStep(initial, before, output.rows, stream[..i], d);
      i := i + 1;
    }
    assert stream[..i] == stream;
  }
}
