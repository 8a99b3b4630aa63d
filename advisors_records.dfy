/** The record normaliser (organize_congressperson_data): advisor rows plus the
    congressperson identity, zipped with the CSV field names, with the "-"
    sentinel rewritten to "". */
module AdvisorsRecords {
  import opened Wrappers
  import opened AdvisorsDirectory
  import opened AdvisorsPages

  const FieldNames: seq<string> := [
    "point", "name", "act_issue_at", "act_issued_by",
    "congressperson_name", "congressperson_number"
  ]

  /** A record is the dictionary `dict(zip(FIELDNAMES, values))`. */
  type Record = map<string, string>

  /** `dict(zip(keys, values))`: pairs up to the shorter of the two sequences,
      entered in order, so a repeated key keeps its last value. */
  function Zip(keys: seq<string>, values: seq<string>): Record
    decreases |keys|
  {
    var n := Min(|keys|, |values|);
    if n == 0 then map[]
    else Zip(keys[..n - 1], values[..n - 1])[keys[n - 1] := values[n - 1]]
  }

  predicate Distinct(keys: seq<string>)
  {
    forall i, j :: 0 <= i < j < |keys| ==> keys[i] != keys[j]
  }

  /** With distinct keys, the dictionary has exactly the first min(|keys|, |values|)
      keys, and the i-th key maps to the i-th value. */
  lemma {:induction false} ZipSpec(keys: seq<string>, values: seq<string>)
    requires Distinct(keys)
    ensures forall k :: k in Zip(keys, values) <==> k in keys[..Min(|keys|, |values|)]
    ensures forall i :: 0 <= i < Min(|keys|, |values|) ==> Zip(keys, values)[keys[i]] == values[i]
    decreases |keys|
  {
    var n := Min(|keys|, |values|);
    if n > 0 {
      var ks, vs := keys[..n - 1], values[..n - 1];
      ZipSpec(ks, vs);
      assert Min(|ks|, |vs|) == n - 1;
      assert ks[..n - 1] == ks;
      assert keys[..n] == ks + [keys[n - 1]];
      forall i | 0 <= i < n
        ensures Zip(keys, values)[keys[i]] == values[i]
      {
        if i < n - 1 {
          assert keys[i] != keys[n - 1];
          assert ks[i] == keys[i] && vs[i] == values[i];
        }
      }
    }
  }

  /** The record with its six named fields: the tagged form of a complete row. */
  function FullRecord(point: string, name: string, actIssueAt: string, actIssuedBy: string,
                      congresspersonName: string, congresspersonNumber: string): Record
  {
    map["point" := point, "name" := name, "act_issue_at" := actIssueAt,
        "act_issued_by" := actIssuedBy, "congressperson_name" := congresspersonName,
        "congressperson_number" := congresspersonNumber]
  }

  /** Six values zipped with the field names give the full record, field by field. */
  lemma ZipFieldNames(values: seq<string>)
    requires |values| == 6
    ensures Zip(FieldNames, values)
            == FullRecord(values[0], values[1], values[2], values[3], values[4], values[5])
  {
    var f, v := FieldNames, values;
    var m0: Record := map[];
    assert Zip(f[..0], v[..0]) == m0;
    assert f[..1][..0] == f[..0] && v[..1][..0] == v[..0];
    assert Zip(f[..1], v[..1]) == m0[f[0] := v[0]];
    assert f[..2][..1] == f[..1] && v[..2][..1] == v[..1];
    assert Zip(f[..2], v[..2]) == m0[f[0] := v[0]][f[1] := v[1]];
    assert f[..3][..2] == f[..2] && v[..3][..2] == v[..2];
    assert Zip(f[..3], v[..3]) == m0[f[0] := v[0]][f[1] := v[1]][f[2] := v[2]];
    assert f[..4][..3] == f[..3] && v[..4][..3] == v[..3];
    assert Zip(f[..4], v[..4]) == m0[f[0] := v[0]][f[1] := v[1]][f[2] := v[2]][f[3] := v[3]];
    assert f[..5][..4] == f[..4] && v[..5][..4] == v[..4];
    assert Zip(f[..5], v[..5])
           == m0[f[0] := v[0]][f[1] := v[1]][f[2] := v[2]][f[3] := v[3]][f[4] := v[4]];
    assert f[..5] == f[..6][..5] && v[..5] == v[..6][..5];
    assert f[..6] == f && v[..6] == v;
    assert Zip(f, v)
           == m0[f[0] := v[0]][f[1] := v[1]][f[2] := v[2]][f[3] := v[3]][f[4] := v[4]][f[5] := v[5]];
  }

  /** The sentinel substitution `'' if x == '-' else x`. */
  function CleanValue(v: string): string
  {
    if v == "-" then "" else v
  }

  /** `map(lambda x: '' if x == '-' else x, values)`. */
  function Cleaned(values: seq<string>): (r: seq<string>)
    ensures |r| == |values|
  {
    seq(|values|, i requires 0 <= i < |values| => CleanValue(values[i]))
  }

  /** Substitution removes every sentinel, changes nothing else, and is idempotent. */
  lemma CleanedSpec(values: seq<string>)
    ensures forall i :: 0 <= i < |values| ==>
              (values[i] == "-" ==> Cleaned(values)[i] == "")
              && (values[i] != "-" ==> Cleaned(values)[i] == values[i])
    ensures "-" !in Cleaned(values)
    ensures Cleaned(Cleaned(values)) == Cleaned(values)
  {
  }

  /** The placeholder of a congressperson without advisors: four empty fields
      and the identity, not passed through the substitution. */
  function Placeholder(c: Congressperson): Record
  {
    Zip(FieldNames, ["", "", "", "", c.name, c.number])
  }

  /** The record of one advisor row: its cells, then name and number, cleaned. */
  function AdvisorRecord(c: Congressperson, advisor: Row): Record
  {
    Zip(FieldNames, Cleaned(advisor + [c.name, c.number]))
  }

  /** organize_congressperson_data. */
  function OrganizeCongresspersonData(c: Congressperson, advisors: seq<Row>): (records: seq<Record>)
    ensures |records| == if |advisors| == 0 then 1 else |advisors|
  {
    if |advisors| == 0 then [Placeholder(c)]
    else seq(|advisors|, i requires 0 <= i < |advisors| => AdvisorRecord(c, advisors[i]))
  }

  lemma FieldNamesDistinct()
    ensures Distinct(FieldNames)
  {
  }

  /** With no advisors there is exactly one record: the four advisor fields
      empty, the congressperson's name and number as given (a "-" stays "-"). */
  lemma NoAdvisorsPlaceholder(c: Congressperson)
    ensures OrganizeCongresspersonData(c, []) == [Placeholder(c)]
    ensures Placeholder(c) == FullRecord("", "", "", "", c.name, c.number)
  {
    ZipFieldNames(["", "", "", "", c.name, c.number]);
  }

  /** With advisors there is one record per advisor, in order; each record's
      fields are the advisor's cells followed by name and number, cleaned, as
      far as there are field names for them (zip truncates). */
  lemma AdvisorsRecords(c: Congressperson, advisors: seq<Row>, k: int)
    requires 0 <= k < |advisors|
    ensures |OrganizeCongresspersonData(c, advisors)| == |advisors|
    ensures OrganizeCongresspersonData(c, advisors)[k] == AdvisorRecord(c, advisors[k])
    ensures var values := advisors[k] + [c.name, c.number];
            var n := Min(6, |values|);
            && (forall f :: f in AdvisorRecord(c, advisors[k]) <==> f in FieldNames[..n])
            && forall i :: 0 <= i < n ==>
                 AdvisorRecord(c, advisors[k])[FieldNames[i]] == CleanValue(values[i])
  {
    FieldNamesDistinct();
    ZipSpec(FieldNames, Cleaned(advisors[k] + [c.name, c.number]));
  }

  /** A full row of four cells gives all six fields, each cleaned. */
  lemma FourCellRecord(c: Congressperson, row: Row)
    requires |row| == 4
    ensures AdvisorRecord(c, row)
            == FullRecord(CleanValue(row[0]), CleanValue(row[1]), CleanValue(row[2]),
                          CleanValue(row[3]), CleanValue(c.name), CleanValue(c.number))
  {
    ZipFieldNames(Cleaned(row + [c.name, c.number]));
  }

  /** A three-cell row, once padded, keeps `act_issued_by = "Empty"`: the
      substitution only rewrites "-". Its third cell lands in `act_issue_at`. */
  lemma PaddedThreeCellRecord(c: Congressperson, row: Row)
    requires |row| == 3
    ensures AdvisorRecord(c, PadRow(row))
            == FullRecord(CleanValue(row[0]), CleanValue(row[1]), CleanValue(row[2]),
                          "Empty", CleanValue(c.name), CleanValue(c.number))
  {
    FourCellRecord(c, PadRow(row));
  }
}
