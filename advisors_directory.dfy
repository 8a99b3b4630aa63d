/** The subject directory: the `<select id="lotacao">` options on the
    transparency page of the Chamber of Deputies, turned into the list of
    congresspeople to crawl (fetch_congresspeople_data, get_congresspeople_list). */
module AdvisorsDirectory {
  import opened Wrappers

  /** A congressperson as the crawler carries it: the visible option text and
      the option value (the number sent back as `lotacao`). */
  datatype Congressperson = Congressperson(name: string, number: string)

  /** One `<option>` element as seen through XPath: the list returned by
      `./text()` and the list returned by `./@value`. */
  datatype SelectOption = SelectOption(texts: seq<string>, values: seq<string>)

  /** An option can be read when both XPath lists are non-empty; otherwise the
      `[0]` index raises. */
  predicate Readable(o: SelectOption)
  {
    |o.texts| > 0 && |o.values| > 0
  }

  /** Reads one option: the first text node is the name, the first value the number. */
  function ReadOption(o: SelectOption): (c: Option<Congressperson>)
    ensures c.Some? <==> Readable(o)
    ensures c.Some? ==> c.value.name == o.texts[0] && c.value.number == o.values[0]
  {
    if Readable(o) then Some(Congressperson(o.texts[0], o.values[0])) else None
  }

  /** get_congresspeople_list: every option, in order, mapped to a
      congressperson; the whole list fails when some option cannot be read. */
  function CongresspeopleList(options: seq<SelectOption>): (r: Option<seq<Congressperson>>)
    ensures r.Some? <==> forall i :: 0 <= i < |options| ==> Readable(options[i])
    ensures r.Some? ==> |r.value| == |options|
    ensures r.Some? ==> forall i :: 0 <= i < |options| ==>
              r.value[i] == Congressperson(options[i].texts[0], options[i].values[0])
  {
    if |options| == 0 then Some([])
    else
      match (ReadOption(options[0]), CongresspeopleList(options[1..]))
      case (Some(c), Some(rest)) => Some([c] + rest)
      case _ => None
  }

  /** fetch_congresspeople_data after the XPath query: the list with its first
      entry (the "Selecione..." prompt) skipped by `islice(..., 1, None)`. The
      result is the options in order, each read as (text, value), with exactly
      the first dropped; it fails when any option (the placeholder included,
      since the generator reads it before skipping it) has no text or value. */
  function FetchCongresspeopleData(options: seq<SelectOption>): (r: Option<seq<Congressperson>>)
    ensures r.Some? <==> forall i :: 0 <= i < |options| ==> Readable(options[i])
    ensures r.Some? ==> |r.value| == Max0(|options| - 1)
    ensures r.Some? ==> forall i :: 0 <= i < |r.value| ==>
              r.value[i] == Congressperson(options[i + 1].texts[0], options[i + 1].values[0])
  {
    match CongresspeopleList(options)
    case None => None
    case Some(all) => Some(if |all| == 0 then [] else all[1..])
  }
}
