/** The export helper of tc_translate/utils.py (`export_terminology`).

    The store lookup is outside the model: its answer, the dictionary of
    term entries for the requested domain and language, is an input. The
    JSON and CSV serialisers are outside it too: the result is the list of
    records handed to the serialiser the output format selects. */
module Export {
  import opened Wrappers
  import opened PyDict

  /** A terminology entry as the store holds it. */
  datatype Term = Term(id: string, term: string, translation: string)

  /** One exported `{id, term, translation}` object. */
  datatype Record = Record(id: string, term: string, translation: string)

  /** The exported records, tagged with the serialiser that receives them:
      `json.dumps` for "json", a CSV writer with header `id,term,translation`
      for "csv", and the bare list for any other format name. */
  datatype Exported =
    | JsonText(records: seq<Record>)
    | CsvText(records: seq<Record>)
    | RecordList(records: seq<Record>)

  const JsonFormat: string := "json"
  const CsvFormat: string := "csv"

  /** The message of the error raised for an empty terminology. */
  function NotFoundMessage(domain: string, language: string): string {
    "No terminology found for " + domain + "/" + language
  }

  /** The record of one entry. */
  function ToRecord(t: Term): Record {
    Record(t.id, t.term, t.translation)
  }

  /** Reading a record back as an entry. */
  function ToTerm(r: Record): Term {
    Term(r.id, r.term, r.translation)
  }

  /** One record per entry, in the dictionary's iteration order; each record
      copies its entry verbatim, so reading it back gives the entry. */
  function Records<K>(terms: Dict<K, Term>): (rs: seq<Record>)
    ensures |rs| == |terms.keys|
    ensures forall i :: 0 <= i < |rs| ==> ToTerm(rs[i]) == terms.entries[terms.keys[i]]
  {
    var vs := Values(terms);
    seq(|vs|, i requires 0 <= i < |vs| => ToRecord(vs[i]))
  }

  /** `export_terminology`: fails when the dictionary is empty; otherwise
      builds the records and hands them to the serialiser `format` names. */
  function ExportTerminology<K>(domain: string, language: string, format: string,
                                terms: Dict<K, Term>): (r: Result<Exported, string>)
    ensures r.Failure? <==> terms.entries == map[]
    ensures r.Failure? ==> r.error == NotFoundMessage(domain, language)
    ensures r.Success? ==> r.value.records == Records(terms)
    ensures r.Success? ==> (r.value.JsonText? <==> format == JsonFormat)
    ensures r.Success? ==> (r.value.CsvText? <==> format == CsvFormat)
  {
    EmptyIffNoEntries(terms);
    if IsEmpty(terms) then Failure(NotFoundMessage(domain, language))
    else
      var records := Records(terms);
      if format == JsonFormat then Success(JsonText(records))
      else if format == CsvFormat then Success(CsvText(records))
      else Success(RecordList(records))
  }

  /** Every entry of the dictionary is exported, and every exported record
      is some entry of the dictionary. */
  lemma ExportCoversEntries<K>(domain: string, language: string, format: string,
                               terms: Dict<K, Term>)
    requires terms.entries != map[]
    ensures forall k :: k in terms.entries ==>
              ToRecord(terms.entries[k]) in ExportTerminology(domain, language, format, terms).value.records
    ensures forall r :: r in ExportTerminology(domain, language, format, terms).value.records ==>
              exists k :: k in terms.entries && ToRecord(terms.entries[k]) == r
  {
  }
}
