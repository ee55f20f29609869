/** The terminology-file validator of tc_translate/utils.py
    (`validate_terminology_file`).

    Reading the CSV file is outside the model: the validator receives either
    the parsed table or the message of the exception the read raised. */
module Validation {
  import opened Wrappers
  import opened Sequences

  /** One parsed cell. `Missing` is the parser's not-a-number marker; the
      duplicate check counts two missing cells as equal, as pandas does. */
  datatype Cell = Missing | Value(text: string)

  /** The header's column names and the data rows of a parsed file. */
  datatype TableRep = Table(columns: seq<string>, rows: seq<seq<Cell>>)

  /** No data row has more fields than the header has names. */
  ghost predicate FitsHeader(t: TableRep) {
    forall r :: 0 <= r < |t.rows| ==> |t.rows[r]| <= |t.columns|
  }

  /** A table the parser hands over. A row shorter than the header reads as
      `Missing` in the columns it lacks; a file with a row longer than the
      header never becomes a table (the parser either fails, which reaches
      the validator as a read error, or turns the extra leading field into
      the row index). */
  type Table = t: TableRep | FitsHeader(t) witness Table([], [])

  /** The `(valid, reason)` pair the validator returns. */
  datatype Verdict = Verdict(valid: bool, reason: string)

  const RequiredColumns: seq<string> := ["id", "term", "translation"]

  const MissingColumnsReason: string :=
    "Missing required columns. Required: ['id', 'term', 'translation']"
  const DuplicateTermsReason: string := "Duplicate terms found"
  const DuplicateIdsReason: string := "Duplicate IDs found"
  const ValidReason: string := "File is valid"
  const ReadErrorPrefix: string := "Error reading file: "

  /** All three required column names occur in the header. */
  predicate HasRequiredColumns(t: Table) {
    forall c :: c in RequiredColumns ==> c in t.columns
  }

  /** Position of the first occurrence of `x` in `s`. */
  function IndexOf<T(==)>(s: seq<T>, x: T): (i: nat)
    requires x in s
    ensures i < |s| && s[i] == x
    ensures x !in s[..i]
  {
    if s[0] == x then 0
    else
      assert s == [s[0]] + s[1..];
      1 + IndexOf(s[1..], x)
  }

  /** The cell of `row` in column position `k`. */
  function CellAt(row: seq<Cell>, k: nat): Cell {
    if k < |row| then row[k] else Missing
  }

  /** `df[name]`: the cells of the named column, one per row, in row order. */
  function Column(t: Table, name: string): (col: seq<Cell>)
    requires name in t.columns
    ensures |col| == |t.rows|
    ensures forall r :: 0 <= r < |t.rows| ==> col[r] == CellAt(t.rows[r], IndexOf(t.columns, name))
  {
    var k := IndexOf(t.columns, name);
    seq(|t.rows|, r requires 0 <= r < |t.rows| => CellAt(t.rows[r], k))
  }

  /** The mask `duplicated()` computes (keeping the first occurrence) for a
      column whose earlier part put the values `seen` in the hash table:
      a position is marked when its value was seen before it. */
  function MarkRepeats<T(==)>(s: seq<T>, seen: set<T>): (mask: seq<bool>)
    ensures |mask| == |s|
    ensures forall i :: 0 <= i < |s| ==> (mask[i] <==> s[i] in seen || s[i] in s[..i])
    decreases |s|
  {
    if |s| == 0 then []
    else
      var rest := MarkRepeats(s[1..], seen + {s[0]});
      assert forall i :: 1 <= i < |s| ==> s[..i] == [s[0]] + s[1..][..i - 1];
      [s[0] in seen] + rest
  }

  /** `series.duplicated()`: marks each position whose value occurs earlier. */
  function Duplicated<T(==)>(s: seq<T>): (mask: seq<bool>)
    ensures |mask| == |s|
    ensures forall i :: 0 <= i < |s| ==> (mask[i] <==> s[i] in s[..i])
  {
    MarkRepeats(s, {})
  }

  /** Some position is marked by `duplicated()` exactly when the sequence
      is not duplicate-free. */
  lemma MarkedIffNotDistinct<T>(s: seq<T>)
    ensures (true in Duplicated(s)) <==> !Distinct(s)
  {
  }

  /** `series.duplicated().any()`: true exactly when some value repeats. */
  function HasDuplicates<T(==)>(s: seq<T>): (b: bool)
    ensures b <==> !Distinct(s)
  {
    MarkedIffNotDistinct(s);
    true in Duplicated(s)
  }

  /** What a valid terminology file is: all required columns are present and
      both the `term` and the `id` column hold pairwise distinct cells. */
  ghost predicate WellFormedTerminology(t: Table) {
    && HasRequiredColumns(t)
    && Distinct(Column(t, "term"))
    && Distinct(Column(t, "id"))
  }

  /** `validate_terminology_file`: the checks run in a fixed order (columns,
      then duplicate terms, then duplicate ids) and the first failing check
      decides the reason; a read failure becomes a verdict, never an error. */
  function Validate(input: Result<Table, string>): (v: Verdict)
    ensures input.Failure? ==> v == Verdict(false, ReadErrorPrefix + input.error)
    ensures v.valid <==> input.Success? && WellFormedTerminology(input.value)
    ensures v.valid ==> v.reason == ValidReason
    ensures input.Success? && !HasRequiredColumns(input.value) ==>
              v == Verdict(false, MissingColumnsReason)
    ensures input.Success? && HasRequiredColumns(input.value) &&
            !Distinct(Column(input.value, "term")) ==>
              v == Verdict(false, DuplicateTermsReason)
    ensures input.Success? && HasRequiredColumns(input.value) &&
            Distinct(Column(input.value, "term")) &&
            !Distinct(Column(input.value, "id")) ==>
              v == Verdict(false, DuplicateIdsReason)
  {
    match input
    case Failure(e) => Verdict(false, ReadErrorPrefix + e)
    case Success(t) =>
      if !HasRequiredColumns(t) then Verdict(false, MissingColumnsReason)
      else if HasDuplicates(Column(t, "term")) then Verdict(false, DuplicateTermsReason)
      else if HasDuplicates(Column(t, "id")) then Verdict(false, DuplicateIdsReason)
      else Verdict(true, ValidReason)
  }

  /** Dropping trailing rows never turns a valid file into an invalid one:
      a prefix of distinct columns is still distinct. */
  lemma ValidPrefixStaysValid(t: Table, k: nat)
    requires k <= |t.rows|
    requires Validate(Success(t)).valid
    ensures FitsHeader(Table(t.columns, t.rows[..k]))
    ensures Validate(Success(Table(t.columns, t.rows[..k]))).valid
  {
  }

  /** Duplicate detection compares cells exactly: terms differing only in
      letter case are distinct, so such a file is valid. */
  lemma CaseVariantsAreDistinctTerms()
    ensures Validate(Success(Table(RequiredColumns, [
              [Value("1"), Value("Bank"), Value("Banque")],
              [Value("2"), Value("bank"), Value("rive")]]))) == Verdict(true, ValidReason)
  {
  }

  /** Two rows sharing the id "5" fail with the duplicate-id reason. */
  lemma SharedIdIsRejected()
    ensures Validate(Success(Table(RequiredColumns, [
              [Value("5"), Value("Parliament"), Value("Βουλή")],
              [Value("5"), Value("Senate"), Value("Γερουσία")]]))) == Verdict(false, DuplicateIdsReason)
  {
  }
}
