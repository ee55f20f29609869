# Terminology utilities of nkrane, modelled in Dafny

nkrane wraps a machine-translation call with domain-specific terminology
control. Its helper module `tc_translate/utils.py` holds three small
operations around the terminology store, and this project models them:

- **Terminology-file validation** (`validate_terminology_file`). A CSV file
  of terms must have the columns `id`, `term` and `translation`. Its `term`
  column and its `id` column must each be free of duplicates. The validator
  answers with a `(valid, reason)` pair and, once pandas is imported, never
  raises: a read failure becomes a verdict.
- **Listing** (`list_available_options`). The store's domains, languages and
  populated `(domain, language)` pairs are returned together with the pairs
  grouped by domain. The grouping is an insertion-ordered dictionary from
  domain to the list of its languages.
- **Export** (`export_terminology`). The term entries of one domain and
  language become `{id, term, translation}` records. These go to a JSON
  serialiser, to a CSV writer, or back to the caller as a plain list. An
  empty terminology is an error.

Modules, one per file:

- `Wrappers` (`wrappers.dfy`): the `Result` type that replaces raised
  errors.
- `Sequences` (`sequences.dfy`): the `Distinct` predicate and one fact about
  it.
- `PyDict` (`pydict.dfy`): Python's insertion-ordered `dict`. It is a
  subset type whose keys are listed once each, in insertion order.
- `Validation` (`validation.dfy`): the parsed table, pandas' `duplicated()`
  and the validator.
- `Listing` (`listing.dfy`): the group-by-domain loop and the listing answer.
- `Export` (`export.dfy`): the record projection and the export.

Inputs that stand for code outside the module:

- The CSV read (`pandas.read_csv`) arrives as a `Result<Table, string>`.
  It is either the parsed table or the message of the exception the read
  raised.
- A `Table` is the header's column names plus the data rows. A cell is
  `Missing` (pandas' NaN) or a parsed `Value`. A row shorter than the header
  reads as `Missing` in the columns it lacks, as pandas fills them. No row
  of a `Table` is longer than the header: pandas either rejects such a file,
  which reaches the validator as a `Failure`, or shifts the extra leading
  field into the row index, which is parser work outside the model. Column
  lookup takes the first column with the requested name.
- The `TerminologyManager` answers (`get_domains`, `get_languages`,
  `get_available_domains_languages`, `get_terms_for_domain_lang`) are plain
  parameters.

Two facts about the code worth knowing:

- Duplicate detection compares cells exactly, so in a text column `Bank` and
  `bank` are two different terms (`Validation.CaseVariantsAreDistinctTerms`).
- The validator is annotated as returning `bool`. It actually returns a
  `(valid, reason)` pair, and `Verdict` models that pair.

## Model

| member | source | states |
|---|---|---|
| `Validation.Validate` | tc_translate/utils.py:58-79 | A read failure becomes `(False, "Error reading file: " + message)`. A missing `id`, `term` or `translation` column gives the missing-columns reason whatever the rows hold. Otherwise duplicate terms are reported before duplicate ids. The verdict is valid, with reason "File is valid", exactly when all three columns are present and the `term` and `id` columns are each pairwise distinct. |
| `Validation.HasDuplicates` | tc_translate/utils.py:70-74 | `duplicated().any()` holds exactly when two positions of the column hold equal cells. |
| `Validation.MarkedIffNotDistinct` | tc_translate/utils.py:70 | Some position of the `duplicated()` mask is set exactly when the column is not duplicate-free. |
| `Validation.Duplicated` | tc_translate/utils.py:70 | `duplicated()` marks a position exactly when its value already occurs earlier in the column, so the first occurrence is kept unmarked. |
| `Validation.MarkRepeats` | tc_translate/utils.py:70 | The hash-table scan behind `duplicated()`: a position is marked exactly when its value was seen before the scan started or occurs earlier in the scanned part. |
| `Validation.ValidPrefixStaysValid` | tc_translate/utils.py:65-76 | Dropping trailing rows from a valid file leaves it valid. |
| `Validation.CaseVariantsAreDistinctTerms` | tc_translate/utils.py:70-71 | Terms that differ only in letter case are not duplicates, so such a file is valid. |
| `Validation.SharedIdIsRejected` | tc_translate/utils.py:73-74 | Two rows sharing the id "5" under distinct terms fail with "Duplicate IDs found". |
| `Listing.GroupByDomain` | tc_translate/utils.py:14-18 | The keys of the grouping are exactly the domains occurring in the pairs. Each domain's list is the languages of the pairs with that domain, in input order. Keys are ordered by where their domain first occurs. |
| `Listing.StepLanguages` | tc_translate/utils.py:16-18 | One loop iteration appends the pair's language to its own domain's list, starting from an empty list for a new domain. Afterwards every list still equals that domain's languages in the longer input. |
| `Listing.StepOrderSeen` | tc_translate/utils.py:16-18 | An iteration for a domain already present leaves the keys unchanged, and they stay ordered by first occurrence in the longer input. |
| `Listing.StepOrderNew` | tc_translate/utils.py:16-17 | An iteration for a new domain places it after all existing keys, and the keys stay ordered by first occurrence. |
| `Listing.GroupingKeepsEveryPair` | tc_translate/utils.py:14-18 | The lengths of the grouped lists add up to the number of input pairs. |
| `Listing.ListAvailableOptions` | tc_translate/utils.py:5-25 | Domains, languages and pairs are returned unchanged. The grouping is keyed by exactly the pairs' domains, in the order each domain first occurs. It holds each domain's languages in input order, and its lists add up to the number of pairs. |
| `PyDict.EmptyIffNoEntries` | tc_translate/utils.py:33 | A dictionary is falsy exactly when it has no entries. |
| `Export.Records` | tc_translate/utils.py:36-43 | There is one record per entry, in the dictionary's iteration order. Each record copies its entry's `id`, `term` and `translation` verbatim, so reading the record back as an entry gives that entry. |
| `Export.ExportTerminology` | tc_translate/utils.py:27-56 | The export fails exactly when the term dictionary is empty, with "No terminology found for {domain}/{language}". Otherwise the records go to the JSON serialiser for "json" and to the CSV writer for "csv". Any other format name returns the record list unchanged. |
| `Export.ExportCoversEntries` | tc_translate/utils.py:36-43 | Every entry of the dictionary is exported, and every exported record comes from some entry. |

## Left out

- The CSV parser (`pandas.read_csv`): its dialect handling, type inference and quoting are not modelled. A parsed cell is compared by plain equality, so ids that the parser maps to the same number (`5` and `05`), or a column of only boolean words that it reads as booleans (`true` and `True`), must arrive as equal `Value`s.
- The `import pandas` at tc_translate/utils.py:60 runs outside the `try`; an import failure propagates and is not modelled.
- Exceptions raised inside the validator's `try` block after the read are not modelled. Once the table is parsed and the columns are present, the column lookups and duplicate checks cannot fail.
- Files whose first data row is wider than the header, which pandas reads with the extra leading fields as the row index, are not modelled: the parser's reshaping is outside the model, and a `Table` never has rows wider than its header.
- The default `output_format='json'` of `export_terminology` is not modelled as a default: callers pass `JsonFormat` where Python relies on it.
- `json.dumps` and `csv.DictWriter` are not modelled. The export returns the record list tagged with the serialiser it would be handed to, not the serialised text.
- The `TerminologyManager` (construction from `terminologies_dir`, the four lookups) is not modelled. Its answers are parameters. If `get_terms_for_domain_lang` returned `None`, the code would raise the same not-found error; the model takes a dictionary only.
- Term objects may carry more attributes than `id`, `term` and `translation`. The export reads only those three, and only those are modelled.
- The placeholder substitution and restoration engine, and the term loading and merging, live in the terminology manager module. That module is not part of this model.
- nkrane/translator.py (the network translation call, event-loop handling, timeouts, rate limiting and logging) is not modelled. It is orchestration around an external service.
- tc-translator/utils.py (a process-wide translator singleton and a field-copying result wrapper) is not modelled, for the same reason.
