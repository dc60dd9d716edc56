# Beancount document directives, modelled in Dafny

This project models the document-handling operations of beancount
(`beancount.ops.documents`), and proves properties about them:

- **`verify_document_entries`** checks that each `Document` directive of a
  ledger names an existing file. It reports one `DocumentError` for each
  directive that does not.
- **`find_documents`** resolves a document root directory against the ledger
  file. If that root is missing, it reports the missing root and stops.
  Otherwise it walks the account hierarchy under the root. Every file whose
  name starts with an ISO 8601 extended calendar date `YYYY-MM-DD` (section
  5.2.1.1 of ISO 8601:2004), followed by at least one more character, becomes
  a `Document` directive. Two things change this:
  - an optional account filter;
  - in strict mode, the reporting of files found in a "child" or "parent"
    account of the filter.
- **`process_documents`** does the following, in order:
  1. verifies the ledger's Document directives;
  2. runs the finder once per configured root, in order, filtered by the
     ledger's accounts;
  3. extends the caller's directive list with everything found;
  4. sorts that list by the directive sort key;
  5. returns the list together with the verification errors followed by the
     finder errors.

The project has five modules, one file each:

- `wrappers.dfy` (`Wrappers`): `Option`.
- `data.dfy` (`Data`):
  - source locations, dates and directives;
  - the set of dates that `datetime.date` accepts, with the Gregorian leap-year
    rule.
- `dated_names.dfy` (`DatedNames`):
  - the file-name pattern `(\d\d\d\d)-(\d\d)-(\d\d).(.*)`, matched with
    `re.match` (anchored at the start only);
  - the decimal reading of its groups;
  - the ISO 8601 round trip.
- `entry_lists.dfy` (`EntryLists`): the caller's Python list of directives, as
  a class. `extend` and `sort(key=...)` change it in place.
- `documents.dfy` (`Documents`):
  - the three operations, as methods whose loops follow the source;
  - each method is proved equal to a specification function: `MissingFileErrors`,
    `Scan`/`Find` and `FindAll`;
  - lemmas that state what those functions compute.

The operating system is a parameter, `Env`. It has three parts:

- the set of paths that `path.exists` accepts;
- the `account.walk` of a directory, as a sequence of (directory, account
  name, files) records;
- the resolution of a relative root against the ledger file.

Several things are parameters of `ProcessDocuments`:

- the account set of a ledger (`getters.get_accounts`);
- the sort key (`data.entry_sortkey`);
- the order on keys, which is required to be a total preorder.

An invalid calendar date in a dated file name makes `datetime.date` raise
`ValueError`. This propagates out of `find_documents` and `process_documents`,
and the model has it as the outcome `DateValueError(filename)`.

Where the code and a prose reading of it could differ, the model follows the
code:

- the character after the date may be a digit;
- the description after it may be empty (`2020-01-01x` is a dated name; the
  bare `2020-01-01` is not);
- the child and parent tests are plain string prefixes, so `Assets:BankX` is a
  child of `Assets:Bank`;
- an empty account filter is no filter.

## Model

| member | source | states |
|---|---|---|
| Data.DaysInMonth | src/python/beancount/ops/documents.py:141 | The length of a month, as `datetime.date` checks a day: between 28 and 31; 28 exactly for February of a common year; 29 exactly for February of a leap year; 30 exactly for April, June, September and November; so 31 for the other seven months |
| Data.IsValidDate | src/python/beancount/ops/documents.py:141 | The triples `datetime.date` accepts without raising: years 1 to 9999, months 1 to 12, and a day from 1 that is at most 28, or 29 outside a common-year February, or 30 outside February, or 31 in January, March, May, July, August, October and December |
| Data.LeapDayValidity | src/python/beancount/ops/documents.py:141 | February 29 is a valid date exactly in leap years; February 30 and April 31 never are |
| DatedNames.MatchDated | src/python/beancount/ops/documents.py:119-121 | `re.match` of the date pattern: a match gives back well-formed groups (four, two and two ASCII digits, a separator that is not a newline, and a description without a newline); MatchSound and MatchComplete state which names match |
| DatedNames.MatchSound | src/python/beancount/ops/documents.py:119 | A match of the date pattern spans a prefix of the file name (the pattern is anchored at the start only), and the match ends at the end of the name or at a newline |
| DatedNames.MatchComplete | src/python/beancount/ops/documents.py:119 | A name is matched whenever it starts with four digits, '-', two digits, '-', two digits, one non-newline character and a description up to the end or a newline, and the match gives back exactly those groups |
| DatedNames.MatchShortestName | src/python/beancount/ops/documents.py:119 | One character after the date suffices, and that character may be a digit: `2020-01-01x` and `2020-01-019.pdf` are dated names |
| DatedNames.NoMatchBareDate | src/python/beancount/ops/documents.py:119-121 | A bare date `2020-01-01`, with no character after it, is not a dated name |
| DatedNames.NoMatchUnanchored | src/python/beancount/ops/documents.py:119-121 | A date that does not start the name is not matched |
| DatedNames.NoMatchShortMonth | src/python/beancount/ops/documents.py:119-121 | Each digit group has a fixed width: `2020-1-01.pdf` is not matched |
| DatedNames.DecimalRoundTrip | src/python/beancount/ops/documents.py:141 | `int()` of a zero-padded decimal rendering of a number gives back the number |
| DatedNames.DecimalValueBound | src/python/beancount/ops/documents.py:141 | `int()` of k decimal digits is below 10^k, so the year group reads at most 9999 and the month and day groups at most 99 |
| DatedNames.DateOf | src/python/beancount/ops/documents.py:141 | The triple `datetime.date(*map(int, groups))` is asked to build has a year of at most 9999 and a month and day of at most 99 (two digits each) |
| DatedNames.IsoNameRoundTrip | src/python/beancount/ops/documents.py:119-141 | Every valid date, written in ISO 8601 form with any non-newline separator and a one-line description, is recognised as a dated name, and the date built from its groups is that date |
| EntryLists.Insert | src/python/beancount/ops/documents.py:53 | Inserting a directive into a list sorted by key gives a list that is sorted by key and holds the old directives plus the new one |
| EntryLists.InsertAtSorted | src/python/beancount/ops/documents.py:53 | Placing a directive after every key not greater than its own and before every key not smaller keeps the list sorted |
| EntryLists.EntryList.Extend | src/python/beancount/ops/documents.py:52 | `list.extend` appends the new directives after the existing ones, in order |
| EntryLists.EntryList.Sort | src/python/beancount/ops/documents.py:53 | `list.sort(key=...)` leaves a permutation of the list that is non-decreasing by the key |
| Documents.VerifyDocumentEntries | src/python/beancount/ops/documents.py:58-75 | The entries are returned unchanged, and the errors are those of the specification `MissingFileErrors` |
| Documents.MissingFileErrorsExact | src/python/beancount/ops/documents.py:66-75 | There is exactly one verification error per Document directive whose file does not exist, in input order; each carries that directive and its source; other directives give no error |
| Documents.MissingIndices | src/python/beancount/ops/documents.py:67-70 | The missing-file positions are increasing, each names a Document directive whose file does not exist, and every such directive's position is among them |
| Documents.IsAbsolute | src/python/beancount/ops/documents.py:101 | `path.isabs` on POSIX: a path is absolute exactly when it starts with '/' |
| Documents.Join | src/python/beancount/ops/documents.py:142 | `path.join(root, name)` on POSIX: an absolute name replaces the root; otherwise the result is the root followed by the name, with a single '/' between them exactly when the root is non-empty and does not already end with '/' |
| Documents.DocumentFor | src/python/beancount/ops/documents.py:140-142 | A found file's directive is a Document with source (ledger file, 0), the walk's account name, the root joined with the file name, and the date built from the name's three digit groups |
| Documents.Decide | src/python/beancount/ops/documents.py:119-143 | What happens to one file: it is ignored exactly when its name does not match the date pattern; it becomes a directive (the one DocumentFor makes) exactly when it is dated, admitted by the filter, and names a valid date; it raises exactly when it is dated and admitted but names an invalid date; it is reported only in strict mode and only when the filter rejects it |
| Documents.ScopeError | src/python/beancount/ops/documents.py:126-136 | A strict-mode report has source (ledger file, 0) and no entry. It says "child account" exactly when some filter account is a prefix of the file's account. It says "parent account" exactly when no filter account is such a prefix and the file's account is a prefix of some filter account |
| Documents.NonMemberDecision | src/python/beancount/ops/documents.py:125-137 | A dated file outside a non-empty filter never becomes a directive; it gives at most one error, and gives none outside strict mode |
| Documents.ChildAccountReported | src/python/beancount/ops/documents.py:126-131 | In strict mode, a dated file outside the filter whose account has a filter account as prefix is reported as found in a child account |
| Documents.ParentAccountReported | src/python/beancount/ops/documents.py:132-136 | In strict mode, a dated file outside the filter whose account has no filter account as prefix, but is a prefix of one, is reported as found in a parent account |
| Documents.UnrelatedAccountSkipped | src/python/beancount/ops/documents.py:125-137 | A dated file outside a non-empty filter whose account is neither a child nor a parent of a filter account is skipped without error |
| Documents.ChildScopeExample | src/python/beancount/ops/documents.py:126-131 | With the filter {Assets:Bank:Checking}, a file under Assets:Bank:Checking:Sub is reported as in a child account |
| Documents.ParentScopeExample | src/python/beancount/ops/documents.py:132-136 | With the filter {Assets:Bank:Checking}, a file under Assets is reported as in a parent account |
| Documents.StringPrefixScopeExample | src/python/beancount/ops/documents.py:127 | The child test is a plain string prefix: with the filter {Assets:Bank}, a file under Assets:BankX is reported as in a child account |
| Documents.UnrelatedScopeExample | src/python/beancount/ops/documents.py:125-137 | With the filter {Assets:Bank}, a file under Income is skipped in strict mode |
| Documents.FindDocuments | src/python/beancount/ops/documents.py:97-145 | The step-by-step finder, including root resolution and the missing-root return, computes the specification `Find` |
| Documents.FindInWalk | src/python/beancount/ops/documents.py:114-145 | The loop over the walk's directories computes the scan of all files, directory after directory; a date error ends it |
| Documents.FindInDirectory | src/python/beancount/ops/documents.py:118-143 | The loop over one directory's files extends the scan of the files before it by that directory's files, in file order |
| Documents.FindInFile | src/python/beancount/ops/documents.py:119-143 | The body for one file is one step of the scan, taken with that file's decision: ignore an undated name, skip or report a file outside the filter, append a directive, or raise on an invalid date |
| Documents.FirstInvalid | src/python/beancount/ops/documents.py:141 | The position it gives of the first file with an invalid date lies within the files |
| Documents.FirstInvalidSpec | src/python/beancount/ops/documents.py:141 | The position found names a file with an invalid date, and every file before it has a valid date. No position is found exactly when every date is valid |
| Documents.ScanSummary | src/python/beancount/ops/documents.py:114-145 | What the loops compute, stated without them. On return, every admitted dated file has a valid date, and the directives are those of the admitted dated files in walk order. The errors are the scope errors in walk order in strict mode, and none otherwise. On a date error, the file named is the first admitted dated file whose date is invalid |
| Documents.DateErrorExactlyOnInvalidDate | src/python/beancount/ops/documents.py:125-141 | The finder raises exactly when some dated file that passes the filter has an invalid date; files filtered out never raise |
| Documents.UndatedFileIgnored | src/python/beancount/ops/documents.py:118-121 | A file whose name does not match the date pattern changes nothing, even in strict mode and outside the filter, wherever it appears in the walk |
| Documents.UnfilteredFindsEveryDatedFile | src/python/beancount/ops/documents.py:114-143 | With no filter (None or the empty set) and an existing root, when all dates are valid, the result has exactly one directive per dated file, in walk order then file order, and no errors |
| Documents.DocumentsForAdmitted | src/python/beancount/ops/documents.py:125-143 | Every directive made for a file the filter admits is a Document in a filter account |
| Documents.AdmittedDocumentFound | src/python/beancount/ops/documents.py:125-143 | Every dated file whose account the filter admits has its directive made |
| Documents.FilteredFindsMembersOnly | src/python/beancount/ops/documents.py:125-143 | With a non-empty filter, every directive found is a Document in a filter account, and every dated file in a filter account is found |
| Documents.NonStrictReportsOnlyMissingRoot | src/python/beancount/ops/documents.py:106-137 | Outside strict mode, the only error the finder reports is the missing root; files outside the filter are skipped silently |
| Documents.StrictReportsScopeErrors | src/python/beancount/ops/documents.py:125-137 | In strict mode, with an existing root, the errors are exactly the scope errors of the dated files outside the filter, in walk order |
| Documents.MissingRootShortCircuits | src/python/beancount/ops/documents.py:106-111 | A root that does not exist gives no directives and exactly one error: source (ledger file, 0), no entry, and a message naming the resolved directory |
| Documents.FindAllReportsMissingRoots | src/python/beancount/ops/documents.py:40-49 | The finder errors `process_documents` collects are the missing-root errors of the configured roots, in configured order. When the ledger has accounts, every directive found is in one of them |
| Documents.FindInRoots | src/python/beancount/ops/documents.py:46-49 | The loop over the roots computes `FindAll`. It runs the finder on a prefix of the roots, in order, and on all of them unless a date error stops it |
| Documents.ProcessDocuments | src/python/beancount/ops/documents.py:20-55 | With no roots configured, the finder is never run. Otherwise it runs once per root, in order. The returned list is the caller's own list. The list now holds a permutation of the old directives followed by the found ones, so its length is the old length plus the number found. The list is non-decreasing by the key. The errors are the verification errors followed by the finder errors. A date error leaves the caller's list unchanged |

## Left out

- The file system is a parameter. `path.exists` (lines 70 and 107) is a set of existing paths, and `account.walk` (line 115) is a function from a root to its walk. Both are I/O.
- Documents.ResolveRoot: relative roots go through `path.dirname`, `path.join`, `path.normpath` and `path.abspath` (lines 102-104). This is an abstract function, because `abspath` depends on the process's working directory. `path.isabs` and the `path.join` at line 142 are modelled for POSIX paths.
- The `dirs` list that `account.walk` yields is unused by the code, and is not modelled.
- DatedNames.MatchDated: `\d` is modelled as the ASCII digits. Python's `\d` also matches other Unicode decimal digits.
- Error messages are a datatype (`MissingFile`, `MissingRoot`, `ChildAccount`, `ParentAccount`) carrying the values they embed. The `str.format` text is not modelled.
- `datetime.date` is modelled by its validity rule (years 1 to 9999, the Gregorian month lengths). Its `ValueError` is the outcome `DateValueError` carrying the file name. The exception object is not modelled.
- `data.entry_sortkey` and `getters.get_accounts` are not part of this model. They are parameters: a key function with a total preorder on keys, and a function from directives to accounts.
- EntryLists.EntryList.Sort: proved to give a sorted permutation. The stability of Python's sort (equal keys keep their order) is not stated.
- Options: only the `filename` and `documents` entries of the options map are modelled.
- The `__plugins__` registration (line 13) is plugin plumbing, and is not modelled.
- The guarantee that the finder is never called without roots is stated through a ghost record, `finderCalls`, of the roots the finder was run on.
- The loops of `find_documents` are in three methods: `FindInWalk` for the directories, `FindInDirectory` for the files of one directory, and `FindInFile` for one file. Each is proved against `Scan`.
