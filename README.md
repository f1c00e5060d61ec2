# Contact CSV import — a Dafny model

This project models the contact import service of a small Laravel application
(`ContactImportService`). The service reads a CSV file record by record and discards the
header line. It maps each data record onto a contact (first name, last name, email, optional
phone) and checks it against four rules, in this order:

1. required fields present;
2. well-formed email;
3. email not already in the contact table;
4. email not already inserted from this file.

Rows that pass are inserted. Every outcome is folded into a summary
`{inserted, skipped, errors}`. A failed insert becomes an error of its row and the
loop goes on.

Modules, leaves first:

- `Prelude` (`prelude.dfy`): `Option`, standing for PHP's null, and `Distinct`.
- `RowDecoder` (`row_decoder.dfy`): a record is `seq<Option<string>>`, already
  tokenised; a blank line is the record `[None]`. `MapRow` is `mapRow`.
- `RowValidator` (`row_validator.dfy`): `ValidateRow` is `validateRow`, a function
  of the decoded row, the line, the store's emails and the in-file email list. It
  uses the source's French messages verbatim. `Empty` is PHP's `empty()` on a
  string, so `""` and `"0"` are both empty.
- `ContactStore` (`contact_store.dfy`): the contact table as a class `Store`. Its
  `contacts: map<string, Contact>` is keyed by email. The existence query of rule 3
  is membership in the table's key set, which `ValidateRow` receives.
  `Create` is the insert, which succeeds or fails with a reason. A fault oracle
  `faults: seq<Option<string>>` decides which inserts fail. Each insert consumes one
  entry, `Some(reason)` makes it fail, and an exhausted oracle means success.
  `CreateEffect` is the same insert as a function on `StoreState`.
- `ImportPipeline` (`import_pipeline.dfy`): `Step` is one turn of the read loop.
  `Run` is the loop over a sequence of records. `ImportSpec` is the whole import.
  `Import` is the imperative loop itself, over the `Store` object. It is proved to
  return `ImportSpec(...).results` and to leave the store in `ImportSpec(...).store`.
- `ImportProperties` (`import_properties.dfy`): what holds of whole imports.

The email-format test (`filter_var(..., FILTER_VALIDATE_EMAIL)`) is a parameter
`isEmail: string -> bool`. Every result holds for every such test.

Two behaviours of the code are kept as written:

- The store check (rule 3) runs before the in-file check (rule 4). A successful insert
  adds the email to the store. So an email repeated in one file is reported as
  `Email déjà existant en base`, and `Doublon dans le fichier` is never reported by an
  import (`ImportNeverReportsInFileDuplicate`, `RepeatedEmailReportedAsInStore`).
  The code's comments describe rule 4 as the guard against duplicates inside the file.
  Only the store check ever fires for them.
- Re-importing a file inserts nothing when no insert failed during the first run
  (`ReimportInsertsNothing`). That condition is enough but not needed. Once an insert
  has failed, the rerun may insert that row.

## Model

| member | source | states |
|---|---|---|
| RowDecoder.MapRowPositions | app/Services/ContactImportService.php:77-86 | positions 0–2 are copied when present and not null, and are `''` otherwise; the phone is copied when present and not null, and is null otherwise |
| RowDecoder.MapRowToRecord | app/Services/ContactImportService.php:80-85 | decoding the record written from any contact gives back that contact |
| RowDecoder.MapRowIgnoresExtra | app/Services/ContactImportService.php:80-85 | columns after the fourth never change the decoded contact |
| RowDecoder.MapRowNullIsAbsent | app/Services/ContactImportService.php:81-84 | a trailing null field decodes like a missing one |
| RowDecoder.MapRowBlankLine | app/Services/ContactImportService.php:81-84 | a blank line decodes to three empty required fields and no phone |
| RowValidator.ValidateRow | app/Services/ContactImportService.php:96-131 | no error exactly when all four rules pass; any error carries the given line and one of the four rule messages |
| RowValidator.ValidateRowIsFirstFailure | app/Services/ContactImportService.php:98-130 | the result is the message of the first failing rule in the order required, format, store, in-file, and nothing when no rule fails |
| RowValidator.ValidateRowIgnoresPhone | app/Services/ContactImportService.php:98-130 | the phone never changes the verdict |
| RowValidator.ZeroFirstNameIsMissing | app/Services/ContactImportService.php:99-104 | a first name of `"0"` is reported as a missing required field |
| RowValidator.StoreDuplicateReported | app/Services/ContactImportService.php:115-119 | a well-formed row whose email the store holds gets `Email déjà existant en base` |
| RowValidator.InFileRuleNeedsEmailOutsideStore | app/Services/ContactImportService.php:115-127 | when every listed email is in the store, the in-file rule is never the first to fail |
| ContactStore.Store.Create | app/Services/ContactImportService.php:51 | the outcome and new state are those of `CreateEffect` on the old state: the insert fails exactly when the oracle says so, leaving the table unchanged, and otherwise stores the contact under its email |
| ImportPipeline.InsertionError | app/Services/ContactImportService.php:59 | the message never equals any of the four rule messages, so an insertion error can always be told from a rule error |
| ImportPipeline.Step | app/Services/ContactImportService.php:35-62 | one record is counted once; the line rises by one; a skip adds exactly one error, carrying the new line, and keeps the earlier errors |
| ImportPipeline.StepList | app/Services/ContactImportService.php:42-61 | the list and the table change only on a successful insert of a validated row: the list gains its email and the table gains the row; otherwise neither changes |
| ImportPipeline.StepRejects | app/Services/ContactImportService.php:42-47 | a row that fails validation adds its error and one skip, and changes nothing else |
| ImportPipeline.StepCreates | app/Services/ContactImportService.php:50-62 | a validated row is inserted: a success counts it and lists its email; a failure counts a skip with the insertion error at the row's line |
| ImportPipeline.RunSnoc | app/Services/ContactImportService.php:35-63 | reading one more record is one more turn of the loop |
| ImportPipeline.Run | app/Services/ContactImportService.php:35-63 | over n records: the line rises by n; inserted plus skipped rises by n; errors minus skipped and list length minus inserted stay the same |
| ImportPipeline.DataRecords | app/Services/ContactImportService.php:22-35 | the data records are `file[1..]`, all records but the first, and none for an empty file |
| ImportPipeline.Import | app/Services/ContactImportService.php:16-69 | the loop returns the summary of `ImportSpec` and leaves the store in its final state |
| ImportProperties.ImportCounts | app/Services/ContactImportService.php:35-62 | inserted plus skipped equals the number of records after the header; the error count equals skipped; the list holds one email per insert |
| ImportProperties.ImportEmptyFile | app/Services/ContactImportService.php:22-35 | an empty or header-only file gives the initial summary `0, 0, []` and leaves the store unchanged |
| ImportProperties.RunErrorLines | app/Services/ContactImportService.php:31-58 | running on keeps error lines strictly rising, and new errors lie after the last line read |
| ImportProperties.ImportErrorLines | app/Services/ContactImportService.php:31-36 | an import's error lines rise strictly and lie between 2 and the file's last line |
| ImportProperties.StepKeepsList | app/Services/ContactImportService.php:42-61 | one step keeps the list distinct, made of new well-formed emails, and equal to what the store gained |
| ImportProperties.RunKeepsList | app/Services/ContactImportService.php:35-63 | the same over many steps, and the list only grows |
| ImportProperties.ImportInsertsDistinctNewEmails | app/Services/ContactImportService.php:51-53 | in one import no email is inserted twice, none was stored before, and the store ends holding its old emails plus the inserted ones |
| ImportProperties.RunNeverDuplicateInFile | app/Services/ContactImportService.php:115-127 | running on from a consistent state never adds an in-file duplicate error |
| ImportProperties.ImportNeverReportsInFileDuplicate | app/Services/ContactImportService.php:115-127 | no error of an import carries `Doublon dans le fichier` |
| ImportProperties.RepeatedEmailReportedAsInStore | app/Services/ContactImportService.php:115-127 | two rows with one email into an empty store give `1, 1`, and the second row's error at line 3 is `Email déjà existant en base` |
| ImportProperties.RunAppend | app/Services/ContactImportService.php:35-63 | the loop over `xs + ys` is the loop over `xs` followed by the loop over `ys` |
| ImportProperties.InsertionFailureRecorded | app/Services/ContactImportService.php:54-62 | a validated row whose insert fails adds one error with its line and reason; `inserted`, the list and the table do not change |
| ImportProperties.ImportContinuesAfterRow | app/Services/ContactImportService.php:35-63 | whatever happens at record k, the import continues over the records after it |
| ImportProperties.RejectionMessage | app/Services/ContactImportService.php:98-120 | the message of a row whose email, when well formed, is already stored: the store message exactly when rules 1 and 2 pass |
| ImportProperties.RunKeysGrow | app/Services/ContactImportService.php:50-53 | whatever the oracle says, an import never removes an email from the store |
| ImportProperties.RunKeepsStore | app/Services/ContactImportService.php:50-53 | a store whose inserts never fail still never fails after a run |
| ImportProperties.StepCoversRow | app/Services/ContactImportService.php:42-53 | against a store that never fails, one step keeps the stored emails and stores the row's email if rules 1 and 2 pass |
| ImportProperties.RunCoversRows | app/Services/ContactImportService.php:42-53 | against a store that never fails, every well-formed row's email ends up stored |
| ImportProperties.RejectionsAt | app/Services/ContactImportService.php:36-45 | rejection k carries line `first + k` and the rule message of record k |
| ImportProperties.RejectionsAll | app/Services/ContactImportService.php:36-45 | there is one rejection per record, each with its line and rule message |
| ImportProperties.RunRejectsCovered | app/Services/ContactImportService.php:98-120 | when every well-formed email is already stored, every row is skipped with its rule message and line, and nothing changes |
| ImportProperties.ReimportInsertsNothing | app/Services/ContactImportService.php:16-69 | after a fault-free first import, rerunning the file inserts nothing, leaves the table alone, and skips data record k at line k + 2 with its rule message |

## Left out

- Reading the file (`fopen`, `fgetcsv`, `fclose`) and CSV quoting: the input is the already tokenised sequence of records. Nothing is claimed about releasing the stream. The close at line 66 is not on every exit path.
- A file that cannot be opened: `fopen` returning false is not modelled.
- The email grammar of `filter_var(FILTER_VALIDATE_EMAIL)`: it is the parameter `isEmail`.
- The database: emails are compared by exact string equality. A case-insensitive collation in the real table is not modelled.
- A failure of the existence query: it lies outside the `try` and would abort the whole import. The model's lookup cannot fail.
- The in-file check uses `in_array`, which compares loosely. The model compares strings exactly. Only emails that passed the format check reach it, and the rule never fires in any case.
- Error logging (`Log::error`, line 61): it has no effect on the result.
- Which inserts fail: this is decided by the fault oracle, not by the database.
- PHP integer overflow of the counters and line numbers: integers are unbounded here.
- The HTTP controller and the route: they are framework code around the service.
- Two imports running at once: the race between the existence check and the insert is about concurrency, and the code does nothing about it.
