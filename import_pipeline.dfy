/**
 * The import loop (`import`): skip the header, then for every record decode,
 * validate, insert the rows that pass, and fold each outcome into the counts
 * and the error list. A failed insert becomes an error of its row and the
 * loop goes on.
 */
module ImportPipeline {
  import opened Prelude
  import opened RowDecoder
  import opened RowValidator
  import opened ContactStore

  /** The summary the service returns: `inserted`, `skipped`, `errors`. */
  datatype Results = Results(inserted: nat, skipped: nat, errors: seq<RowError>)

  /**
   * Everything the loop carries from one record to the next: the summary, the
   * number of the last line read, the emails inserted from this file so far,
   * and the store.
   */
  datatype Batch = Batch(results: Results, line: int, processed: seq<string>, store: StoreState)

  /** What the message of an insertion error starts with. */
  const InsertionPrefix: string := "Erreur lors de l'insertion: "

  /**
   * The error message of an insert that failed with `reason`. It never equals
   * a rule message, so an insertion error can always be told from a rule error.
   */
  function InsertionError(reason: string): (m: string)
    ensures m !in RuleMessages
    ensures InsertionPrefix <= m && m[|InsertionPrefix|..] == reason
  {
    assert (InsertionPrefix + reason)[1] == 'r';
    InsertionPrefix + reason
  }

  /** The state before the first data record: nothing counted, line 1 (the header) read. */
  function Start(store: StoreState): (b: Batch)
    ensures b.results.inserted == 0 && b.results.skipped == 0 && b.results.errors == []
    ensures b.processed == [] && b.store == store && b.line == 1
  {
    Batch(Results(0, 0, []), 1, [], store)
  }

  /** One turn of the loop on record `row`. */
  function Step(b: Batch, row: Record, isEmail: string -> bool): (r: Batch)
    ensures r.line == b.line + 1
    ensures r.results.inserted + r.results.skipped == b.results.inserted + b.results.skipped + 1
    ensures b.results.skipped <= r.results.skipped
    ensures |r.results.errors| == |b.results.errors| + (r.results.skipped - b.results.skipped)
    ensures r.results.errors[..|b.results.errors|] == b.results.errors
    ensures forall i :: |b.results.errors| <= i < |r.results.errors| ==> r.results.errors[i].line == r.line
  {
    var line := b.line + 1;
    var data := MapRow(row);
    var rs := b.results;
    match ValidateRow(data, line, b.store.contacts.Keys, b.processed, isEmail)
    case Some(error) =>
      Batch(Results(rs.inserted, rs.skipped + 1, rs.errors + [error]), line, b.processed, b.store)
    case None =>
      var (outcome, store) := CreateEffect(b.store, data);
      match outcome
      case Inserted =>
        Batch(Results(rs.inserted + 1, rs.skipped, rs.errors), line, b.processed + [data.email], store)
      case Failed(reason) =>
        Batch(Results(rs.inserted, rs.skipped + 1, rs.errors + [RowError(line, InsertionError(reason))]),
              line, b.processed, store)
  }

  /**
   * The in-file list grows in a step only by the email of a row that passed
   * validation and was inserted, exactly when the store gains that row; the
   * step consumes one fault-oracle entry only when it tries an insert.
   */
  lemma StepList(b: Batch, row: Record, isEmail: string -> bool)
    ensures var r := Step(b, row, isEmail);
            && (r.results.inserted == b.results.inserted ==>
                  r.processed == b.processed && r.store.contacts == b.store.contacts)
            && (r.results.inserted != b.results.inserted ==>
                  ValidateRow(MapRow(row), r.line, b.store.contacts.Keys, b.processed, isEmail).None?
                  && r.processed == b.processed + [MapRow(row).email]
                  && r.store.contacts == b.store.contacts[MapRow(row).email := MapRow(row)])
            && (r.store.faults == b.store.faults || r.store.faults == Consume(b.store.faults))
  {
  }

  /** A row that fails validation is skipped with its error; nothing else changes. */
  lemma StepRejects(b: Batch, row: Record, error: RowError, isEmail: string -> bool)
    requires ValidateRow(MapRow(row), b.line + 1, b.store.contacts.Keys, b.processed, isEmail) == Some(error)
    ensures Step(b, row, isEmail)
            == Batch(Results(b.results.inserted, b.results.skipped + 1, b.results.errors + [error]),
                     b.line + 1, b.processed, b.store)
  {
  }

  /**
   * A row that passes validation is inserted: on success it is counted and its
   * email listed, on failure it is skipped with the insertion error.
   */
  lemma StepCreates(b: Batch, row: Record, outcome: Insertion, store: StoreState, isEmail: string -> bool)
    requires ValidateRow(MapRow(row), b.line + 1, b.store.contacts.Keys, b.processed, isEmail).None?
    requires (outcome, store) == CreateEffect(b.store, MapRow(row))
    ensures outcome.Inserted? ==>
              Step(b, row, isEmail)
              == Batch(Results(b.results.inserted + 1, b.results.skipped, b.results.errors),
                       b.line + 1, b.processed + [MapRow(row).email], store)
    ensures outcome.Failed? ==>
              Step(b, row, isEmail)
              == Batch(Results(b.results.inserted, b.results.skipped + 1,
                               b.results.errors + [RowError(b.line + 1, InsertionError(outcome.reason))]),
                       b.line + 1, b.processed, store)
  {
  }

  /** The loop run over `rows` in order, from state `b`. */
  function Run(b: Batch, rows: seq<Record>, isEmail: string -> bool): (r: Batch)
    ensures r.line == b.line + |rows|
    ensures r.results.inserted + r.results.skipped == b.results.inserted + b.results.skipped + |rows|
    ensures |r.results.errors| - r.results.skipped == |b.results.errors| - b.results.skipped
    ensures |r.processed| - r.results.inserted == |b.processed| - b.results.inserted
    decreases |rows|
  {
    if rows == [] then b
    else Step(Run(b, rows[..|rows| - 1], isEmail), rows[|rows| - 1], isEmail)
  }

  /** Where the data records begin: after the header, if there is one. */
  function HeaderEnd(file: seq<Record>): nat {
    if file == [] then 0 else 1
  }

  /** The records after the header. */
  function DataRecords(file: seq<Record>): (rows: seq<Record>)
    ensures file == [] ==> rows == []
    ensures file != [] ==> rows == file[1..]
  {
    file[HeaderEnd(file)..]
  }

  /** The whole import of `file` against a store in state `store`. */
  function ImportSpec(file: seq<Record>, store: StoreState, isEmail: string -> bool): (b: Batch) {
    Run(Start(store), DataRecords(file), isEmail)
  }

  /** The loop over one more record is one more step. */
  lemma RunSnoc(b: Batch, rows: seq<Record>, row: Record, isEmail: string -> bool)
    ensures Run(b, rows + [row], isEmail) == Step(Run(b, rows, isEmail), row, isEmail)
  {
    assert (rows + [row])[..|rows|] == rows;
  }

  /** `RunSnoc` for a slice of the file that grows by one record, as the loop reads it. */
  lemma RunExtend(b: Batch, file: seq<Record>, lo: nat, hi: nat, isEmail: string -> bool)
    requires lo <= hi < |file|
    ensures Run(b, file[lo..hi + 1], isEmail) == Step(Run(b, file[lo..hi], isEmail), file[hi], isEmail)
  {
    assert file[lo..hi + 1] == file[lo..hi] + [file[hi]];
    RunSnoc(b, file[lo..hi], file[hi], isEmail);
  }

  /**
   * `import`: reads the header, then every record in turn, and returns the
   * summary; the store ends in the state the specification gives.
   */
  method Import(file: seq<Record>, store: Store, isEmail: string -> bool) returns (results: Results)
    modifies store
    ensures results == ImportSpec(file, old(store.State()), isEmail).results
    ensures store.State() == ImportSpec(file, old(store.State()), isEmail).store
  {
    ghost var start := Start(store.State());
    var next := 0;
    if next < |file| {
      next := next + 1;  // the header is read and thrown away
    }
    results := Results(0, 0, []);
    var lineNumber := 1;
    var processedEmails: seq<string> := [];
    while next < |file|
      invariant HeaderEnd(file) <= next <= |file|
      invariant Batch(results, lineNumber, processedEmails, store.State())
                == Run(start, file[HeaderEnd(file)..next], isEmail)
    {
      ghost var before := Batch(results, lineNumber, processedEmails, store.State());
      var row := file[next];
      RunExtend(start, file, HeaderEnd(file), next, isEmail);
      next := next + 1;
      lineNumber := lineNumber + 1;
      var data := MapRow(row);
      var error := ValidateRow(data, lineNumber, store.contacts.Keys, processedEmails, isEmail);
      if error.Some? {
        StepRejects(before, row, error.value, isEmail);
        results := Results(results.inserted, results.skipped + 1, results.errors + [error.value]);
        continue;
      }
      var created := store.Create(data);
      StepCreates(before, row, created, store.State(), isEmail);
      if created.Inserted? {
        results := Results(results.inserted + 1, results.skipped, results.errors);
        processedEmails := processedEmails + [data.email];
      } else {
        results := Results(results.inserted, results.skipped + 1,
                           results.errors + [RowError(lineNumber, InsertionError(created.reason))]);
      }
    }
    assert file[HeaderEnd(file)..next] == DataRecords(file);
  }
}
