/**
 * What the import promises over a whole file: the counts add up, the error
 * lines rise, the in-file email list holds exactly the inserted emails, a
 * failed insert does not stop the loop, and a second run of the same file
 * inserts nothing.
 */
module ImportProperties {
  import opened Prelude
  import opened RowDecoder
  import opened RowValidator
  import opened ContactStore
  import opened ImportPipeline

  // ---------------------------------------------------------------- counting

  /**
   * Every record after the header is counted once, as inserted or as skipped,
   * every skip has its error, and the in-file list holds one email per insert.
   */
  lemma ImportCounts(file: seq<Record>, store: StoreState, isEmail: string -> bool)
    ensures var r := ImportSpec(file, store, isEmail).results;
            r.inserted + r.skipped == |DataRecords(file)|
            && |r.errors| == r.skipped
            && |ImportSpec(file, store, isEmail).processed| == r.inserted
  {
  }

  /** An empty file and a header-only file both give an empty summary and leave the store alone. */
  lemma ImportEmptyFile(file: seq<Record>, store: StoreState, isEmail: string -> bool)
    requires |file| <= 1
    ensures ImportSpec(file, store, isEmail).results == Results(0, 0, [])
    ensures ImportSpec(file, store, isEmail).store == store
  {
    assert DataRecords(file) == [];
  }

  // ------------------------------------------------------------ error lines

  /** The error lines rise strictly through the list. */
  predicate LinesIncreasing(errors: seq<RowError>) {
    forall i, j :: 0 <= i < j < |errors| ==> errors[i].line < errors[j].line
  }

  /** Every error line lies in `lo..hi`. */
  predicate LinesWithin(errors: seq<RowError>, lo: int, hi: int) {
    forall i :: 0 <= i < |errors| ==> lo <= errors[i].line <= hi
  }

  /** Running on keeps the lines in order and puts new errors after the last line read. */
  lemma {:induction false} RunErrorLines(b: Batch, rows: seq<Record>, lo: int, isEmail: string -> bool)
    requires LinesIncreasing(b.results.errors)
    requires LinesWithin(b.results.errors, lo, b.line)
    requires lo <= b.line + 1
    ensures LinesIncreasing(Run(b, rows, isEmail).results.errors)
    ensures LinesWithin(Run(b, rows, isEmail).results.errors, lo, b.line + |rows|)
    ensures forall i :: |b.results.errors| <= i < |Run(b, rows, isEmail).results.errors| ==>
              b.line < Run(b, rows, isEmail).results.errors[i].line
    decreases |rows|
  {
    if rows != [] {
      var m := Run(b, rows[..|rows| - 1], isEmail);
      RunErrorLines(b, rows[..|rows| - 1], lo, isEmail);
      var r := Step(m, rows[|rows| - 1], isEmail);
      assert r == Run(b, rows, isEmail);
      var n := |m.results.errors|;
      forall i, j | 0 <= i < j < |r.results.errors|
        ensures r.results.errors[i].line < r.results.errors[j].line
      {
        if j >= n {
          assert r.results.errors[j].line == m.line + 1;
          assert r.results.errors[i] == m.results.errors[i];
        } else {
          assert r.results.errors[i] == m.results.errors[i];
          assert r.results.errors[j] == m.results.errors[j];
        }
      }
      forall i | 0 <= i < |r.results.errors|
        ensures lo <= r.results.errors[i].line <= b.line + |rows|
      {
        if i < n {
          assert r.results.errors[i] == m.results.errors[i];
        }
      }
      forall i | |b.results.errors| <= i < |r.results.errors|
        ensures b.line < r.results.errors[i].line
      {
        if i < n {
          assert r.results.errors[i] == m.results.errors[i];
        }
      }
    }
  }

  /**
   * The first data record is line 2 and each further one a line more, so the
   * error lines of an import rise strictly and lie between 2 and the file's
   * last line.
   */
  lemma ImportErrorLines(file: seq<Record>, store: StoreState, isEmail: string -> bool)
    ensures LinesIncreasing(ImportSpec(file, store, isEmail).results.errors)
    ensures LinesWithin(ImportSpec(file, store, isEmail).results.errors, 2, |file|)
  {
    RunErrorLines(Start(store), DataRecords(file), 2, isEmail);
  }

  // ----------------------------------------------------- the in-file email list

  /**
   * What the in-file list and the store keep during one import that started
   * from a store holding `initial`: the list has no repeats, every entry is a
   * new, well-formed email now in the store, and the store holds exactly the
   * initial emails plus the listed ones.
   */
  ghost predicate ListMatchesStore(b: Batch, initial: set<string>, isEmail: string -> bool) {
    && Distinct(b.processed)
    && (forall i :: 0 <= i < |b.processed| ==>
          b.processed[i] !in initial && !Empty(b.processed[i]) && isEmail(b.processed[i]))
    && b.store.contacts.Keys == initial + set e | e in b.processed
  }

  lemma StepKeepsList(b: Batch, row: Record, initial: set<string>, isEmail: string -> bool)
    requires ListMatchesStore(b, initial, isEmail)
    ensures ListMatchesStore(Step(b, row, isEmail), initial, isEmail)
  {
    var r := Step(b, row, isEmail);
    StepList(b, row, isEmail);
    if r.results.inserted != b.results.inserted {
      var e := MapRow(row).email;
      assert e !in b.store.contacts.Keys;
      assert e !in initial && e !in b.processed;
      assert (set x | x in r.processed) == (set x | x in b.processed) + {e};
    }
  }

  /**
   * The list only grows, and stays in step with the store, so no email is
   * inserted twice in one run.
   */
  lemma {:induction false} RunKeepsList(b: Batch, rows: seq<Record>, initial: set<string>, isEmail: string -> bool)
    requires ListMatchesStore(b, initial, isEmail)
    ensures ListMatchesStore(Run(b, rows, isEmail), initial, isEmail)
    ensures b.processed <= Run(b, rows, isEmail).processed
    decreases |rows|
  {
    if rows != [] {
      RunKeepsList(b, rows[..|rows| - 1], initial, isEmail);
      StepKeepsList(Run(b, rows[..|rows| - 1], isEmail), rows[|rows| - 1], initial, isEmail);
    }
  }

  /**
   * Within one import, the emails inserted are all different, none was in the
   * store before, each passed rules 1 and 2, and the store ends holding exactly
   * its old emails plus these.
   */
  lemma ImportInsertsDistinctNewEmails(file: seq<Record>, store: StoreState, isEmail: string -> bool)
    ensures ListMatchesStore(ImportSpec(file, store, isEmail), store.contacts.Keys, isEmail)
  {
    var none: seq<string> := [];
    assert (set e | e in none) == {};
    RunKeepsList(Start(store), DataRecords(file), store.contacts.Keys, isEmail);
  }

  // ------------------------------------------------ the in-file rule never fires

  /** No error of the list carries the in-file duplicate message. */
  predicate NoInFileDuplicate(errors: seq<RowError>) {
    forall i :: 0 <= i < |errors| ==> errors[i].message != DuplicateInFile
  }

  lemma {:induction false} RunNeverDuplicateInFile(b: Batch, rows: seq<Record>, initial: set<string>, isEmail: string -> bool)
    requires ListMatchesStore(b, initial, isEmail)
    requires NoInFileDuplicate(b.results.errors)
    ensures NoInFileDuplicate(Run(b, rows, isEmail).results.errors)
    decreases |rows|
  {
    if rows != [] {
      var init := rows[..|rows| - 1];
      var row := rows[|rows| - 1];
      RunNeverDuplicateInFile(b, init, initial, isEmail);
      RunKeepsList(b, init, initial, isEmail);
      var m := Run(b, init, isEmail);
      var data := MapRow(row);
      InFileRuleNeedsEmailOutsideStore(data, m.line + 1, m.store.contacts.Keys, m.processed, isEmail);
      var v := ValidateRow(data, m.line + 1, m.store.contacts.Keys, m.processed, isEmail);
      var r := Step(m, row, isEmail);
      assert r == Run(b, rows, isEmail);
      forall i | 0 <= i < |r.results.errors| ensures r.results.errors[i].message != DuplicateInFile {
        if i < |m.results.errors| {
          assert r.results.errors[i] == m.results.errors[i];
        }
      }
    }
  }

  /**
   * Because the store check comes first and the store gains every inserted
   * email, an import never reports "Doublon dans le fichier": a repeated email
   * is reported as already in the store.
   */
  lemma ImportNeverReportsInFileDuplicate(file: seq<Record>, store: StoreState, isEmail: string -> bool)
    ensures NoInFileDuplicate(ImportSpec(file, store, isEmail).results.errors)
  {
    var none: seq<string> := [];
    assert (set e | e in none) == {};
    RunNeverDuplicateInFile(Start(store), DataRecords(file), store.contacts.Keys, isEmail);
  }

  /** Two rows with one email and an empty store: the second is reported as already in the store. */
  lemma RepeatedEmailReportedAsInStore(isEmail: string -> bool)
    requires isEmail("dup@z.com")
    ensures var file := [[Some("first_name"), Some("last_name"), Some("email"), Some("phone")],
                         [Some("Ann"), Some("Lee"), Some("dup@z.com")],
                         [Some("Bob"), Some("Kay"), Some("dup@z.com")]];
            ImportSpec(file, StoreState(map[], []), isEmail).results
              == Results(1, 1, [RowError(3, EmailInStore)])
  {
    var file := [[Some("first_name"), Some("last_name"), Some("email"), Some("phone")],
                 [Some("Ann"), Some("Lee"), Some("dup@z.com")],
                 [Some("Bob"), Some("Kay"), Some("dup@z.com")]];
    var rows := DataRecords(file);
    assert rows[..1] == [rows[0]] && rows[..1][..0] == [];
    var b0 := Start(StoreState(map[], []));
    var b1 := Step(b0, rows[0], isEmail);
    assert Run(b0, rows[..1], isEmail) == b1;
    assert MapRow(rows[0]) == Contact("Ann", "Lee", "dup@z.com", None);
    assert b1.results == Results(1, 0, []);
    assert "dup@z.com" in b1.store.contacts;
    assert MapRow(rows[1]) == Contact("Bob", "Kay", "dup@z.com", None);
  }

  // ----------------------------------------- failed inserts do not stop the loop

  /** The loop over `xs + ys` is the loop over `xs` followed by the loop over `ys`. */
  lemma {:induction false} RunAppend(b: Batch, xs: seq<Record>, ys: seq<Record>, isEmail: string -> bool)
    ensures Run(b, xs + ys, isEmail) == Run(Run(b, xs, isEmail), ys, isEmail)
    decreases |ys|
  {
    if ys == [] {
      assert xs + ys == xs;
    } else {
      var init, last := ys[..|ys| - 1], ys[|ys| - 1];
      assert ys == init + [last];
      assert xs + ys == (xs + init) + [last];
      RunAppend(b, xs, init, isEmail);
      RunSnoc(b, xs + init, last, isEmail);
      RunSnoc(Run(b, xs, isEmail), init, last, isEmail);
    }
  }

  /**
   * A valid row whose insert fails adds one error with its line and the
   * failure's reason, leaves `inserted` and the in-file list alone, and the
   * store keeps its contents.
   */
  lemma InsertionFailureRecorded(b: Batch, row: Record, reason: string, isEmail: string -> bool)
    requires ValidateRow(MapRow(row), b.line + 1, b.store.contacts.Keys, b.processed, isEmail).None?
    requires b.store.faults != [] && b.store.faults[0] == Some(reason)
    ensures Step(b, row, isEmail)
            == Batch(Results(b.results.inserted, b.results.skipped + 1,
                             b.results.errors + [RowError(b.line + 1, InsertionError(reason))]),
                     b.line + 1, b.processed, StoreState(b.store.contacts, b.store.faults[1..]))
  {
  }

  /**
   * Whatever happens at data record `k`, the import goes on to the records
   * after it: the whole run is the run up to and including `k`, continued
   * over the rest.
   */
  lemma ImportContinuesAfterRow(file: seq<Record>, store: StoreState, k: nat, isEmail: string -> bool)
    requires k < |DataRecords(file)|
    ensures var rows := DataRecords(file);
            ImportSpec(file, store, isEmail)
              == Run(Step(Run(Start(store), rows[..k], isEmail), rows[k], isEmail), rows[k + 1..], isEmail)
  {
    var rows := DataRecords(file);
    var before, after := rows[..k + 1], rows[k + 1..];
    assert rows == before + after;
    assert before == rows[..k] + [rows[k]];
    RunAppend(Start(store), before, after, isEmail);
    RunSnoc(Start(store), rows[..k], rows[k], isEmail);
  }

  // ------------------------------------------------------------ re-importing

  /** A store whose inserts never fail. */
  predicate NeverFails(faults: seq<Option<string>>) {
    forall i :: 0 <= i < |faults| ==> faults[i].None?
  }

  /** Rules 1 and 2. */
  predicate WellFormed(c: Contact, isEmail: string -> bool) {
    HasRequired(c) && isEmail(c.email)
  }

  /** Every well-formed row of `rows` has its email among `keys`. */
  predicate Covered(rows: seq<Record>, keys: set<string>, isEmail: string -> bool) {
    forall k :: 0 <= k < |rows| ==> WellFormed(MapRow(rows[k]), isEmail) ==> MapRow(rows[k]).email in keys
  }

  /** The message a row gets when its email, if well formed, is already stored. */
  function RejectionMessage(c: Contact, isEmail: string -> bool): (m: string)
    ensures m == MissingFields || m == InvalidEmail || m == EmailInStore
    ensures m == EmailInStore <==> WellFormed(c, isEmail)
  {
    if !HasRequired(c) then MissingFields
    else if !isEmail(c.email) then InvalidEmail
    else EmailInStore
  }

  /** An import never removes an email from the store, whatever the oracle says. */
  lemma {:induction false} RunKeysGrow(b: Batch, rows: seq<Record>, isEmail: string -> bool)
    ensures b.store.contacts.Keys <= Run(b, rows, isEmail).store.contacts.Keys
    decreases |rows|
  {
    if rows != [] {
      RunKeysGrow(b, rows[..|rows| - 1], isEmail);
      StepList(Run(b, rows[..|rows| - 1], isEmail), rows[|rows| - 1], isEmail);
    }
  }

  /** A store whose inserts never fail still never fails after a run. */
  lemma {:induction false} RunKeepsStore(b: Batch, rows: seq<Record>, isEmail: string -> bool)
    requires NeverFails(b.store.faults)
    ensures NeverFails(Run(b, rows, isEmail).store.faults)
    decreases |rows|
  {
    if rows != [] {
      RunKeepsStore(b, rows[..|rows| - 1], isEmail);
      StepList(Run(b, rows[..|rows| - 1], isEmail), rows[|rows| - 1], isEmail);
    }
  }

  /** Against a store that never fails, every well-formed row's email ends up stored. */
  lemma {:induction false} RunCoversRows(b: Batch, rows: seq<Record>, initial: set<string>, isEmail: string -> bool)
    requires NeverFails(b.store.faults)
    requires ListMatchesStore(b, initial, isEmail)
    ensures Covered(rows, Run(b, rows, isEmail).store.contacts.Keys, isEmail)
    decreases |rows|
  {
    if rows != [] {
      var init := rows[..|rows| - 1];
      var row := rows[|rows| - 1];
      RunCoversRows(b, init, initial, isEmail);
      RunKeepsStore(b, init, isEmail);
      RunKeepsList(b, init, initial, isEmail);
      var m := Run(b, init, isEmail);
      StepCoversRow(m, row, initial, isEmail);
      CoveredGrows(rows, m.store.contacts.Keys, Step(m, row, isEmail).store.contacts.Keys, isEmail);
    }
  }

  /** Against a store that never fails, one step keeps the stored emails and stores the row's, if well formed. */
  lemma StepCoversRow(m: Batch, row: Record, initial: set<string>, isEmail: string -> bool)
    requires NeverFails(m.store.faults)
    requires ListMatchesStore(m, initial, isEmail)
    ensures m.store.contacts.Keys <= Step(m, row, isEmail).store.contacts.Keys
    ensures WellFormed(MapRow(row), isEmail) ==> MapRow(row).email in Step(m, row, isEmail).store.contacts.Keys
  {
    StepList(m, row, isEmail);
    var data := MapRow(row);
    if WellFormed(data, isEmail) && data.email !in m.store.contacts.Keys {
      assert data.email !in m.processed;
      assert m.store.faults == [] || m.store.faults[0].None?;
    }
  }

  /** Covering all but the last record, with more keys and the last record covered, covers all. */
  lemma CoveredGrows(rows: seq<Record>, keys: set<string>, more: set<string>, isEmail: string -> bool)
    requires rows != [] && keys <= more
    requires Covered(rows[..|rows| - 1], keys, isEmail)
    requires WellFormed(MapRow(rows[|rows| - 1]), isEmail) ==> MapRow(rows[|rows| - 1]).email in more
    ensures Covered(rows, more, isEmail)
  {
    var init := rows[..|rows| - 1];
    forall k | 0 <= k < |init| ensures init[k] == rows[k] { }
  }

  /** Dropping the last record keeps the rest covered; the last one is covered on its own. */
  lemma CoveredParts(rows: seq<Record>, keys: set<string>, isEmail: string -> bool)
    requires rows != [] && Covered(rows, keys, isEmail)
    ensures Covered(rows[..|rows| - 1], keys, isEmail)
    ensures WellFormed(MapRow(rows[|rows| - 1]), isEmail) ==> MapRow(rows[|rows| - 1]).email in keys
  {
    var init := rows[..|rows| - 1];
    forall k | 0 <= k < |init| ensures init[k] == rows[k] { }
  }

  /** A row whose email, if well formed, is already stored is skipped with its rule message. */
  lemma StepRejectsCovered(m: Batch, row: Record, isEmail: string -> bool)
    requires WellFormed(MapRow(row), isEmail) ==> MapRow(row).email in m.store.contacts.Keys
    ensures Step(m, row, isEmail)
            == Batch(Results(m.results.inserted, m.results.skipped + 1,
                             m.results.errors + [RowError(m.line + 1, RejectionMessage(MapRow(row), isEmail))]),
                     m.line + 1, m.processed, m.store)
  {
  }

  /** The errors a run over `rows` reports when every row is rejected, the first at line `first`. */
  function Rejections(rows: seq<Record>, first: int, isEmail: string -> bool): (errors: seq<RowError>)
    decreases |rows|
  {
    if rows == [] then []
    else Rejections(rows[..|rows| - 1], first, isEmail)
           + [RowError(first + |rows| - 1, RejectionMessage(MapRow(rows[|rows| - 1]), isEmail))]
  }

  /** Rejection k is at line `first + k`, with the rule message of record k. */
  lemma {:induction false} RejectionsAt(rows: seq<Record>, first: int, k: nat, isEmail: string -> bool)
    requires k < |rows|
    ensures |Rejections(rows, first, isEmail)| == |rows|
    ensures Rejections(rows, first, isEmail)[k] == RowError(first + k, RejectionMessage(MapRow(rows[k]), isEmail))
    decreases |rows|
  {
    if k < |rows| - 1 {
      RejectionsAt(rows[..|rows| - 1], first, k, isEmail);
    } else if |rows| > 1 {
      RejectionsAt(rows[..|rows| - 1], first, 0, isEmail);
    }
  }

  /** The rejections are one per record, at lines `first`, `first + 1`, and so on. */
  lemma RejectionsAll(rows: seq<Record>, first: int, isEmail: string -> bool)
    ensures |Rejections(rows, first, isEmail)| == |rows|
    ensures forall k :: 0 <= k < |rows| ==>
              Rejections(rows, first, isEmail)[k] == RowError(first + k, RejectionMessage(MapRow(rows[k]), isEmail))
  {
    if rows != [] {
      RejectionsAt(rows, first, 0, isEmail);
    }
    forall k | 0 <= k < |rows|
      ensures Rejections(rows, first, isEmail)[k] == RowError(first + k, RejectionMessage(MapRow(rows[k]), isEmail))
    {
      RejectionsAt(rows, first, k, isEmail);
    }
  }

  /** Against a store that already holds every well-formed row's email, nothing is inserted and nothing changes. */
  lemma {:induction false} RunRejectsCovered(b: Batch, rows: seq<Record>, isEmail: string -> bool)
    requires Covered(rows, b.store.contacts.Keys, isEmail)
    ensures var r := Run(b, rows, isEmail);
            && r.store == b.store && r.processed == b.processed
            && r.results.inserted == b.results.inserted
            && r.results.errors == b.results.errors + Rejections(rows, b.line + 1, isEmail)
    decreases |rows|
  {
    if rows != [] {
      var init := rows[..|rows| - 1];
      var row := rows[|rows| - 1];
      CoveredParts(rows, b.store.contacts.Keys, isEmail);
      RunRejectsCovered(b, init, isEmail);
      StepRejectsCovered(Run(b, init, isEmail), row, isEmail);
    }
  }

  /**
   * Importing a file a second time, into the store its first import left
   * behind, inserts nothing: each record is skipped, the well-formed ones as
   * already in the store, with line k + 2 for data record k. A first import
   * with no failed insert is enough for this; after a failed insert the rerun
   * may insert that row.
   */
  lemma ReimportInsertsNothing(file: seq<Record>, store: StoreState, faults: seq<Option<string>>,
                               isEmail: string -> bool)
    requires NeverFails(store.faults)
    ensures var first := ImportSpec(file, store, isEmail);
            var second := ImportSpec(file, StoreState(first.store.contacts, faults), isEmail);
            && second.results.inserted == 0
            && second.results.skipped == |DataRecords(file)|
            && second.store.contacts == first.store.contacts
            && |second.results.errors| == |DataRecords(file)|
            && forall k :: 0 <= k < |second.results.errors| ==>
                 second.results.errors[k]
                   == RowError(k + 2, RejectionMessage(MapRow(DataRecords(file)[k]), isEmail))
  {
    var rows := DataRecords(file);
    var none: seq<string> := [];
    assert (set e | e in none) == {};
    RunCoversRows(Start(store), rows, store.contacts.Keys, isEmail);
    var first := ImportSpec(file, store, isEmail);
    var b := Start(StoreState(first.store.contacts, faults));
    RunRejectsCovered(b, rows, isEmail);
    RejectionsAll(rows, 2, isEmail);
  }
}
