/**
 * The positional decoding of one CSV record into a contact (`mapRow`).
 * Columns: 0 first name, 1 last name, 2 email, 3 phone; the rest is ignored.
 */
module RowDecoder {
  import opened Prelude

  /**
   * One record as the CSV reader hands it over: its fields in order.
   * A blank line is read as a record holding a single null field.
   */
  type Record = seq<Option<string>>

  /** The four fields the service keeps of a record. */
  datatype Contact = Contact(firstName: string, lastName: string, email: string, phone: Option<string>)

  /** Whether position `i` of `row` exists and is not null (what `??` tests). */
  predicate Present(row: Record, i: nat) {
    i < |row| && row[i].Some?
  }

  /** `$row[i] ?? default`. */
  function FieldOr(row: Record, i: nat, default: string): (field: string) {
    if Present(row, i) then row[i].value else default
  }

  /**
   * Maps a record onto a contact. The three required columns default to the
   * empty string, the phone to null; columns past the fourth are dropped.
   * It is total: a short or blank record still yields a contact.
   */
  function MapRow(row: Record): (c: Contact)
  {
    Contact(FieldOr(row, 0, ""), FieldOr(row, 1, ""), FieldOr(row, 2, ""),
            if Present(row, 3) then Some(row[3].value) else None)
  }

  /** Each field comes from its position when present and not null, and takes its default otherwise. */
  lemma MapRowPositions(row: Record)
    ensures var c := MapRow(row);
            && (Present(row, 0) ==> c.firstName == row[0].value)
            && (Present(row, 1) ==> c.lastName == row[1].value)
            && (Present(row, 2) ==> c.email == row[2].value)
            && (!Present(row, 0) ==> c.firstName == "")
            && (!Present(row, 1) ==> c.lastName == "")
            && (!Present(row, 2) ==> c.email == "")
            && (c.phone.Some? <==> Present(row, 3))
            && (c.phone.Some? ==> c.phone.value == row[3].value)
  {
  }

  /** The record a CSV writer would emit for `c`: three columns, plus the phone when there is one. */
  function ToRecord(c: Contact): (row: Record)
    ensures 3 <= |row| <= 4
  {
    [Some(c.firstName), Some(c.lastName), Some(c.email)]
      + (if c.phone.Some? then [c.phone] else [])
  }

  /** Decoding undoes encoding: every contact survives the trip through a record. */
  lemma MapRowToRecord(c: Contact)
    ensures MapRow(ToRecord(c)) == c
  {
  }

  /** Columns after the fourth never influence the decoded contact. */
  lemma MapRowIgnoresExtra(row: Record, extra: Record)
    requires 4 <= |row|
    ensures MapRow(row + extra) == MapRow(row)
  {
    assert forall i :: 0 <= i < 4 ==> (row + extra)[i] == row[i];
  }

  /** A null field and a missing field decode alike. */
  lemma MapRowNullIsAbsent(row: Record)
    ensures MapRow(row + [None]) == MapRow(row)
  {
    assert forall i :: 0 <= i < |row| ==> (row + [None])[i] == row[i];
  }

  /** A blank line decodes to three empty required fields and no phone. */
  lemma MapRowBlankLine()
    ensures MapRow([None]) == Contact("", "", "", None)
  {
  }
}
