/**
 * The ordered row check (`validateRow`): required fields, then the email
 * format, then the store, then the emails inserted earlier from this file.
 * The first rule that fails decides the message; phone is never looked at.
 */
module RowValidator {
  import opened Prelude
  import opened RowDecoder

  const MissingFields: string := "Champs obligatoires manquants"
  const InvalidEmail: string := "Format email invalide"
  const EmailInStore: string := "Email déjà existant en base"
  const DuplicateInFile: string := "Doublon dans le fichier"

  /** The four messages, in the order the rules are tried. */
  const RuleMessages: seq<string> := [MissingFields, InvalidEmail, EmailInStore, DuplicateInFile]

  /** One entry of the error list: the CSV line (header is line 1) and the reason. */
  datatype RowError = RowError(line: int, message: string)

  /** PHP's `empty()` on a string: the empty string and "0" are both empty. */
  predicate Empty(s: string) {
    s == "" || s == "0"
  }

  /** Rule 1: first name, last name and email are all non-empty. */
  predicate HasRequired(c: Contact) {
    !Empty(c.firstName) && !Empty(c.lastName) && !Empty(c.email)
  }

  /**
   * Checks one decoded row. `storeEmails` are the emails already in the store,
   * `processed` the emails inserted earlier from this file, `isEmail` the
   * email-format test. Returns no error exactly when every rule passes.
   */
  function ValidateRow(data: Contact, line: int, storeEmails: set<string>, processed: seq<string>,
                       isEmail: string -> bool): (r: Option<RowError>)
    ensures r.Some? ==> r.value.line == line
    ensures r.Some? ==> r.value.message in {MissingFields, InvalidEmail, EmailInStore, DuplicateInFile}
    ensures r.None? <==> HasRequired(data) && isEmail(data.email)
                         && data.email !in storeEmails && data.email !in processed
  {
    if !HasRequired(data) then Some(RowError(line, MissingFields))
    else if !isEmail(data.email) then Some(RowError(line, InvalidEmail))
    else if data.email in storeEmails then Some(RowError(line, EmailInStore))
    else if data.email in processed then Some(RowError(line, DuplicateInFile))
    else None
  }

  /** The outcome of each rule on its own, in rule order (true = passes). */
  function Verdicts(data: Contact, storeEmails: set<string>, processed: seq<string>,
                    isEmail: string -> bool): (v: seq<bool>)
    ensures |v| == |RuleMessages|
  {
    [HasRequired(data), isEmail(data.email), data.email !in storeEmails, data.email !in processed]
  }

  /** The index of the first failing verdict, or |v| when all pass. */
  function FirstFailing(v: seq<bool>): (k: nat)
    ensures k <= |v|
    ensures forall j :: 0 <= j < k ==> v[j]
    ensures k < |v| ==> !v[k]
  {
    if v == [] || !v[0] then 0 else 1 + FirstFailing(v[1..])
  }

  /**
   * `validateRow` reports the message of the first rule that fails, taking every
   * rule on its own, and reports nothing when none fails.
   */
  lemma ValidateRowIsFirstFailure(data: Contact, line: int, storeEmails: set<string>,
                                  processed: seq<string>, isEmail: string -> bool)
    ensures var k := FirstFailing(Verdicts(data, storeEmails, processed, isEmail));
            ValidateRow(data, line, storeEmails, processed, isEmail)
              == if k == |RuleMessages| then None else Some(RowError(line, RuleMessages[k]))
  {
    var v := Verdicts(data, storeEmails, processed, isEmail);
    var k := FirstFailing(v);
    assert k <= 4;
    if k >= 1 { assert v[0]; }
    if k >= 2 { assert v[1]; }
    if k >= 3 { assert v[2]; }
    if k >= 4 { assert v[3]; }
  }

  /** The phone column never changes the verdict. */
  lemma ValidateRowIgnoresPhone(data: Contact, phone: Option<string>, line: int, storeEmails: set<string>,
                                processed: seq<string>, isEmail: string -> bool)
    ensures ValidateRow(data.(phone := phone), line, storeEmails, processed, isEmail)
            == ValidateRow(data, line, storeEmails, processed, isEmail)
  {
  }

  /** A first name of "0" counts as missing, whatever the other fields hold. */
  lemma ZeroFirstNameIsMissing(data: Contact, line: int, storeEmails: set<string>,
                               processed: seq<string>, isEmail: string -> bool)
    requires data.firstName == "0"
    ensures ValidateRow(data, line, storeEmails, processed, isEmail) == Some(RowError(line, MissingFields))
  {
  }

  /** An email the store already holds is reported as such once rules 1 and 2 pass. */
  lemma StoreDuplicateReported(data: Contact, line: int, storeEmails: set<string>,
                               processed: seq<string>, isEmail: string -> bool)
    requires HasRequired(data) && isEmail(data.email) && data.email in storeEmails
    ensures ValidateRow(data, line, storeEmails, processed, isEmail) == Some(RowError(line, EmailInStore))
  {
  }

  /**
   * The in-file rule can be the first to fail only for an email the store
   * does not hold: when every processed email is in the store, it never is.
   */
  lemma InFileRuleNeedsEmailOutsideStore(data: Contact, line: int, storeEmails: set<string>,
                                         processed: seq<string>, isEmail: string -> bool)
    requires forall e :: e in processed ==> e in storeEmails
    ensures ValidateRow(data, line, storeEmails, processed, isEmail) != Some(RowError(line, DuplicateInFile))
  {
  }
}
