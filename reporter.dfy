/**
 * The sink for flagged accounts. Where the repository appends a row to a CSV
 * or JSON file with a timestamp and a profile link, this model keeps the
 * records themselves, in the order they were logged.
 */
module Reporting {

  /** One flagged account: who, which terms matched, and the start of the description. */
  datatype Report = Report(username: string, userId: nat, terms: seq<string>, snippet: string)

  class Reporter {
    /** Every record logged so far, oldest first; records are only ever appended. */
    var log: seq<Report>

    constructor ()
      ensures log == []
    {
      log := [];
    }

    /** Records one flagged account after all earlier records. */
    method LogFlaggedAccount(username: string, userId: nat, terms: seq<string>, snippet: string)
      modifies this
      ensures log == old(log) + [Report(username, userId, terms, snippet)]
    {
      log := log + [Report(username, userId, terms, snippet)];
    }
  }
}
