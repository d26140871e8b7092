/**
 * The results table: one shared spreadsheet file of `{SR, timestamp}` rows.
 *
 * A scan reads the whole table, appends one row in memory and writes the
 * result back through a temporary file and an atomic rename, so the file is
 * replaced in one step; here that is one assignment of the new sequence.
 * A file that exists but cannot be read is treated as if it were absent.
 */
module Ledger {
  import opened Wrappers

  /** One row of the table: the selected code and the UTC ISO-8601 time of the scan. */
  datatype Record = Record(sr: string, timestamp: string)

  /** Reply of the count query. */
  datatype CountReply =
    | Counted(rows: nat)     // the file was read: its number of rows
    | NoFile                 // the file does not exist
    | ReadFailed             // the file exists but reading it failed
  {
    /** The "count" field of the reply. */
    function Count(): nat {
      if Counted? then rows else 0
    }
  }

  /** Reply of the download request. */
  datatype DownloadReply =
    | Attachment(table: Option<seq<Record>>)   // the file, sent as it is (its rows, when it can be read)
    | NoResults                                // 404: no results file
  {
    function Status(): nat {
      if Attachment? then 200 else 404
    }
  }

  /** The table after a scan appends `row` to what reading the file gave. */
  function Updated(existing: Option<seq<Record>>, row: Record): (updated: seq<Record>)
    ensures existing.Some? ==> |updated| == |existing.value| + 1
    ensures existing.Some? ==> updated[..|existing.value|] == existing.value
    ensures existing.None? ==> |updated| == 1
    ensures updated[|updated| - 1] == row
  {
    match existing
    case Some(rows) => rows + [row]
    case None => [row]
  }

  /** Appending k rows, one per scan, to a readable table keeps it as a prefix and adds them in order. */
  lemma {:induction false} UpdatesKeepOrder(rows: seq<Record>, added: seq<Record>)
    ensures AppendAll(rows, added) == rows + added
    decreases |added|
  {
    if added != [] {
      UpdatesKeepOrder(Updated(Some(rows), added[0]), added[1..]);
      assert rows + [added[0]] + added[1..] == rows + added;
    }
  }

  /** The table after one scan per element of `added`, in order, starting from a readable table. */
  function AppendAll(rows: seq<Record>, added: seq<Record>): seq<Record>
    decreases |added|
  {
    if added == [] then rows else AppendAll(Updated(Some(rows), added[0]), added[1..])
  }

  class ResultsFile {
    /** The file exists. */
    var present: bool
    /** Reading the file succeeds. */
    var readable: bool
    /** What reading the file yields, when it succeeds. */
    var rows: seq<Record>

    ghost predicate Valid()
      reads this
    {
      (readable ==> present) && (!readable ==> rows == [])
    }

    /** What the try-read of the file gives: its rows, or nothing when it is missing or unreadable. */
    function Existing(): Option<seq<Record>>
      reads this
    {
      if readable then Some(rows) else None
    }

    constructor (present: bool, readable: bool, rows: seq<Record>)
      requires readable ==> present
      requires !readable ==> rows == []
      ensures Valid()
      ensures this.present == present && this.readable == readable && this.rows == rows
    {
      this.present := present;
      this.readable := readable;
      this.rows := rows;
    }

    /**
     * Read the table (missing or unreadable counts as no table), append the
     * row, replace the file atomically, and return the new number of rows.
     */
    method Append(row: Record) returns (count: nat)
      requires Valid()
      modifies this
      ensures Valid() && present && readable
      ensures rows == Updated(old(Existing()), row)
      ensures count == |rows|
      ensures old(readable) ==> count == old(CountQuery().Count()) + 1
      ensures !old(readable) ==> count == 1
      ensures CountQuery() == Counted(count)
    {
      var updated := Updated(Existing(), row);
      rows, present, readable := updated, true, true;
      count := |updated|;
    }

    /** The row count query: read the file if it exists; 0 when it is missing or unreadable. */
    function CountQuery(): (reply: CountReply)
      reads this
      requires Valid()
      ensures reply.Count() == |rows|
      ensures reply.NoFile? <==> !present
      ensures reply.ReadFailed? <==> present && !readable
      ensures reply.Counted? <==> readable
    {
      if !present then NoFile
      else if !readable then ReadFailed
      else Counted(|rows|)
    }

    /** The download request: the file when it exists, otherwise a not-found reply. */
    function Download(): (reply: DownloadReply)
      reads this
      requires Valid()
      ensures reply.NoResults? <==> !present
      ensures reply.Attachment? ==> reply.table == Existing()
      ensures reply.Status() == (if present then 200 else 404)
    {
      if present then Attachment(Existing()) else NoResults
    }
  }
}
