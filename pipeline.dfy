/** The processing `main` does when "Process All Data" is pressed: split the input into
    blocks, extract and validate a record per block, keep the valid ones and number them. */
module Pipeline {
  import opened Text
  import opened Segmenter
  import opened Extractor
  import opened Validator

  /** An entry of `invalid_entries`: the 1-based position of the block, its record and what
      it lacks. */
  datatype InvalidEntry = InvalidEntry(index: nat, data: Record, missingFields: seq<Field>)

  /** A row of the table: the `Invoice` column put in front of a record. */
  datatype Row = Row(invoice: nat, data: Record)

  /** What pressing the button ends in. `found` is the number of entries reported. */
  datatype Outcome =
    | NoInput
    | NoValidData(found: nat, invalid: seq<InvalidEntry>)
    | Table(found: nat, rows: seq<Row>, invalid: seq<InvalidEntry>)

  /** The record of each block, in order. */
  function RecordsOf(blocks: seq<string>): (records: seq<Record>)
    ensures |records| == |blocks|
    ensures forall k :: 0 <= k < |blocks| ==> records[k] == CustomerRecord(blocks[k])
  {
    seq(|blocks|, k requires 0 <= k < |blocks| => CustomerRecord(blocks[k]))
  }

  /** `all_data` after the records `records`. */
  function Kept(records: seq<Record>): seq<Record> {
    if |records| == 0 then []
    else
      var data := records[|records| - 1];
      Kept(records[..|records| - 1]) + (if Defects(data) == [] then [data] else [])
  }

  /** The 0-based positions of the records `all_data` keeps, in the order it keeps them. */
  function KeptIndices(records: seq<Record>): seq<nat> {
    if |records| == 0 then []
    else
      var data := records[|records| - 1];
      KeptIndices(records[..|records| - 1]) + (if Defects(data) == [] then [|records| - 1] else [])
  }

  /** `invalid_entries` after the records `records`; `enumerate(..., 1)` numbers them from
      1. */
  function Rejected(records: seq<Record>): seq<InvalidEntry> {
    if |records| == 0 then []
    else
      var data := records[|records| - 1];
      Rejected(records[..|records| - 1])
        + (if Defects(data) != [] then [InvalidEntry(|records|, data, Defects(data))] else [])
  }

  /** `df.insert(0, 'Invoice', range(1, len(df) + 1))`: the invoices run 1, 2, ... in
      order. */
  function Invoices(records: seq<Record>): (rows: seq<Row>)
    ensures |rows| == |records|
    ensures forall k :: 0 <= k < |rows| ==> rows[k] == Row(k + 1, records[k])
  {
    if |records| == 0 then []
    else Invoices(records[..|records| - 1]) + [Row(|records|, records[|records| - 1])]
  }

  /** Lines 184-209 once the blocks' records are known: the number of entries found, the
      invalid entries, and the numbered table unless no record is valid. */
  function Summarize(records: seq<Record>): Outcome {
    var valid := Kept(records);
    if |valid| == 0 then NoValidData(|records|, Rejected(records))
    else Table(|records|, Invoices(valid), Rejected(records))
  }

  /** Lines 173-209, the file written out aside. */
  function InputOutcome(userInput: string): Outcome {
    if Strip(userInput) == "" then NoInput
    else Summarize(RecordsOf(CustomerBlocks(userInput)))
  }

  method PartitionBlocks(customerBlocks: seq<string>)
    returns (allData: seq<Record>, invalidEntries: seq<InvalidEntry>)
    ensures allData == Kept(RecordsOf(customerBlocks))
    ensures invalidEntries == Rejected(RecordsOf(customerBlocks))
  {
    allData := [];
    invalidEntries := [];
    ghost var records := RecordsOf(customerBlocks);
    for i := 0 to |customerBlocks|
      invariant allData == Kept(records[..i])
      invariant invalidEntries == Rejected(records[..i])
    {
      var data := ProcessCustomerBlock(customerBlocks[i]);
      var missingFields := ValidateData(data);
      assert data == records[i];
      KeptSnoc(records, i);
      if missingFields != [] {
        invalidEntries := invalidEntries + [InvalidEntry(i + 1, data, missingFields)];
      } else {
        allData := allData + [data];
      }
    }
    assert records[..|customerBlocks|] == records;
  }

  /** The lists after one more record. */
  lemma KeptSnoc(records: seq<Record>, i: nat)
    requires i < |records|
    ensures var data := records[i];
      && Kept(records[..i + 1]) == Kept(records[..i]) + (if Defects(data) == [] then [data] else [])
      && Rejected(records[..i + 1]) ==
        Rejected(records[..i]) + (if Defects(data) != [] then [InvalidEntry(i + 1, data, Defects(data))] else [])
  {
    assert records[..i + 1][..i] == records[..i];
  }

  method ProcessAllData(userInput: string) returns (outcome: Outcome)
    ensures outcome == InputOutcome(userInput)
  {
    if Strip(userInput) == "" {
      return NoInput;
    }
    var customerBlocks := ExtractCustomerBlocks(userInput);
    var allData, invalidEntries := PartitionBlocks(customerBlocks);
    if |allData| == 0 {
      return NoValidData(|customerBlocks|, invalidEntries);
    }
    outcome := Table(|customerBlocks|, Invoices(allData), invalidEntries);
    assert outcome == Summarize(RecordsOf(customerBlocks));
  }

  // ---------------------------------------------------------------------------
  // Properties of the partition
  // ---------------------------------------------------------------------------

  /** Every record ends up in exactly one of the two lists. */
  lemma {:induction false} PartitionCounts(records: seq<Record>)
    ensures |Kept(records)| + |Rejected(records)| == |records|
  {
    if |records| > 0 {
      PartitionCounts(records[..|records| - 1]);
    }
  }

  /** A record is kept exactly when it is accepted. */
  lemma {:induction false} KeptAccepted(records: seq<Record>)
    ensures forall r :: r in Kept(records) <==> r in records && Accepted(r)
  {
    if |records| > 0 {
      var init := records[..|records| - 1];
      var data := records[|records| - 1];
      KeptAccepted(init);
      NoDefectsIffAccepted(data);
      assert records == init + [data];
    }
  }

  /** The kept records are the accepted ones in input order: the `j`-th kept record is the
      record at the `j`-th position of `KeptIndices`, those positions increase, and they are
      exactly the positions of the accepted records. */
  lemma {:induction false} KeptInOrder(records: seq<Record>)
    ensures var idx := KeptIndices(records);
      && |idx| == |Kept(records)|
      && (forall j :: 0 <= j < |idx| ==> idx[j] < |records| && Kept(records)[j] == records[idx[j]])
      && (forall i, j :: 0 <= i < j < |idx| ==> idx[i] < idx[j])
      && (forall k :: 0 <= k < |records| ==> (k in idx <==> Accepted(records[k])))
  {
    if |records| > 0 {
      var n := |records|;
      var init := records[..n - 1];
      var data := records[n - 1];
      KeptInOrder(init);
      NoDefectsIffAccepted(data);
      var prev := KeptIndices(init);
      assert forall j :: 0 <= j < |prev| ==> init[prev[j]] == records[prev[j]];
      assert forall k :: 0 <= k < n - 1 ==> init[k] == records[k];
    }
  }

  /** Each invalid entry names its record by 1-based position, in increasing order, with its
      non-empty list of missing fields. */
  lemma {:induction false} RejectedShape(records: seq<Record>)
    ensures forall e :: e in Rejected(records) ==>
      && 1 <= e.index <= |records|
      && e.data == records[e.index - 1]
      && e.missingFields == Defects(e.data) && e.missingFields != []
    ensures forall i, j :: 0 <= i < j < |Rejected(records)| ==>
      Rejected(records)[i].index < Rejected(records)[j].index
  {
    if |records| > 0 {
      var init := records[..|records| - 1];
      RejectedShape(init);
      var prev := Rejected(init);
      assert forall i :: 0 <= i < |prev| ==> prev[i] in prev;
      forall e | e in prev ensures e.data == records[e.index - 1] {
        assert init[e.index - 1] == records[e.index - 1];
      }
    }
  }

  /** Record `k` (0-based) is reported as invalid exactly when it is not accepted. */
  lemma {:induction false} RejectedIffNotAccepted(records: seq<Record>, k: nat)
    requires k < |records|
    ensures (exists e :: e in Rejected(records) && e.index == k + 1) <==> !Accepted(records[k])
  {
    var init := records[..|records| - 1];
    var data := records[|records| - 1];
    NoDefectsIffAccepted(data);
    RejectedShape(init);
    if k < |init| {
      RejectedIffNotAccepted(init, k);
      assert init[k] == records[k];
    }
  }

  // ---------------------------------------------------------------------------
  // Properties of the whole run
  // ---------------------------------------------------------------------------

  /** Each block handed to the extractor reads back as the clean lines it was made of, so
      the extractor never meets a blank or unstripped line. */
  lemma BlocksReadBack(userInput: string)
    requires !IsBlank(userInput)
    ensures var blocks := CustomerBlocks(userInput);
      && |blocks| == |BlockLines(userInput)|
      && forall k :: 0 <= k < |blocks| ==> BlockTextLines(blocks[k]) == BlockLines(userInput)[k]
  {
    BlankInputHasNoBlocks(userInput);
    BlockShape(userInput);
  }

  /** Every record reported is either a row of the table or an invalid entry; "No valid
      data" comes exactly when every record is invalid; the table is numbered 1, 2, ... and
      its rows hold the accepted records in input order. */
  lemma SummaryCounts(records: seq<Record>)
    ensures Summarize(records).found == |records|
    ensures Summarize(records).NoValidData? ==> |Summarize(records).invalid| == |records|
    ensures Summarize(records).Table? ==> var o := Summarize(records);
      && |o.rows| + |o.invalid| == |records|
      && |o.rows| > 0
      && forall k :: 0 <= k < |o.rows| ==> o.rows[k].invoice == k + 1 && Accepted(o.rows[k].data)
    ensures Summarize(records).Table? ==> var o := Summarize(records);
      var idx := KeptIndices(records);
      && |idx| == |o.rows|
      && (forall k :: 0 <= k < |o.rows| ==> idx[k] < |records| && o.rows[k].data == records[idx[k]])
      && (forall i, j :: 0 <= i < j < |idx| ==> idx[i] < idx[j])
      && (forall k :: 0 <= k < |records| ==> (k in idx <==> Accepted(records[k])))
  {
    PartitionCounts(records);
    KeptAccepted(records);
    KeptInOrder(records);
    var valid := Kept(records);
    assert forall k :: 0 <= k < |valid| ==> valid[k] in valid;
  }

  /** The run stops with "No input provided." exactly for a blank input; otherwise it
      summarises one record per block, and reports one entry more than the number of later
      blocks that open with a name marker. */
  lemma OutcomeCounts(userInput: string)
    ensures InputOutcome(userInput).NoInput? <==> IsBlank(userInput)
    ensures !IsBlank(userInput) ==> var blocks := CustomerBlocks(userInput);
      && InputOutcome(userInput) == Summarize(RecordsOf(blocks))
      && InputOutcome(userInput).found == |blocks| == 1 + NewCustomerCount(CleanSegments(userInput))
  {
    StripFacts(userInput);
    if !IsBlank(userInput) {
      var records := RecordsOf(CustomerBlocks(userInput));
      SummaryCounts(records);
      CustomerCount(userInput);
    }
  }
}
