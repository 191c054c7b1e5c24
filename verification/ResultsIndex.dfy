/**
 The results-by-transaction index: grouping a batch of smart contract results and receipts by
 transaction, merging it with what the storer holds, and what that means over runs of batches.

 A Go map comes as the sequence of its entries in the order the runtime iterates over it, so
 every statement holds for every iteration order. The storer holds encoded records.
 */
module ResultsIndex {
  import opened Machine
  import opened Chain
  import opened ResultsCodec
  import opened Sequences

  datatype Handler = ScResult(originalTxHash: Hash) | Receipt(txHash: Hash) | OtherTransaction
  datatype Entry = Entry(hash: Hash, handler: Handler)
  datatype Batch = Batch(epoch: uint32, scResults: seq<Entry>, receipts: seq<Entry>)

  /** The keys of a map are distinct. */
  ghost predicate DistinctHashes(entries: seq<Entry>) {
    forall i, j :: 0 <= i < j < |entries| ==> entries[i].hash != entries[j].hash
  }

  // ---------- grouping ----------

  /** The hashes of the results of tx, in iteration order. */
  function HashesFor(entries: seq<Entry>, tx: Hash): seq<Hash> {
    if entries == [] then []
    else
      var front, e := HashesFor(entries[..|entries| - 1], tx), entries[|entries| - 1];
      if e.handler == ScResult(tx) then front + [e.hash] else front
  }

  /** The receipt of tx that is visited last. */
  function ReceiptFor(entries: seq<Entry>, tx: Hash): Option<Hash> {
    if entries == [] then None
    else
      var e := entries[|entries| - 1];
      if e.handler == Receipt(tx) then Some(e.hash) else ReceiptFor(entries[..|entries| - 1], tx)
  }

  function OriginalTxs(entries: seq<Entry>): set<Hash> {
    if entries == [] then {}
    else
      var e := entries[|entries| - 1];
      OriginalTxs(entries[..|entries| - 1]) + (if e.handler.ScResult? then {e.handler.originalTxHash} else {})
  }

  function ReceiptTxs(entries: seq<Entry>): set<Hash> {
    if entries == [] then {}
    else
      var e := entries[|entries| - 1];
      ReceiptTxs(entries[..|entries| - 1]) + (if e.handler.Receipt? then {e.handler.txHash} else {})
  }

  function Grouped(epoch: uint32, scResults: seq<Entry>): map<Hash, Results> {
    map tx | tx in OriginalTxs(scResults) :: Results([], [Group(epoch, HashesFor(scResults, tx))])
  }

  /** A receipt replaces the results that the same batch holds for its transaction. */
  function Outcomes(b: Batch): map<Hash, Results> {
    map tx | tx in OriginalTxs(b.scResults) + ReceiptTxs(b.receipts) ::
      match ReceiptFor(b.receipts, tx)
      case Some(receipt) => Results(receipt, [])
      case None => Results([], [Group(b.epoch, HashesFor(b.scResults, tx))])
  }

  lemma {:induction false} HashesForMembers(entries: seq<Entry>, tx: Hash)
    ensures forall h :: h in HashesFor(entries, tx) <==> Entry(h, ScResult(tx)) in entries
    ensures HashesFor(entries, tx) != [] <==> tx in OriginalTxs(entries)
  {
    if entries != [] {
      var front, e := entries[..|entries| - 1], entries[|entries| - 1];
      HashesForMembers(front, tx);
      assert entries == front + [e];
    }
  }

  lemma {:induction false} HashesForDistinct(entries: seq<Entry>, tx: Hash)
    requires DistinctHashes(entries)
    ensures forall i, j :: 0 <= i < j < |HashesFor(entries, tx)| ==> HashesFor(entries, tx)[i] != HashesFor(entries, tx)[j]
  {
    if entries != [] {
      HashesForDistinct(entries[..|entries| - 1], tx);
      HashesForMembers(entries[..|entries| - 1], tx);
    }
  }

  /** The hashes that Grouped files under tx. */
  function GroupOf(epoch: uint32, scResults: seq<Entry>, tx: Hash): seq<Hash> {
    if tx in Grouped(epoch, scResults) && Grouped(epoch, scResults)[tx].groups != []
    then Grouped(epoch, scResults)[tx].groups[0].hashes else []
  }

  /**
   Grouping is a partition: each result hash stands at exactly one place of exactly one group,
   that of its original transaction; groups hold nothing else, and none is empty.
   */
  lemma GroupingIsPartition(epoch: uint32, scResults: seq<Entry>, tx: Hash, h: Hash)
    requires DistinctHashes(scResults)
    ensures h in GroupOf(epoch, scResults, tx) <==> Entry(h, ScResult(tx)) in scResults
    ensures forall other :: other != tx && h in GroupOf(epoch, scResults, tx) ==> h !in GroupOf(epoch, scResults, other)
    ensures forall i, j :: 0 <= i < j < |GroupOf(epoch, scResults, tx)| ==>
              GroupOf(epoch, scResults, tx)[i] != GroupOf(epoch, scResults, tx)[j]
    ensures tx in Grouped(epoch, scResults) ==>
              && GroupOf(epoch, scResults, tx) != []
              && Grouped(epoch, scResults)[tx] == Results([], [Group(epoch, GroupOf(epoch, scResults, tx))])
  {
    HashesForMembers(scResults, tx);
    HashesForDistinct(scResults, tx);
    forall other | other != tx && h in GroupOf(epoch, scResults, tx)
      ensures h !in GroupOf(epoch, scResults, other)
    {
      HashesForMembers(scResults, other);
    }
  }

  lemma {:induction false} HashesForCounts(entries: seq<Entry>, tx: Hash, h: Hash)
    ensures multiset(HashesFor(entries, tx))[h] == multiset(entries)[Entry(h, ScResult(tx))]
  {
    if entries != [] {
      var front, e := entries[..|entries| - 1], entries[|entries| - 1];
      HashesForCounts(front, tx, h);
      assert entries == front + [e];
    }
  }

  /** The iteration order changes at most the order within a group. */
  lemma GroupingIgnoresOrder(entries: seq<Entry>, entries': seq<Entry>, tx: Hash)
    requires multiset(entries) == multiset(entries')
    ensures multiset(HashesFor(entries, tx)) == multiset(HashesFor(entries', tx))
  {
    forall h: Hash
      ensures multiset(HashesFor(entries, tx))[h] == multiset(HashesFor(entries', tx))[h]
    {
      HashesForCounts(entries, tx, h);
      HashesForCounts(entries', tx, h);
    }
  }

  /** Hashes come in iteration order, and of the receipts the one visited last counts. */
  lemma {:induction false} IterationOrder(a: seq<Entry>, b: seq<Entry>, tx: Hash)
    ensures HashesFor(a + b, tx) == HashesFor(a, tx) + HashesFor(b, tx)
    ensures ReceiptFor(a + b, tx) == if ReceiptFor(b, tx).Some? then ReceiptFor(b, tx) else ReceiptFor(a, tx)
    decreases |b|
  {
    if b == [] {
      assert a + b == a;
    } else {
      var front, last := b[..|b| - 1], b[|b| - 1];
      IterationOrder(a, front, tx);
      assert (a + b)[..|a + b| - 1] == a + front && (a + b)[|a + b| - 1] == last;
    }
  }

  lemma OneEntry(e: Entry, tx: Hash)
    ensures HashesFor([e], tx) == if e.handler == ScResult(tx) then [e.hash] else []
    ensures ReceiptFor([e], tx) == if e.handler == Receipt(tx) then Some(e.hash) else None
    ensures HashesFor([], tx) == [] && ReceiptFor([], tx) == None
  {
    assert [e][..0] == [];
  }

  // ---------- merging and storing ----------

  type Store = map<Hash, seq<byte>>

  /** What the storer shows for tx. */
  function Stored(store: Store, tx: Hash): Option<Results> {
    if tx !in store then None
    else match DecodeResults(EMPTY_RESULTS, store[tx]) case Ok(m) => Some(m) case Err(_) => None
  }

  /** Stored groups come first; the stored receipt is not taken over. */
  function MergeRecord(store: Store, tx: Hash, results: Results): Results {
    match Stored(store, tx)
    case Some(record) => results.(groups := record.groups + results.groups)
    case None => results
  }

  function Merged(store: Store, records: map<Hash, Results>): map<Hash, Results> {
    map tx | tx in records :: MergeRecord(store, tx, records[tx])
  }

  function PutSome(store: Store, records: map<Hash, Results>, keys: set<Hash>): Store {
    store + map tx | tx in records && tx in keys :: EncodeResults(records[tx])
  }

  function PutAll(store: Store, records: map<Hash, Results>): Store {
    PutSome(store, records, records.Keys)
  }

  function Save(store: Store, b: Batch): Store {
    PutAll(store, Merged(store, Outcomes(b)))
  }

  class EventsHashesByTxHash {
    var storer: Store

    constructor ()
      ensures storer == map[]
    {
      storer := map[];
    }

    method SaveResultsHashes(epoch: uint32, scResults: seq<Entry>, receipts: seq<Entry>)
      modifies this
      ensures storer == Save(old(storer), Batch(epoch, scResults, receipts))
    {
      var resultsHashes := GroupTransactionOutcomesByTransactionHash(epoch, scResults, receipts);
      var results := MergeRecordsFromStorageIfExists(resultsHashes);
      PutRecords(results);
    }

    /** The storing loop, in any order. */
    method PutRecords(results: map<Hash, Results>)
      modifies this
      ensures storer == PutAll(old(storer), results)
    {
      var keys := results.Keys;
      assert storer == PutSome(storer, results, results.Keys - keys);
      while keys != {}
        invariant keys <= results.Keys
        invariant storer == PutSome(old(storer), results, results.Keys - keys)
        decreases keys
      {
        var txHash :| txHash in keys;
        PutOneMore(old(storer), results, results.Keys - keys, txHash);
        assert results.Keys - (keys - {txHash}) == (results.Keys - keys) + {txHash};
        hide PutSome, EncodeResults;
        storer := storer[txHash := EncodeResults(results[txHash])];
        keys := keys - {txHash};
      }
      assert results.Keys - {} == results.Keys;
    }

    method GroupTransactionOutcomesByTransactionHash(epoch: uint32, scResults: seq<Entry>, receipts: seq<Entry>)
        returns (resultsHashesMap: map<Hash, Results>)
      ensures resultsHashesMap == Outcomes(Batch(epoch, scResults, receipts))
    {
      resultsHashesMap := GroupSmartContractResults(epoch, scResults);
      var i := 0;
      OutcomesWithoutReceipts(epoch, scResults);
      while i < |receipts|
        invariant i <= |receipts|
        invariant resultsHashesMap == Outcomes(Batch(epoch, scResults, receipts[..i]))
      {
        OutcomesOneMore(epoch, scResults, receipts[..i], receipts[i]);
        assert receipts[..i + 1] == receipts[..i] + [receipts[i]];
        match receipts[i].handler {
          case Receipt(originalTxHash) =>
            resultsHashesMap := resultsHashesMap[originalTxHash := Results(receipts[i].hash, [])];
          case _ =>
        }
        i := i + 1;
      }
      assert receipts[..i] == receipts;
    }

    method GroupSmartContractResults(epoch: uint32, scrResults: seq<Entry>) returns (resultsHashesMap: map<Hash, Results>)
      ensures resultsHashesMap == Grouped(epoch, scrResults)
    {
      resultsHashesMap := map[];
      var i := 0;
      while i < |scrResults|
        invariant i <= |scrResults|
        invariant resultsHashesMap == Grouped(epoch, scrResults[..i])
      {
        GroupedOneMore(epoch, scrResults[..i], scrResults[i]);
        assert scrResults[..i + 1] == scrResults[..i] + [scrResults[i]];
        match scrResults[i].handler {
          case ScResult(originalTxHash) =>
            if originalTxHash !in resultsHashesMap {
              resultsHashesMap := resultsHashesMap[originalTxHash := Results([], [Group(epoch, [])])];
            }
            var group := resultsHashesMap[originalTxHash].groups[0];
            var extended := group.(hashes := group.hashes + [scrResults[i].hash]);
            resultsHashesMap := resultsHashesMap[originalTxHash := Results([], [extended])];
          case _ =>
        }
        i := i + 1;
      }
      assert scrResults[..i] == scrResults;
    }

    /** Updates the records in place, in any order. */
    method MergeRecordsFromStorageIfExists(records: map<Hash, Results>) returns (results: map<Hash, Results>)
      ensures results == Merged(storer, records)
    {
      results := records;
      var keys := records.Keys;
      while keys != {}
        invariant keys <= records.Keys == results.Keys
        invariant forall tx :: tx in records ==>
                    results[tx] == if tx in keys then records[tx] else MergeRecord(storer, tx, records[tx])
        decreases keys
      {
        var originalTxHash :| originalTxHash in keys;
        keys := keys - {originalTxHash};
        if originalTxHash !in storer {
          continue;
        }
        match DecodeResults(EMPTY_RESULTS, storer[originalTxHash]) {
          case Err(_) => continue;
          case Ok(record) =>
            var merged := results[originalTxHash].(groups := record.groups + results[originalTxHash].groups);
            results := results[originalTxHash := merged];
        }
      }
    }
  }

  lemma PutOneMore(store: Store, records: map<Hash, Results>, keys: set<Hash>, tx: Hash)
    requires tx in records
    ensures PutSome(store, records, keys + {tx}) == PutSome(store, records, keys)[tx := EncodeResults(records[tx])]
  {
    hide EncodeResults;
  }

  lemma OutcomesWithoutReceipts(epoch: uint32, scResults: seq<Entry>)
    ensures Outcomes(Batch(epoch, scResults, [])) == Grouped(epoch, scResults)
  {
  }

  lemma OutcomesOneMore(epoch: uint32, scResults: seq<Entry>, receipts: seq<Entry>, e: Entry)
    ensures Outcomes(Batch(epoch, scResults, receipts + [e])) ==
            if e.handler.Receipt? then Outcomes(Batch(epoch, scResults, receipts))[e.handler.txHash := Results(e.hash, [])]
            else Outcomes(Batch(epoch, scResults, receipts))
  {
    assert (receipts + [e])[..|receipts + [e]| - 1] == receipts;
  }

  lemma GroupedOneMore(epoch: uint32, scResults: seq<Entry>, e: Entry)
    ensures Grouped(epoch, scResults + [e]) ==
            if e.handler.ScResult?
            then Grouped(epoch, scResults)[e.handler.originalTxHash :=
                   Results([], [Group(epoch, HashesFor(scResults, e.handler.originalTxHash) + [e.hash])])]
            else Grouped(epoch, scResults)
    ensures e.handler.ScResult? && e.handler.originalTxHash !in Grouped(epoch, scResults) ==>
              HashesFor(scResults, e.handler.originalTxHash) == []
  {
    assert (scResults + [e])[..|scResults + [e]| - 1] == scResults;
    if e.handler.ScResult? {
      HashesForMembers(scResults, e.handler.originalTxHash);
    }
  }

  // ---------- runs of batches ----------

  function Run(batches: seq<Batch>): Store {
    if batches == [] then map[] else Save(Run(batches[..|batches| - 1]), batches[|batches| - 1])
  }

  predicate Touches(b: Batch, tx: Hash) {
    HashesFor(b.scResults, tx) != [] || ReceiptFor(b.receipts, tx).Some?
  }

  /** What a batch adds for tx: its results, unless the batch holds a receipt for tx. */
  function Contribution(b: Batch, tx: Hash): seq<Group> {
    if HashesFor(b.scResults, tx) == [] || ReceiptFor(b.receipts, tx).Some? then []
    else [Group(b.epoch, HashesFor(b.scResults, tx))]
  }

  function Contributions(batches: seq<Batch>, tx: Hash): seq<Group> {
    if batches == [] then [] else Contributions(batches[..|batches| - 1], tx) + Contribution(batches[|batches| - 1], tx)
  }

  /** The record that a run leaves for tx: all contributions, and the receipt of the last batch that touches tx. */
  function Expected(batches: seq<Batch>, tx: Hash): Option<Results> {
    if batches == [] then None
    else
      var front, b := batches[..|batches| - 1], batches[|batches| - 1];
      if !Touches(b, tx) then Expected(front, tx)
      else
        var receipt := if ReceiptFor(b.receipts, tx).Some? then ReceiptFor(b.receipts, tx).value else [];
        Some(Results(receipt, Contributions(batches, tx)))
  }

  /** Every record written during the run fits into memory. */
  ghost predicate Fits(batches: seq<Batch>, tx: Hash) {
    forall k :: 0 <= k <= |batches| && Expected(batches[..k], tx).Some? ==>
      |EncodeResults(Expected(batches[..k], tx).value)| <= MAX_INT
  }

  lemma {:induction false} ReceiptForMembers(entries: seq<Entry>, tx: Hash)
    ensures ReceiptFor(entries, tx).Some? <==> tx in ReceiptTxs(entries)
  {
    if entries != [] {
      ReceiptForMembers(entries[..|entries| - 1], tx);
    }
  }

  /** What one save does for tx. */
  lemma SaveAt(store: Store, b: Batch, tx: Hash)
    ensures !Touches(b, tx) ==> (tx in Save(store, b) <==> tx in store) && (tx in store ==> Save(store, b)[tx] == store[tx])
    ensures Touches(b, tx) ==>
              var receipt := if ReceiptFor(b.receipts, tx).Some? then ReceiptFor(b.receipts, tx).value else [];
              && tx in Save(store, b)
              && Save(store, b)[tx] == EncodeResults(MergeRecord(store, tx, Results(receipt, Contribution(b, tx))))
  {
    HashesForMembers(b.scResults, tx);
    ReceiptForMembers(b.receipts, tx);
    hide HashesFor, ReceiptFor, OriginalTxs, ReceiptTxs, EncodeResults, MergeRecord;
  }

  lemma {:induction false} ReceiptForIsEntry(entries: seq<Entry>, tx: Hash)
    ensures ReceiptFor(entries, tx).Some? ==> Entry(ReceiptFor(entries, tx).value, Receipt(tx)) in entries
    ensures ReceiptFor(entries, tx) == None ==> forall h :: Entry(h, Receipt(tx)) !in entries
  {
    if entries != [] {
      var front, e := entries[..|entries| - 1], entries[|entries| - 1];
      ReceiptForIsEntry(front, tx);
      assert entries == front + [e];
    }
  }

  function StoredGroups(store: Store, tx: Hash): seq<Group> {
    match Stored(store, tx)
    case Some(record) => record.groups
    case None => []
  }

  /**
   One save, by the entries of the batch. No result and no receipt of tx: its bytes stay. A receipt
   of tx: the stored groups stay, and the receipt is one of the batch. Results of tx and no receipt:
   one group with exactly these results is added behind the stored ones, and there is no receipt.
   */
  lemma SaveByEntries(store: Store, b: Batch, tx: Hash)
    requires tx in Save(store, b) ==> |Save(store, b)[tx]| <= MAX_INT
    ensures (forall h :: Entry(h, ScResult(tx)) !in b.scResults && Entry(h, Receipt(tx)) !in b.receipts) ==>
              (tx in Save(store, b) <==> tx in store) && (tx in store ==> Save(store, b)[tx] == store[tx])
    ensures (exists h :: Entry(h, Receipt(tx)) in b.receipts) ==>
              && Stored(Save(store, b), tx).Some?
              && Stored(Save(store, b), tx).value.groups == StoredGroups(store, tx)
              && Entry(Stored(Save(store, b), tx).value.receiptsHash, Receipt(tx)) in b.receipts
    ensures (forall h :: Entry(h, Receipt(tx)) !in b.receipts) && (exists h :: Entry(h, ScResult(tx)) in b.scResults) ==>
              && Stored(Save(store, b), tx).Some?
              && var stored, before := Stored(Save(store, b), tx).value, StoredGroups(store, tx);
              && stored.receiptsHash == [] && |stored.groups| == |before| + 1
              && stored.groups[..|before|] == before && stored.groups[|before|].epoch == b.epoch
              && forall h :: h in stored.groups[|before|].hashes <==> Entry(h, ScResult(tx)) in b.scResults
  {
    SaveAt(store, b, tx);
    HashesForMembers(b.scResults, tx);
    ReceiptForIsEntry(b.receipts, tx);
    hide Save, EncodeResults, DecodeResults, HashesFor, ReceiptFor, OriginalTxs;
    if Touches(b, tx) {
      var receipt := if ReceiptFor(b.receipts, tx).Some? then ReceiptFor(b.receipts, tx).value else [];
      var merged := MergeRecord(store, tx, Results(receipt, Contribution(b, tx)));
      ResultsRoundTrip(merged);
      assert Stored(Save(store, b), tx) == Some(merged);
      assert merged.groups == StoredGroups(store, tx) + Contribution(b, tx);
      assert merged.receiptsHash == receipt;
      hide Stored, MergeRecord, StoredGroups;
      if ReceiptFor(b.receipts, tx).Some? {
        assert merged.groups == StoredGroups(store, tx);
      } else {
        assert HashesFor(b.scResults, tx)[0] in HashesFor(b.scResults, tx);
        var added, before := Group(b.epoch, HashesFor(b.scResults, tx)), StoredGroups(store, tx);
        assert merged.groups == before + [added];
        assert merged.groups[|before|] == added && merged.groups[..|before|] == before;
      }
    }
  }

  lemma {:induction false} ExpectedGroups(batches: seq<Batch>, tx: Hash)
    ensures Expected(batches, tx).Some? ==> Expected(batches, tx).value.groups == Contributions(batches, tx)
    ensures Expected(batches, tx).None? ==> Contributions(batches, tx) == []
  {
    if batches != [] {
      ExpectedGroups(batches[..|batches| - 1], tx);
    }
  }

  /** The index over runs: the storer shows exactly the expected record. */
  lemma {:induction false} StoredIsExpected(batches: seq<Batch>, tx: Hash)
    requires Fits(batches, tx)
    ensures Stored(Run(batches), tx) == Expected(batches, tx)
    ensures tx in Run(batches) <==> Expected(batches, tx).Some?
  {
    if batches != [] {
      var front, b := batches[..|batches| - 1], batches[|batches| - 1];
      FitsFront(batches, tx);
      StoredIsExpected(front, tx);
      ExpectedGroups(front, tx);
      SaveAt(Run(front), b, tx);
      hide Save, EncodeResults, DecodeResults, HashesFor, ReceiptFor;
      if Touches(b, tx) {
        LeftUnit(Contribution(b, tx));
        ResultsRoundTrip(Expected(batches, tx).value);
      }
    }
  }

  lemma FitsFront(batches: seq<Batch>, tx: Hash)
    requires batches != [] && Fits(batches, tx)
    ensures Fits(batches[..|batches| - 1], tx)
    ensures Expected(batches, tx).Some? ==> |EncodeResults(Expected(batches, tx).value)| <= MAX_INT
  {
    var front := batches[..|batches| - 1];
    forall k | 0 <= k <= |front|
      ensures front[..k] == batches[..k]
    {
    }
    assert batches[..|batches|] == batches;
  }

  lemma {:induction false} ContributionsGrow(batches: seq<Batch>, k: nat, tx: Hash)
    requires k <= |batches|
    ensures Contributions(batches[..k], tx) <= Contributions(batches, tx)
  {
    if k < |batches| {
      ContributionsGrow(batches[..|batches| - 1], k, tx);
      assert batches[..|batches| - 1][..k] == batches[..k];
    } else {
      assert batches[..k] == batches;
    }
  }

  /**
   Append-only results: the stored list of groups of a transaction is the concatenation, in
   order, of the groups of the batches with results and no receipt for it, and any earlier list
   is a prefix of it.
   */
  lemma AppendOnly(batches: seq<Batch>, k: nat, tx: Hash)
    requires k <= |batches| && Fits(batches, tx) && Stored(Run(batches[..k]), tx).Some?
    ensures Stored(Run(batches), tx).Some?
    ensures Stored(Run(batches), tx).value.groups == Contributions(batches, tx)
    ensures Stored(Run(batches[..k]), tx).value.groups == Contributions(batches[..k], tx)
    ensures Stored(Run(batches[..k]), tx).value.groups <= Stored(Run(batches), tx).value.groups
  {
    FitsPrefix(batches, k, tx);
    StoredIsExpected(batches, tx);
    StoredIsExpected(batches[..k], tx);
    ExpectedGroups(batches, tx);
    ExpectedGroups(batches[..k], tx);
    ExpectedStays(batches, k, tx);
    ContributionsGrow(batches, k, tx);
  }

  lemma FitsPrefix(batches: seq<Batch>, k: nat, tx: Hash)
    requires k <= |batches| && Fits(batches, tx)
    ensures Fits(batches[..k], tx)
  {
    forall n | 0 <= n <= k
      ensures batches[..k][..n] == batches[..n]
    {
    }
  }

  lemma {:induction false} ExpectedStays(batches: seq<Batch>, k: nat, tx: Hash)
    requires k <= |batches| && Expected(batches[..k], tx).Some?
    ensures Expected(batches, tx).Some?
  {
    if k < |batches| {
      assert batches[..|batches| - 1][..k] == batches[..k];
      ExpectedStays(batches[..|batches| - 1], k, tx);
    } else {
      assert batches[..k] == batches;
    }
  }

  /**
   The receipt is not append-only: it survives a later batch exactly if that batch does not
   touch the transaction, or brings the same receipt.
   */
  lemma ReceiptSurvives(batches: seq<Batch>, b: Batch, tx: Hash)
    requires Fits(batches + [b], tx)
    requires Stored(Run(batches), tx).Some? && Stored(Run(batches), tx).value.receiptsHash != []
    ensures Stored(Run(batches + [b]), tx).Some?
    ensures Stored(Run(batches + [b]), tx).value.receiptsHash == Stored(Run(batches), tx).value.receiptsHash <==>
            (Touches(b, tx) ==> ReceiptFor(b.receipts, tx) == Some(Stored(Run(batches), tx).value.receiptsHash))
  {
    var all := batches + [b];
    assert all[..|all| - 1] == batches;
    FitsFront(all, tx);
    StoredIsExpected(all, tx);
    StoredIsExpected(batches, tx);
    hide Fits, Stored, Run, HashesFor, ReceiptFor, Contributions;
  }

  const RECEIPT_BATCH := Batch(0, [], [Entry([9], Receipt([1]))])
  const RESULTS_BATCH := Batch(1, [Entry([8], ScResult([1]))], [])

  lemma ExpectedNext(batches: seq<Batch>, b: Batch, tx: Hash)
    ensures Contributions(batches + [b], tx) == Contributions(batches, tx) + Contribution(b, tx)
    ensures Touches(b, tx) ==>
              var receipt := if ReceiptFor(b.receipts, tx).Some? then ReceiptFor(b.receipts, tx).value else [];
              Expected(batches + [b], tx) == Some(Results(receipt, Contributions(batches + [b], tx)))
  {
    assert (batches + [b])[..|batches|] == batches;
  }

  lemma BatchesOfExample()
    ensures Touches(RECEIPT_BATCH, [1]) && ReceiptFor(RECEIPT_BATCH.receipts, [1]) == Some([9])
    ensures Contribution(RECEIPT_BATCH, [1]) == []
    ensures Touches(RESULTS_BATCH, [1]) && ReceiptFor(RESULTS_BATCH.receipts, [1]) == None
    ensures Contribution(RESULTS_BATCH, [1]) == [Group(1, [[8]])]
  {
    OneEntry(Entry([9], Receipt([1])), [1]);
    OneEntry(Entry([8], ScResult([1])), [1]);
    hide HashesFor, ReceiptFor;
  }

  lemma NothingExpected(tx: Hash)
    ensures Expected([], tx) == None && Contributions([], tx) == []
  {
  }

  lemma ExpectedOfExample()
    ensures Expected([], [1]) == None
    ensures Expected([RECEIPT_BATCH], [1]) == Some(Results([9], []))
    ensures Expected([RECEIPT_BATCH, RESULTS_BATCH], [1]) == Some(Results([], [Group(1, [[8]])]))
  {
    hide *;
    BatchesOfExample();
    NothingExpected([1]);
    ExpectedNext([], RECEIPT_BATCH, [1]);
    assert [] + [RECEIPT_BATCH] == [RECEIPT_BATCH];
    ExpectedNext([RECEIPT_BATCH], RESULTS_BATCH, [1]);
    assert [RECEIPT_BATCH] + [RESULTS_BATCH] == [RECEIPT_BATCH, RESULTS_BATCH];
    assert Contributions([RECEIPT_BATCH], [1]) == [];
    assert Contributions([RECEIPT_BATCH, RESULTS_BATCH], [1]) == [Group(1, [[8]])];
  }

  lemma SmallEncodings()
    ensures |EncodeResults(Results([9], []))| <= MAX_INT
    ensures |EncodeResults(Results([], [Group(1, [[8]])]))| <= MAX_INT
  {
  }

  lemma ExampleFits()
    ensures Fits([RECEIPT_BATCH], [1]) && Fits([RECEIPT_BATCH, RESULTS_BATCH], [1])
  {
    var first, both := [RECEIPT_BATCH], [RECEIPT_BATCH, RESULTS_BATCH];
    assert both[..0] == [] && both[..1] == first && both[..2] == both && first[..0] == [] && first[..1] == first;
    hide Expected, EncodeResults;
    ExpectedOfExample();
    SmallEncodings();
  }

  /** A receipt that is lost: its transaction gets a result in a later batch. */
  lemma LaterResultsLoseReceipt()
    ensures Stored(Run([RECEIPT_BATCH]), [1]) == Some(Results([9], []))
    ensures Stored(Run([RECEIPT_BATCH, RESULTS_BATCH]), [1]) == Some(Results([], [Group(1, [[8]])]))
  {
    hide *;
    ExampleFits();
    ExpectedOfExample();
    StoredIsExpected([RECEIPT_BATCH], [1]);
    StoredIsExpected([RECEIPT_BATCH, RESULTS_BATCH], [1]);
  }
}
