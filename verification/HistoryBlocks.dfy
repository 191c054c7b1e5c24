/**
 What recording a block, and what the headers of a metachain block, do to the history
 repository, entry by entry.
 */
module HistoryBlocks {
  import opened Machine
  import opened Chain
  import opened MetadataCodec
  import opened HistoryState

  // ---------- recording a block ----------

  /** The i-th miniblock is recorded: it is no peer miniblock, and neither the cache nor an earlier miniblock has its key. */
  predicate Effective(st: Repo, mbs: seq<Miniblock>, epoch: uint32, i: nat) {
    && i < |mbs| && mbs[i].miniblockType != 60
    && (epoch, mbs[i].hash) !in st.inserted
    && forall j :: 0 <= j < i ==> mbs[j].miniblockType == 60 || mbs[j].hash != mbs[i].hash
  }

  /** The state after the first miniblock. */
  function AfterFirst(st: Repo, mbs: seq<Miniblock>, headerHash: Hash, nonce: uint64, round: uint64, epoch: uint32): Repo
    requires mbs != []
  {
    if mbs[0].miniblockType == PEER_BLOCK then st
    else RecordMiniblock(st, RecordOf(mbs[0], headerHash, nonce, round, epoch))
  }

  lemma EffectiveInRest(st: Repo, mbs: seq<Miniblock>, headerHash: Hash, nonce: uint64, round: uint64, epoch: uint32, i: nat)
    requires mbs != [] && i > 0
    ensures Effective(st, mbs, epoch, i) <==>
            Effective(AfterFirst(st, mbs, headerHash, nonce, round, epoch), mbs[1..], epoch, i - 1)
  {
    var r := RecordOf(mbs[0], headerHash, nonce, round, epoch);
    FirstFields(st, mbs, headerHash, nonce, round, epoch);
    hide AfterFirst;
    var st1 := AfterFirst(st, mbs, headerHash, nonce, round, epoch);
    if i < |mbs| {
      assert mbs[1..][i - 1] == mbs[i];
      if Effective(st1, mbs[1..], epoch, i - 1) {
        forall j | 0 <= j < i
          ensures mbs[j].miniblockType == 60 || mbs[j].hash != mbs[i].hash
        {
          if j > 0 {
            assert mbs[1..][j - 1] == mbs[j];
          }
        }
      }
    }
  }

  /** The first miniblock, by the fields of the block. */
  lemma FirstFields(st: Repo, mbs: seq<Miniblock>, headerHash: Hash, nonce: uint64, round: uint64, epoch: uint32)
    requires mbs != []
    ensures var st1, mb, slot := AfterFirst(st, mbs, headerHash, nonce, round, epoch), mbs[0], (epoch, mbs[0].hash);
            && (!Effective(st, mbs, epoch, 0) ==> st1 == st)
            && (Effective(st, mbs, epoch, 0) ==>
                && slot in st1.metadata && st1.metadata == st.metadata[slot := st1.metadata[slot]]
                && Holds(st1.metadata[slot], mb, headerHash, nonce, round, epoch)
                && st1.epochByHash == st.epochByHash[mb.hash := epoch] && st1.inserted == st.inserted + {slot}
                && (forall tx :: tx in st1.miniblockByTx <==> tx in st.miniblockByTx || tx in mb.txHashes)
                && (forall tx :: tx in st1.miniblockByTx ==>
                      st1.miniblockByTx[tx] == if tx in mb.txHashes then mb.hash else st.miniblockByTx[tx]))
            && st1.pendingSource == st.pendingSource && st1.pendingDestination == st.pendingDestination
            && st1.pendingBoth == st.pendingBoth && st1.selfShard == st.selfShard
  {
    var r := RecordOf(mbs[0], headerHash, nonce, round, epoch);
    hide RecordMiniblock;
    if (epoch, mbs[0].hash) in st.inserted {
      RecordingTurnedAway(st, r);
    } else {
      RecordingStores(st, r);
    }
  }

  /** Metadata of a freshly recorded miniblock of a block. */
  predicate Holds(md: Metadata, mb: Miniblock, headerHash: Hash, nonce: uint64, round: uint64, epoch: uint32) {
    && md.miniblockHash == mb.hash && md.miniblockType == mb.miniblockType
    && md.sourceShardID == mb.sender && md.destinationShardID == mb.receiver
    && md.headerHash == headerHash && md.headerNonce == nonce && md.round == round && md.epoch == epoch
    && md.deprecatedStatus == [] && md.sourceMetaNonce == 0 && md.sourceMetaHash == []
    && md.destinationMetaNonce == 0 && md.destinationMetaHash == []
  }

  /** A slot, or an epoch, that no effective miniblock of the block has stays as it is. */
  lemma {:induction false} OthersStay(st: Repo, mbs: seq<Miniblock>, headerHash: Hash, nonce: uint64, round: uint64,
                                      epoch: uint32, h: Hash, e: uint32)
    requires forall i: nat :: Effective(st, mbs, epoch, i) ==> mbs[i].hash != h
    ensures var st' := RecordMiniblocks(st, mbs, headerHash, nonce, round, epoch);
            && ((e, h) in st'.metadata <==> (e, h) in st.metadata)
            && ((e, h) in st.metadata ==> st'.metadata[(e, h)] == st.metadata[(e, h)])
            && ((e, h) in st'.inserted <==> (e, h) in st.inserted)
            && (h in st'.epochByHash <==> h in st.epochByHash)
            && (h in st.epochByHash ==> st'.epochByHash[h] == st.epochByHash[h])
    decreases |mbs|
  {
    if mbs != [] {
      var st1 := AfterFirst(st, mbs, headerHash, nonce, round, epoch);
      FirstFields(st, mbs, headerHash, nonce, round, epoch);
      assert Effective(st, mbs, epoch, 0) ==> mbs[0].hash != h;
      forall i: nat | Effective(st1, mbs[1..], epoch, i)
        ensures mbs[1..][i].hash != h
      {
        EffectiveInRest(st, mbs, headerHash, nonce, round, epoch, i + 1);
      }
      OthersStay(st1, mbs[1..], headerHash, nonce, round, epoch, h, e);
      hide AfterFirst, Effective;
      assert RecordMiniblocks(st, mbs, headerHash, nonce, round, epoch) ==
             RecordMiniblocks(st1, mbs[1..], headerHash, nonce, round, epoch) by {
        RecordNext(st, mbs, headerHash, nonce, round, epoch);
      }
      hide RecordMiniblocks;
    }
  }

  lemma RecordNext(st: Repo, mbs: seq<Miniblock>, headerHash: Hash, nonce: uint64, round: uint64, epoch: uint32)
    requires mbs != []
    ensures RecordMiniblocks(st, mbs, headerHash, nonce, round, epoch) ==
            RecordMiniblocks(AfterFirst(st, mbs, headerHash, nonce, round, epoch), mbs[1..], headerHash, nonce, round, epoch)
  {
    hide RecordMiniblock;
  }

  /** An effective miniblock is stored with its own fields and those of the block. */
  lemma {:induction false} EffectiveStored(st: Repo, mbs: seq<Miniblock>, headerHash: Hash, nonce: uint64, round: uint64,
                                           epoch: uint32, i: nat)
    requires Effective(st, mbs, epoch, i)
    ensures var st', slot := RecordMiniblocks(st, mbs, headerHash, nonce, round, epoch), (epoch, mbs[i].hash);
            && slot in st'.metadata && Holds(st'.metadata[slot], mbs[i], headerHash, nonce, round, epoch)
            && slot in st'.inserted && mbs[i].hash in st'.epochByHash && st'.epochByHash[mbs[i].hash] == epoch
    decreases |mbs|
  {
    var st1 := AfterFirst(st, mbs, headerHash, nonce, round, epoch);
    RecordNext(st, mbs, headerHash, nonce, round, epoch);
    hide RecordMiniblocks, Holds;
    FirstFields(st, mbs, headerHash, nonce, round, epoch);
    if i == 0 {
      forall k: nat | Effective(st1, mbs[1..], epoch, k)
        ensures mbs[1..][k].hash != mbs[0].hash
      {
        EffectiveInRest(st, mbs, headerHash, nonce, round, epoch, k + 1);
      }
      OthersStay(st1, mbs[1..], headerHash, nonce, round, epoch, mbs[0].hash, epoch);
    } else {
      EffectiveInRest(st, mbs, headerHash, nonce, round, epoch, i);
      EffectiveStored(st1, mbs[1..], headerHash, nonce, round, epoch, i - 1);
    }
  }

  /** A transaction of no effective miniblock keeps its entry, or stays without one. */
  lemma {:induction false} OtherTxsStay(st: Repo, mbs: seq<Miniblock>, headerHash: Hash, nonce: uint64, round: uint64,
                                        epoch: uint32, tx: Hash)
    requires forall i: nat :: Effective(st, mbs, epoch, i) ==> tx !in mbs[i].txHashes
    ensures var st' := RecordMiniblocks(st, mbs, headerHash, nonce, round, epoch);
            && (tx in st'.miniblockByTx <==> tx in st.miniblockByTx)
            && (tx in st.miniblockByTx ==> st'.miniblockByTx[tx] == st.miniblockByTx[tx])
    decreases |mbs|
  {
    if mbs != [] {
      var st1 := AfterFirst(st, mbs, headerHash, nonce, round, epoch);
      RecordNext(st, mbs, headerHash, nonce, round, epoch);
      hide RecordMiniblocks, Holds;
      FirstFields(st, mbs, headerHash, nonce, round, epoch);
      assert Effective(st, mbs, epoch, 0) ==> tx !in mbs[0].txHashes;
      forall i: nat | Effective(st1, mbs[1..], epoch, i)
        ensures tx !in mbs[1..][i].txHashes
      {
        EffectiveInRest(st, mbs, headerHash, nonce, round, epoch, i + 1);
      }
      OtherTxsStay(st1, mbs[1..], headerHash, nonce, round, epoch, tx);
    }
  }

  /** A transaction leads to the last effective miniblock of the block that holds it. */
  lemma {:induction false} TxOfBlockIndexed(st: Repo, mbs: seq<Miniblock>, headerHash: Hash, nonce: uint64, round: uint64,
                                            epoch: uint32, i: nat, tx: Hash)
    requires Effective(st, mbs, epoch, i) && tx in mbs[i].txHashes
    requires forall j: nat :: j > i && Effective(st, mbs, epoch, j) ==> tx !in mbs[j].txHashes
    ensures var st' := RecordMiniblocks(st, mbs, headerHash, nonce, round, epoch);
            tx in st'.miniblockByTx && st'.miniblockByTx[tx] == mbs[i].hash
    decreases |mbs|
  {
    var st1 := AfterFirst(st, mbs, headerHash, nonce, round, epoch);
    RecordNext(st, mbs, headerHash, nonce, round, epoch);
    hide RecordMiniblocks, Holds;
    FirstFields(st, mbs, headerHash, nonce, round, epoch);
    forall j: nat | j >= i && Effective(st1, mbs[1..], epoch, j)
      ensures tx !in mbs[1..][j].txHashes
    {
      EffectiveInRest(st, mbs, headerHash, nonce, round, epoch, j + 1);
    }
    if i == 0 {
      OtherTxsStay(st1, mbs[1..], headerHash, nonce, round, epoch, tx);
    } else {
      EffectiveInRest(st, mbs, headerHash, nonce, round, epoch, i);
      TxOfBlockIndexed(st1, mbs[1..], headerHash, nonce, round, epoch, i - 1, tx);
    }
  }

  lemma HeaderKeepsEffective(st: Repo, mbs: seq<Miniblock>, headerHash: Hash, epoch: uint32, i: nat)
    ensures Effective(SaveEpoch(st, headerHash, epoch), mbs, epoch, i) == Effective(st, mbs, epoch, i)
  {
  }

  /**
   Recording a block: every effective miniblock is stored under the block's epoch, with its own
   fields and the hash, nonce and round of the block, and each of its transactions leads to it,
   unless a later one of the block holds that transaction too.
   */
  lemma BlockStored(st: Repo, mbs: seq<Miniblock>, headerHash: Hash, nonce: uint64, round: uint64, epoch: uint32, i: nat)
    requires Effective(st, mbs, epoch, i)
    ensures var st', slot := RecordBlock(st, mbs, headerHash, nonce, round, epoch), (epoch, mbs[i].hash);
            && slot in st'.metadata && Holds(st'.metadata[slot], mbs[i], headerHash, nonce, round, epoch)
            && slot in st'.inserted && mbs[i].hash in st'.epochByHash && st'.epochByHash[mbs[i].hash] == epoch
            && forall tx :: tx in mbs[i].txHashes && (forall j: nat :: j > i && Effective(st, mbs, epoch, j) ==> tx !in mbs[j].txHashes) ==>
                 tx in st'.miniblockByTx && st'.miniblockByTx[tx] == mbs[i].hash
  {
    var start := SaveEpoch(st, headerHash, epoch);
    forall j: nat
      ensures Effective(start, mbs, epoch, j) == Effective(st, mbs, epoch, j)
    {
      HeaderKeepsEffective(st, mbs, headerHash, epoch, j);
    }
    hide Effective, RecordMiniblocks, Holds;
    EffectiveStored(start, mbs, headerHash, nonce, round, epoch, i);
    forall tx | tx in mbs[i].txHashes && forall j: nat :: j > i && Effective(st, mbs, epoch, j) ==> tx !in mbs[j].txHashes
      ensures var st' := RecordBlock(st, mbs, headerHash, nonce, round, epoch);
              tx in st'.miniblockByTx && st'.miniblockByTx[tx] == mbs[i].hash
    {
      TxOfBlockIndexed(start, mbs, headerHash, nonce, round, epoch, i, tx);
    }
  }

  /**
   Nothing else changes: the header's hash gets the block's epoch, and every hash and every
   transaction of no effective miniblock keeps its entries. Peer miniblocks are not effective.
   */
  lemma BlockKeepsOthers(st: Repo, mbs: seq<Miniblock>, headerHash: Hash, nonce: uint64, round: uint64, epoch: uint32,
                         h: Hash, e: uint32, tx: Hash)
    ensures var st' := RecordBlock(st, mbs, headerHash, nonce, round, epoch);
            && ((forall i: nat :: Effective(st, mbs, epoch, i) ==> mbs[i].hash != h) ==>
                && ((e, h) in st'.metadata <==> (e, h) in st.metadata)
                && ((e, h) in st.metadata ==> st'.metadata[(e, h)] == st.metadata[(e, h)])
                && ((e, h) in st'.inserted <==> (e, h) in st.inserted)
                && (h in st'.epochByHash <==> h == headerHash || h in st.epochByHash)
                && (h in st'.epochByHash ==> st'.epochByHash[h] == if h == headerHash then epoch else st.epochByHash[h]))
            && ((forall i: nat :: Effective(st, mbs, epoch, i) ==> tx !in mbs[i].txHashes) ==>
                && (tx in st'.miniblockByTx <==> tx in st.miniblockByTx)
                && (tx in st.miniblockByTx ==> st'.miniblockByTx[tx] == st.miniblockByTx[tx]))
  {
    var start := SaveEpoch(st, headerHash, epoch);
    forall j: nat
      ensures Effective(start, mbs, epoch, j) == Effective(st, mbs, epoch, j)
    {
      HeaderKeepsEffective(st, mbs, headerHash, epoch, j);
    }
    hide Effective, RecordMiniblocks;
    if forall i: nat :: Effective(st, mbs, epoch, i) ==> mbs[i].hash != h {
      OthersStay(start, mbs, headerHash, nonce, round, epoch, h, e);
    }
    if forall i: nat :: Effective(st, mbs, epoch, i) ==> tx !in mbs[i].txHashes {
      OtherTxsStay(start, mbs, headerHash, nonce, round, epoch, tx);
    }
  }

  // ---------- the headers of a metachain block ----------

  /** A header of the shard's block that ends up in the pending map of a side. */
  predicate ForBoth(selfShard: uint32, header: MiniblockHeader) {
    && (header.sender == selfShard || header.receiver == selfShard) && header.miniblockType != 60
    && (header.sender == header.receiver || header.receiver == 0xFFFF_FFFF)
  }

  predicate ForSource(selfShard: uint32, header: MiniblockHeader, shard: uint32) {
    && (header.sender == selfShard || header.receiver == selfShard) && header.miniblockType != 60
    && header.sender != header.receiver && header.receiver != 0xFFFF_FFFF && header.sender == shard
  }

  predicate ForDestination(selfShard: uint32, header: MiniblockHeader, shard: uint32) {
    && (header.sender == selfShard || header.receiver == selfShard) && header.miniblockType != 60
    && header.sender != header.receiver && header.receiver != 0xFFFF_FFFF && header.sender != shard && header.receiver == shard
  }

  /** One pending map after the headers: those for it have the new note, all others what they had. */
  ghost predicate Renewed(pending: map<Hash, Note>, pending': map<Hash, Note>, hashes: set<Hash>, note: Note) {
    && (forall h :: h in pending' <==> h in pending || h in hashes)
    && (forall h :: h in pending' ==> pending'[h] == if h in hashes then note else pending[h])
  }

  function HashesForBoth(selfShard: uint32, headers: seq<MiniblockHeader>): set<Hash> {
    set header | header in headers && ForBoth(selfShard, header) :: header.hash
  }

  function HashesForSource(selfShard: uint32, headers: seq<MiniblockHeader>, shard: uint32): set<Hash> {
    set header | header in headers && ForSource(selfShard, header, shard) :: header.hash
  }

  function HashesForDestination(selfShard: uint32, headers: seq<MiniblockHeader>, shard: uint32): set<Hash> {
    set header | header in headers && ForDestination(selfShard, header, shard) :: header.hash
  }

  lemma FirstHeader(selfShard: uint32, headers: seq<MiniblockHeader>, shard: uint32)
    requires headers != []
    ensures HashesForBoth(selfShard, headers) ==
            HashesForBoth(selfShard, headers[1..]) + (if ForBoth(selfShard, headers[0]) then {headers[0].hash} else {})
    ensures HashesForSource(selfShard, headers, shard) ==
            HashesForSource(selfShard, headers[1..], shard) + (if ForSource(selfShard, headers[0], shard) then {headers[0].hash} else {})
    ensures HashesForDestination(selfShard, headers, shard) ==
            HashesForDestination(selfShard, headers[1..], shard)
            + (if ForDestination(selfShard, headers[0], shard) then {headers[0].hash} else {})
  {
    hide ForBoth, ForSource, ForDestination;
    assert headers == [headers[0]] + headers[1..];
  }

  lemma OneHeader(st: Repo, header: MiniblockHeader, shard: uint32, note: Note)
    ensures var st' := Notify(st, NotificationOf(header, shard, note));
            && Renewed(st.pendingBoth, st'.pendingBoth, if ForBoth(st.selfShard, header) then {header.hash} else {}, note)
            && Renewed(st.pendingSource, st'.pendingSource, if ForSource(st.selfShard, header, shard) then {header.hash} else {}, note)
            && Renewed(st.pendingDestination, st'.pendingDestination,
                       if ForDestination(st.selfShard, header, shard) then {header.hash} else {}, note)
            && SameButPending(st, st')
  {
    NotifyByFields(st, NotificationOf(header, shard, note));
    hide Notify;
  }

  lemma RenewedTwice(p: map<Hash, Note>, p1: map<Hash, Note>, p2: map<Hash, Note>, first: set<Hash>, rest: set<Hash>, note: Note)
    requires Renewed(p, p1, first, note) && Renewed(p1, p2, rest, note)
    ensures Renewed(p, p2, rest + first, note)
  {
  }

  /**
   The headers of one shard's block in a metachain block: every header that the shard cares about
   is pending with the metachain block's coordinates, for both sides, its source or its
   destination; nothing else changes.
   */
  lemma {:induction false} HeadersNotified(st: Repo, headers: seq<MiniblockHeader>, shard: uint32, note: Note)
    ensures var st' := NotifyAll(st, headers, shard, note);
            && Renewed(st.pendingBoth, st'.pendingBoth, HashesForBoth(st.selfShard, headers), note)
            && Renewed(st.pendingSource, st'.pendingSource, HashesForSource(st.selfShard, headers, shard), note)
            && Renewed(st.pendingDestination, st'.pendingDestination, HashesForDestination(st.selfShard, headers, shard), note)
            && SameButPending(st, st')
    decreases |headers|
  {
    if headers != [] {
      hide Notify, Renewed, HashesForBoth, HashesForSource, HashesForDestination, ForBoth, ForSource, ForDestination;
      var header, self := headers[0], st.selfShard;
      var st1 := Notify(st, NotificationOf(header, shard, note));
      var st2 := NotifyAll(st1, headers[1..], shard, note);
      OneHeader(st, header, shard, note);
      HeadersNotified(st1, headers[1..], shard, note);
      FirstHeader(self, headers, shard);
      RenewedTwice(st.pendingBoth, st1.pendingBoth, st2.pendingBoth,
                   if ForBoth(self, header) then {header.hash} else {}, HashesForBoth(self, headers[1..]), note);
      RenewedTwice(st.pendingSource, st1.pendingSource, st2.pendingSource,
                   if ForSource(self, header, shard) then {header.hash} else {}, HashesForSource(self, headers[1..], shard), note);
      RenewedTwice(st.pendingDestination, st1.pendingDestination, st2.pendingDestination,
                   if ForDestination(self, header, shard) then {header.hash} else {},
                   HashesForDestination(self, headers[1..], shard), note);
      assert NotifyAll(st, headers, shard, note) == st2;
    } else {
      assert NotifyAll(st, headers, shard, note) == st;
    }
  }
}
