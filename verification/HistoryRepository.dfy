/**
 The history repository as the object whose methods update its storers, its pending maps
 and its deduplication cache.
 */
module HistoryRepositoryObject {
  import opened Machine
  import opened Chain
  import opened MetadataCodec
  import opened HistoryState

  lemma RecordedFields(st: Repo, miniblock: Miniblock, blockHeaderHash: Hash, nonce: uint64, round: uint64, epoch: uint32)
    ensures var st' := HistoryState.RecordMiniblock(st, RecordOf(miniblock, blockHeaderHash, nonce, round, epoch));
            var slot := (epoch, miniblock.hash);
            && (slot in st.inserted ==> st' == st)
            && (slot !in st.inserted ==>
                && slot in st'.metadata
                && (var md := st'.metadata[slot];
                    && st'.metadata == st.metadata[slot := md]
                    && md.miniblockType == miniblock.miniblockType && md.epoch == epoch && md.headerHash == blockHeaderHash
                    && md.miniblockHash == miniblock.hash && md.round == round && md.headerNonce == nonce
                    && md.sourceShardID == miniblock.sender && md.destinationShardID == miniblock.receiver
                    && md.deprecatedStatus == [] && md.sourceMetaNonce == 0 && md.sourceMetaHash == []
                    && md.destinationMetaNonce == 0 && md.destinationMetaHash == [])
                && st'.epochByHash == st.epochByHash[miniblock.hash := epoch]
                && st'.inserted == st.inserted + {slot}
                && (forall tx :: tx in st'.miniblockByTx <==> tx in st.miniblockByTx || tx in miniblock.txHashes)
                && (forall tx :: tx in st'.miniblockByTx ==>
                      st'.miniblockByTx[tx] == if tx in miniblock.txHashes then miniblock.hash else st.miniblockByTx[tx]))
  {
    var r := RecordOf(miniblock, blockHeaderHash, nonce, round, epoch);
    hide HistoryState.RecordMiniblock;
    if (epoch, miniblock.hash) in st.inserted {
      RecordingTurnedAway(st, r);
    } else {
      RecordingStores(st, r);
    }
  }

  class HistoryRepository {
    const selfShardID: uint32
    var epochByHashIndex: map<Hash, uint32>
    var miniblocksMetadataStorer: map<Slot, Metadata>
    var miniblockHashByTxHashIndex: map<Hash, Hash>
    var pendingNotarizedAtSource: map<Hash, Note>
    var pendingNotarizedAtDestination: map<Hash, Note>
    var pendingNotarizedAtBoth: map<Hash, Note>
    var deduplicationCache: set<Slot>

    function State(): Repo
      reads this
    {
      Repo(selfShardID, epochByHashIndex, miniblocksMetadataStorer, miniblockHashByTxHashIndex,
           pendingNotarizedAtSource, pendingNotarizedAtDestination, pendingNotarizedAtBoth, deduplicationCache)
    }

    /** Index agreement holds between any two operations. */
    ghost predicate Valid()
      reads this
    {
      Agrees(State())
    }

    constructor (selfShardID: uint32)
      ensures State() == EmptyRepo(selfShardID) && Valid()
    {
      this.selfShardID := selfShardID;
      epochByHashIndex, miniblocksMetadataStorer, miniblockHashByTxHashIndex := map[], map[], map[];
      pendingNotarizedAtSource, pendingNotarizedAtDestination, pendingNotarizedAtBoth := map[], map[], map[];
      deduplicationCache := {};
    }

    method SaveEpochByHash(hash: Hash, epoch: uint32)
      modifies this
      ensures State() == SaveEpoch(old(State()), hash, epoch)
    {
      epochByHashIndex := epochByHashIndex[hash := epoch];
    }

    method PutMiniblockMetadata(hash: Hash, metadata: Metadata)
      modifies this
      ensures State() == PutMetadata(old(State()), hash, metadata)
    {
      miniblocksMetadataStorer := miniblocksMetadataStorer[(metadata.epoch, hash) := metadata];
    }

    method GetMiniblockMetadataByMiniblockHash(hash: Hash) returns (metadata: Option<Metadata>)
      requires Valid()
      ensures metadata == Lookup(State(), hash)
      ensures metadata == if hash in epochByHashIndex && (epochByHashIndex[hash], hash) in miniblocksMetadataStorer
                          then Some(miniblocksMetadataStorer[(epochByHashIndex[hash], hash)]) else None
      ensures metadata.Some? ==> metadata.value.miniblockHash == hash && metadata.value.epoch == epochByHashIndex[hash]
    {
      metadata := None;
      if hash !in epochByHashIndex {
        return;
      }
      var epoch := epochByHashIndex[hash];
      if (epoch, hash) !in miniblocksMetadataStorer {
        return;
      }
      metadata := Some(miniblocksMetadataStorer[(epoch, hash)]);
    }

    method GetMiniblockMetadataByTxHash(txHash: Hash) returns (metadata: Option<Metadata>)
      requires Valid()
      ensures metadata == LookupByTx(State(), txHash)
      ensures metadata == if txHash !in miniblockHashByTxHashIndex then None
                          else Lookup(State(), miniblockHashByTxHashIndex[txHash])
      ensures metadata.Some? ==> metadata.value.miniblockHash == miniblockHashByTxHashIndex[txHash]
    {
      metadata := None;
      if txHash in miniblockHashByTxHashIndex {
        metadata := GetMiniblockMetadataByMiniblockHash(miniblockHashByTxHashIndex[txHash]);
      }
    }

    method RecordMiniblock(blockHeaderHash: Hash, nonce: uint64, round: uint64, miniblock: Miniblock, epoch: uint32)
      requires Valid()
      modifies this
      ensures State() == HistoryState.RecordMiniblock(old(State()), RecordOf(miniblock, blockHeaderHash, nonce, round, epoch))
      ensures Valid()
      ensures (epoch, miniblock.hash) in old(deduplicationCache) ==> State() == old(State())
      ensures (epoch, miniblock.hash) !in old(deduplicationCache) ==>
                && (epoch, miniblock.hash) in miniblocksMetadataStorer
                && var md := miniblocksMetadataStorer[(epoch, miniblock.hash)];
                && miniblocksMetadataStorer == old(miniblocksMetadataStorer)[(epoch, miniblock.hash) := md]
                && md.miniblockType == miniblock.miniblockType && md.epoch == epoch && md.headerHash == blockHeaderHash
                && md.miniblockHash == miniblock.hash && md.round == round && md.headerNonce == nonce
                && md.sourceShardID == miniblock.sender && md.destinationShardID == miniblock.receiver
                && md.deprecatedStatus == [] && md.sourceMetaNonce == 0 && md.sourceMetaHash == []
                && md.destinationMetaNonce == 0 && md.destinationMetaHash == []
                && epochByHashIndex == old(epochByHashIndex)[miniblock.hash := epoch]
                && deduplicationCache == old(deduplicationCache) + {(epoch, miniblock.hash)}
      ensures (epoch, miniblock.hash) !in old(deduplicationCache) ==>
                && (forall tx :: tx in miniblockHashByTxHashIndex <==> tx in old(miniblockHashByTxHashIndex) || tx in miniblock.txHashes)
                && (forall tx :: tx in miniblockHashByTxHashIndex ==>
                      miniblockHashByTxHashIndex[tx] ==
                      if tx in miniblock.txHashes then miniblock.hash else old(miniblockHashByTxHashIndex)[tx])
    {
      RecordedFields(State(), miniblock, blockHeaderHash, nonce, round, epoch);
      ghost var r := RecordOf(miniblock, blockHeaderHash, nonce, round, epoch);
      RecordKeepsAgreement(State(), r);
      var miniblockHash := miniblock.hash;
      if (epoch, miniblockHash) in deduplicationCache {
        return;
      }
      SaveEpochByHash(miniblockHash, epoch);
      var metadata := Metadata(miniblock.sender, miniblock.receiver, round, nonce, blockHeaderHash, miniblockHash, [],
                               epoch, 0, 0, [], [], miniblock.miniblockType);
      assert metadata == NewMetadata(r);
      hide NewMetadata;
      PutMiniblockMetadata(miniblockHash, metadata);
      deduplicationCache := deduplicationCache + {(epoch, miniblockHash)};
      ghost var marked := State();
      var i := 0;
      assert miniblock.txHashes[0..] == miniblock.txHashes;
      while i < |miniblock.txHashes|
        invariant i <= |miniblock.txHashes|
        invariant IndexTxs(State(), miniblock.txHashes[i..], miniblockHash) == IndexTxs(marked, miniblock.txHashes, miniblockHash)
      {
        assert miniblock.txHashes[i..][1..] == miniblock.txHashes[i + 1..];
        miniblockHashByTxHashIndex := miniblockHashByTxHashIndex[miniblock.txHashes[i] := miniblockHash];
        i := i + 1;
      }
    }

    method RecordBlock(blockHeaderHash: Hash, epoch: uint32, nonce: uint64, round: uint64, miniBlocks: seq<Miniblock>)
      requires Valid()
      modifies this
      ensures State() == HistoryState.RecordBlock(old(State()), miniBlocks, blockHeaderHash, nonce, round, epoch)
      ensures Valid()
    {
      SaveEpochByHash(blockHeaderHash, epoch);
      var i := 0;
      assert miniBlocks[0..] == miniBlocks;
      while i < |miniBlocks|
        invariant i <= |miniBlocks| && Valid()
        invariant RecordMiniblocks(State(), miniBlocks[i..], blockHeaderHash, nonce, round, epoch) ==
                  HistoryState.RecordBlock(old(State()), miniBlocks, blockHeaderHash, nonce, round, epoch)
      {
        var miniblock := miniBlocks[i];
        assert miniBlocks[i..][1..] == miniBlocks[i + 1..];
        i := i + 1;
        if miniblock.miniblockType == PEER_BLOCK {
          continue;
        }
        RecordMiniblock(blockHeaderHash, nonce, round, miniblock, epoch);
      }
    }

    method OnNotarizedMiniblock(metaBlockNonce: uint64, metaBlockHash: Hash, shardOfContainingBlock: uint32,
                                header: MiniblockHeader)
      modifies this
      ensures State() == Notify(old(State()), NotificationOf(header, shardOfContainingBlock, Note(metaBlockNonce, metaBlockHash)))
      ensures (header.sender != selfShardID && header.receiver != selfShardID) || header.miniblockType == 60 ==>
                State() == old(State())
      ensures (header.sender == selfShardID || header.receiver == selfShardID) && header.miniblockType != 60 ==>
                var note := Note(metaBlockNonce, metaBlockHash);
                if header.sender == header.receiver || header.receiver == 0xFFFF_FFFF then
                  State() == old(State()).(pendingBoth := old(pendingNotarizedAtBoth)[header.hash := note])
                else if header.sender == shardOfContainingBlock then
                  State() == old(State()).(pendingSource := old(pendingNotarizedAtSource)[header.hash := note])
                else if header.receiver == shardOfContainingBlock then
                  State() == old(State()).(pendingDestination := old(pendingNotarizedAtDestination)[header.hash := note])
                else State() == old(State())
    {
      var isIntra := header.sender == header.receiver;
      var isToMeta := header.receiver == META_SHARD;
      var isNotarizedAtSource := header.sender == shardOfContainingBlock;
      var isNotarizedAtDestination := header.receiver == shardOfContainingBlock;
      var isNotarizedAtBoth := isIntra || isToMeta;

      var notFromMe := header.sender != selfShardID;
      var notToMe := header.receiver != selfShardID;
      var isPeerMiniblock := header.miniblockType == PEER_BLOCK;
      var iDontCare := (notFromMe && notToMe) || isPeerMiniblock;
      if iDontCare {
        return;
      }
      var note := Note(metaBlockNonce, metaBlockHash);
      if isNotarizedAtBoth {
        pendingNotarizedAtBoth := pendingNotarizedAtBoth[header.hash := note];
      } else if isNotarizedAtSource {
        pendingNotarizedAtSource := pendingNotarizedAtSource[header.hash := note];
      } else if isNotarizedAtDestination {
        pendingNotarizedAtDestination := pendingNotarizedAtDestination[header.hash := note];
      }
    }

    method OnNotarizedInMetaBlock(metaBlockNonce: uint64, metaBlockHash: Hash, shardID: uint32,
                                  headers: seq<MiniblockHeader>)
      modifies this
      ensures State() == if metaBlockNonce < 1 then old(State())
                         else NotifyAll(old(State()), headers, shardID, Note(metaBlockNonce, metaBlockHash))
    {
      if metaBlockNonce < 1 {
        return;
      }
      var i := 0;
      assert headers[0..] == headers;
      while i < |headers|
        invariant i <= |headers|
        invariant NotifyAll(State(), headers[i..], shardID, Note(metaBlockNonce, metaBlockHash)) ==
                  NotifyAll(old(State()), headers, shardID, Note(metaBlockNonce, metaBlockHash))
      {
        assert headers[i..][1..] == headers[i + 1..];
        OnNotarizedMiniblock(metaBlockNonce, metaBlockHash, shardID, headers[i]);
        i := i + 1;
      }
    }

    method ConsumePendingNotificationsWithLock()
      requires Valid()
      modifies this
      ensures State() == Consume(old(State()))
      ensures Valid()
    {
      if |pendingNotarizedAtSource| == 0 && |pendingNotarizedAtDestination| == 0 && |pendingNotarizedAtBoth| == 0 {
        ConsumeNothing(State(), Source);
        ConsumeNothing(State(), Destination);
        ConsumeNothing(State(), Both);
        return;
      }
      ConsumePendingNotificationsNoLock(Source);
      ConsumePendingNotificationsNoLock(Destination);
      ConsumePendingNotificationsNoLock(Both);
    }

    /** The pass over one pending map; its keys come in any order. */
    method ConsumePendingNotificationsNoLock(side: Side)
      requires Valid()
      modifies this
      ensures State() == ConsumeSide(old(State()), side)
      ensures Valid()
    {
      ghost var start := State();
      var all := PendingOf(side).Keys;
      var keys := all;
      ConsumeNothing(start, side);
      assert all - keys == {};
      while keys != {}
        invariant keys <= all == Pending(start, side).Keys
        invariant State() == ConsumeKeys(start, side, all - keys)
        decreases keys
      {
        var key :| key in keys;
        ConsumeOneMore(start, side, all - keys, key);
        ConsumeKeepsAgreement(start, side, all - keys);
        assert all - (keys - {key}) == (all - keys) + {key};
        keys := keys - {key};
        ConsumeOne(side, key);
      }
      assert all - keys == all;
      ConsumeKeepsAgreement(start, side, all);
    }

    function PendingOf(side: Side): map<Hash, Note>
      reads this
    {
      Pending(State(), side)
    }

    /** The loop body: read, patch, put back, remove; or leave the notification for later. */
    method ConsumeOne(side: Side, key: Hash)
      requires Valid()
      modifies this
      ensures State() == ConsumeKey(old(State()), side, key)
    {
      if key !in PendingOf(side) {
        return;
      }
      var notification := PendingOf(side)[key];
      var metadata := GetMiniblockMetadataByMiniblockHash(key);
      if metadata == None {
        return;
      }
      PutMiniblockMetadata(key, Patch(side, metadata.value, notification));
      match side {
        case Source => pendingNotarizedAtSource := pendingNotarizedAtSource - {key};
        case Destination => pendingNotarizedAtDestination := pendingNotarizedAtDestination - {key};
        case Both => pendingNotarizedAtBoth := pendingNotarizedAtBoth - {key};
      }
    }
  }
}
