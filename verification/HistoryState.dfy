/**
 The state of the history repository and its operations, as functions.

 Storers are maps and never fail; the metadata storer is keyed by epoch and hash. A stored
 record is the value its bytes decode to. Hashes are opaque.
 */
module HistoryState {
  import opened Machine
  import opened Chain
  import opened MetadataCodec

  type Slot = (uint32, Hash)

  const PEER_BLOCK: int32 := 60

  datatype Note = Note(metaNonce: uint64, metaHash: Hash)
  datatype Side = Source | Destination | Both

  datatype Repo = Repo(
    selfShard: uint32,
    epochByHash: map<Hash, uint32>,
    metadata: map<Slot, Metadata>,
    miniblockByTx: map<Hash, Hash>,
    pendingSource: map<Hash, Note>,
    pendingDestination: map<Hash, Note>,
    pendingBoth: map<Hash, Note>,
    inserted: set<Slot>)

  function EmptyRepo(selfShard: uint32): Repo {
    Repo(selfShard, map[], map[], map[], map[], map[], map[], {})
  }

  // ---------- lookups ----------

  /** getMiniblockMetadataByMiniblockHash: hash to epoch, then epoch and hash to metadata. */
  function Lookup(st: Repo, h: Hash): Option<Metadata> {
    if h !in st.epochByHash then None
    else if (st.epochByHash[h], h) !in st.metadata then None
    else Some(st.metadata[(st.epochByHash[h], h)])
  }

  function LookupByTx(st: Repo, tx: Hash): Option<Metadata> {
    if tx !in st.miniblockByTx then None else Lookup(st, st.miniblockByTx[tx])
  }

  // ---------- recording ----------

  /** A miniblock together with the block and the epoch it is recorded under. */
  datatype Record = Record(hash: Hash, miniblockType: int32, sender: uint32, receiver: uint32, txHashes: seq<Hash>,
                           headerHash: Hash, nonce: uint64, round: uint64, epoch: uint32)

  function SlotOf(r: Record): Slot { (r.epoch, r.hash) }

  /** The metadata recordMiniblock stores: all notarization fields are zero. */
  function NewMetadata(r: Record): Metadata {
    Metadata(r.sender, r.receiver, r.round, r.nonce, r.headerHash, r.hash, [], r.epoch, 0, 0, [], [], r.miniblockType)
  }

  lemma NewMetadataBelongs(r: Record)
    ensures NewMetadata(r).epoch == r.epoch && NewMetadata(r).miniblockHash == r.hash
  {
  }

  function SaveEpoch(st: Repo, h: Hash, epoch: uint32): Repo {
    st.(epochByHash := st.epochByHash[h := epoch])
  }

  /** putMiniblockMetadata stores under the epoch that the metadata itself carries. */
  function PutMetadata(st: Repo, h: Hash, md: Metadata): Repo {
    st.(metadata := st.metadata[(md.epoch, h) := md])
  }

  function MarkInserted(st: Repo, slot: Slot): Repo {
    st.(inserted := st.inserted + {slot})
  }

  function IndexTx(st: Repo, tx: Hash, h: Hash): Repo {
    st.(miniblockByTx := st.miniblockByTx[tx := h])
  }

  function IndexTxs(st: Repo, txs: seq<Hash>, h: Hash): Repo
    decreases |txs|
  {
    if txs == [] then st else IndexTxs(IndexTx(st, txs[0], h), txs[1..], h)
  }

  function RecordMiniblock(st: Repo, r: Record): Repo {
    if SlotOf(r) in st.inserted then st
    else
      var put := PutMetadata(SaveEpoch(st, r.hash, r.epoch), r.hash, NewMetadata(r));
      IndexTxs(MarkInserted(put, SlotOf(r)), r.txHashes, r.hash)
  }

  lemma NewMetadataFields(r: Record)
    ensures var md := NewMetadata(r);
            && md.sourceShardID == r.sender && md.destinationShardID == r.receiver && md.miniblockType == r.miniblockType
            && md.round == r.round && md.headerNonce == r.nonce && md.headerHash == r.headerHash
            && md.miniblockHash == r.hash && md.epoch == r.epoch && md.deprecatedStatus == []
            && md.sourceMetaNonce == 0 && md.sourceMetaHash == [] && md.destinationMetaNonce == 0 && md.destinationMetaHash == []
  {
  }

  lemma {:induction false} TxsIndexed(st: Repo, txs: seq<Hash>, h: Hash)
    ensures forall tx :: tx in IndexTxs(st, txs, h).miniblockByTx <==> tx in st.miniblockByTx || tx in txs
    ensures forall tx :: tx in IndexTxs(st, txs, h).miniblockByTx ==>
              IndexTxs(st, txs, h).miniblockByTx[tx] == if tx in txs then h else st.miniblockByTx[tx]
    decreases |txs|
  {
    if txs != [] {
      TxsIndexed(IndexTx(st, txs[0], h), txs[1..], h);
    }
  }

  /**
   A recording that is not turned away, field by field: the metadata it stores, the epoch under
   which it is looked up, and the index of its transactions; all other entries stay.
   */
  lemma RecordingStores(st: Repo, r: Record)
    requires (r.epoch, r.hash) !in st.inserted
    ensures var st', slot := RecordMiniblock(st, r), (r.epoch, r.hash);
            && slot in st'.metadata && st'.metadata == st.metadata[slot := st'.metadata[slot]]
            && (var md := st'.metadata[slot];
                && md.sourceShardID == r.sender && md.destinationShardID == r.receiver && md.miniblockType == r.miniblockType
                && md.round == r.round && md.headerNonce == r.nonce && md.headerHash == r.headerHash
                && md.miniblockHash == r.hash && md.epoch == r.epoch && md.deprecatedStatus == []
                && md.sourceMetaNonce == 0 && md.sourceMetaHash == []
                && md.destinationMetaNonce == 0 && md.destinationMetaHash == [])
            && st'.epochByHash == st.epochByHash[r.hash := r.epoch] && st'.inserted == st.inserted + {slot}
            && (forall tx :: tx in st'.miniblockByTx <==> tx in st.miniblockByTx || tx in r.txHashes)
            && (forall tx :: tx in st'.miniblockByTx ==>
                  st'.miniblockByTx[tx] == if tx in r.txHashes then r.hash else st.miniblockByTx[tx])
            && st'.pendingSource == st.pendingSource && st'.pendingDestination == st.pendingDestination
            && st'.pendingBoth == st.pendingBoth && st'.selfShard == st.selfShard
  {
    NewMetadataFields(r);
    hide NewMetadata, IndexTxs;
    var marked := MarkInserted(PutMetadata(SaveEpoch(st, r.hash, r.epoch), r.hash, NewMetadata(r)), SlotOf(r));
    IndexTxsKeepsMetadata(marked, r.txHashes, r.hash);
    TxsIndexed(marked, r.txHashes, r.hash);
  }

  /** A recording whose key is in the deduplication cache changes nothing. */
  lemma RecordingTurnedAway(st: Repo, r: Record)
    requires (r.epoch, r.hash) in st.inserted
    ensures RecordMiniblock(st, r) == st
  {
  }

  datatype Miniblock = Miniblock(hash: Hash, miniblockType: int32, sender: uint32, receiver: uint32, txHashes: seq<Hash>)

  function RecordOf(mb: Miniblock, headerHash: Hash, nonce: uint64, round: uint64, epoch: uint32): Record {
    Record(mb.hash, mb.miniblockType, mb.sender, mb.receiver, mb.txHashes, headerHash, nonce, round, epoch)
  }

  /** The miniblocks of a block in order; peer miniblocks are skipped. */
  function RecordMiniblocks(st: Repo, mbs: seq<Miniblock>, headerHash: Hash, nonce: uint64, round: uint64, epoch: uint32): Repo
    decreases |mbs|
  {
    if mbs == [] then st
    else
      var next := if mbs[0].miniblockType == PEER_BLOCK then st
                  else RecordMiniblock(st, RecordOf(mbs[0], headerHash, nonce, round, epoch));
      RecordMiniblocks(next, mbs[1..], headerHash, nonce, round, epoch)
  }

  function RecordBlock(st: Repo, mbs: seq<Miniblock>, headerHash: Hash, nonce: uint64, round: uint64, epoch: uint32): Repo {
    RecordMiniblocks(SaveEpoch(st, headerHash, epoch), mbs, headerHash, nonce, round, epoch)
  }

  // ---------- notifications ----------

  /** A miniblock header seen in a metachain block, for the shard whose block contained it. */
  datatype Notification = Notification(hash: Hash, sender: uint32, receiver: uint32, miniblockType: int32,
                                       containingShard: uint32, note: Note)

  /** Miniblocks within one shard, and those sent to the metachain, are notarized once for both sides. */
  predicate NotarizedAtBoth(sender: uint32, receiver: uint32) {
    sender == receiver || receiver == META_SHARD
  }

  /** The pending map a notification goes to, if any. */
  function Classify(selfShard: uint32, n: Notification): Option<Side> {
    if (n.sender != selfShard && n.receiver != selfShard) || n.miniblockType == PEER_BLOCK then None
    else if NotarizedAtBoth(n.sender, n.receiver) then Some(Both)
    else if n.sender == n.containingShard then Some(Source)
    else if n.receiver == n.containingShard then Some(Destination)
    else None
  }

  function Pending(st: Repo, side: Side): map<Hash, Note> {
    match side
    case Source => st.pendingSource
    case Destination => st.pendingDestination
    case Both => st.pendingBoth
  }

  function WithPending(st: Repo, side: Side, pending: map<Hash, Note>): Repo {
    match side
    case Source => st.(pendingSource := pending)
    case Destination => st.(pendingDestination := pending)
    case Both => st.(pendingBoth := pending)
  }

  function Notify(st: Repo, n: Notification): Repo {
    match Classify(st.selfShard, n)
    case None => st
    case Some(side) => WithPending(st, side, Pending(st, side)[n.hash := n.note])
  }

  /** Everything but the pending maps is the same. */
  predicate SameButPending(st: Repo, st': Repo) {
    && st'.selfShard == st.selfShard && st'.epochByHash == st.epochByHash && st'.metadata == st.metadata
    && st'.miniblockByTx == st.miniblockByTx && st'.inserted == st.inserted
  }

  lemma WithPendingOnlyPending(st: Repo, side: Side, pending: map<Hash, Note>)
    ensures SameButPending(st, WithPending(st, side, pending))
  {
  }

  lemma NotifyOnlyPending(st: Repo, n: Notification)
    ensures SameButPending(st, Notify(st, n))
  {
    hide Classify, WithPending, Pending;
    match Classify(st.selfShard, n)
    case None =>
    case Some(side) => WithPendingOnlyPending(st, side, Pending(st, side)[n.hash := n.note]);
  }

  /**
   A notification by the fields of its header. Not from or to the shard itself, or of a peer
   miniblock: nothing happens. Within one shard or to the metachain: it is pending for both sides.
   Otherwise it is pending for the side of the shard whose block contains it, the sender first.
   */
  lemma NotifyByFields(st: Repo, n: Notification)
    ensures (n.sender != st.selfShard && n.receiver != st.selfShard) || n.miniblockType == 60 ==> Notify(st, n) == st
    ensures (n.sender == st.selfShard || n.receiver == st.selfShard) && n.miniblockType != 60 ==>
              if n.sender == n.receiver || n.receiver == 0xFFFF_FFFF then
                Notify(st, n) == st.(pendingBoth := st.pendingBoth[n.hash := n.note])
              else if n.sender == n.containingShard then
                Notify(st, n) == st.(pendingSource := st.pendingSource[n.hash := n.note])
              else if n.receiver == n.containingShard then
                Notify(st, n) == st.(pendingDestination := st.pendingDestination[n.hash := n.note])
              else Notify(st, n) == st
  {
  }

  datatype MiniblockHeader = MiniblockHeader(hash: Hash, sender: uint32, receiver: uint32, miniblockType: int32)

  function NotificationOf(header: MiniblockHeader, shard: uint32, note: Note): Notification {
    Notification(header.hash, header.sender, header.receiver, header.miniblockType, shard, note)
  }

  function NotifyAll(st: Repo, headers: seq<MiniblockHeader>, shard: uint32, note: Note): Repo
    decreases |headers|
  {
    if headers == [] then st
    else NotifyAll(Notify(st, NotificationOf(headers[0], shard, note)), headers[1..], shard, note)
  }

  // ---------- consuming ----------

  function Patch(side: Side, md: Metadata, n: Note): Metadata {
    match side
    case Source => md.(sourceMetaNonce := n.metaNonce, sourceMetaHash := n.metaHash)
    case Destination => md.(destinationMetaNonce := n.metaNonce, destinationMetaHash := n.metaHash)
    case Both => md.(sourceMetaNonce := n.metaNonce, sourceMetaHash := n.metaHash,
                     destinationMetaNonce := n.metaNonce, destinationMetaHash := n.metaHash)
  }

  /** The body of the consuming loop for one key. */
  function ConsumeKey(st: Repo, side: Side, h: Hash): Repo {
    if h !in Pending(st, side) then st
    else
      match Lookup(st, h)
      case None => st
      case Some(md) =>
        var patched := Patch(side, md, Pending(st, side)[h]);
        WithPending(PutMetadata(st, h, patched), side, Pending(st, side) - {h})
  }

  /** The first half of that body: read the pending notification, patch, put back. */
  function PutPatched(st: Repo, side: Side, h: Hash): Repo
    requires h in Pending(st, side) && Lookup(st, h).Some?
  {
    PutMetadata(st, h, Patch(side, Lookup(st, h).value, Pending(st, side)[h]))
  }

  /** The second half: remove whatever is pending for the key now. */
  function RemovePending(st: Repo, side: Side, h: Hash): Repo {
    WithPending(st, side, Pending(st, side) - {h})
  }

  lemma ConsumeKeyInHalves(st: Repo, side: Side, h: Hash)
    requires h in Pending(st, side) && Lookup(st, h).Some?
    ensures RemovePending(PutPatched(st, side, h), side, h) == ConsumeKey(st, side, h)
    ensures h !in Pending(ConsumeKey(st, side, h), side)
    ensures PutPatched(st, side, h).selfShard == ConsumeKey(st, side, h).selfShard == st.selfShard
  {
    hide Lookup, Patch;
  }

  lemma SidesApart(st: Repo, side: Side, p: map<Hash, Note>, other: Side, q: map<Hash, Note>)
    requires side != other
    ensures WithPending(WithPending(st, other, q), side, p) == WithPending(WithPending(st, side, p), other, q)
    ensures Pending(WithPending(st, other, q), side) == Pending(st, side)
    ensures Pending(WithPending(st, side, p), other) == Pending(st, other)
  {
  }

  lemma SideTwice(st: Repo, side: Side, p: map<Hash, Note>, q: map<Hash, Note>)
    ensures WithPending(WithPending(st, side, p), side, q) == WithPending(st, side, q)
    ensures Pending(WithPending(st, side, p), side) == p
    ensures WithPending(st, side, p).selfShard == st.selfShard
  {
  }

  lemma RemovalAfterOther(st: Repo, side: Side, h: Hash, n: Notification)
    requires !(n.hash == h && Classify(st.selfShard, n) == Some(side))
    ensures RemovePending(Notify(st, n), side, h) == Notify(RemovePending(st, side, h), n)
  {
    hide Classify, WithPending, Pending;
    var removed := Pending(st, side) - {h};
    SideTwice(st, side, removed, removed);
    match Classify(st.selfShard, n)
    case None =>
    case Some(other) =>
      var sent := Pending(st, other)[n.hash := n.note];
      if other == side {
        SideTwice(st, side, sent, sent - {h});
        SideTwice(st, side, removed, removed[n.hash := n.note]);
        assert sent - {h} == removed[n.hash := n.note];
      } else {
        SidesApart(st, side, removed, other, sent);
      }
  }

  lemma RemovalAfterSame(st: Repo, side: Side, h: Hash, n: Notification)
    requires n.hash == h && Classify(st.selfShard, n) == Some(side)
    ensures RemovePending(Notify(st, n), side, h) == RemovePending(st, side, h)
    ensures h in Pending(Notify(st, n), side)
  {
    hide Classify;
    assert Pending(st, side)[h := n.note] - {h} == Pending(st, side) - {h};
  }

  /**
   A notification between the two halves of consuming a key is handled as if it had come after
   both, exactly if it is not for the same key and side; such a one is lost, as if never sent.
   */
  lemma NotificationBetween(st: Repo, side: Side, h: Hash, n: Notification)
    requires h in Pending(st, side) && Lookup(st, h).Some?
    ensures RemovePending(Notify(PutPatched(st, side, h), n), side, h) == Notify(ConsumeKey(st, side, h), n) <==>
            !(n.hash == h && Classify(st.selfShard, n) == Some(side))
    ensures n.hash == h && Classify(st.selfShard, n) == Some(side) ==>
              RemovePending(Notify(PutPatched(st, side, h), n), side, h) == ConsumeKey(st, side, h)
  {
    hide *;
    ConsumeKeyInHalves(st, side, h);
    if n.hash == h && Classify(st.selfShard, n) == Some(side) {
      RemovalAfterSame(PutPatched(st, side, h), side, h, n);
      RemovalAfterSame(ConsumeKey(st, side, h), side, h, n);
    } else {
      RemovalAfterOther(PutPatched(st, side, h), side, h, n);
    }
  }

  /** The slot that a pending notification patches, were its key among `keys`. */
  predicate Patched(st: Repo, side: Side, keys: set<Hash>, slot: Slot) {
    && slot.1 in keys && slot.1 in Pending(st, side)
    && slot.1 in st.epochByHash && st.epochByHash[slot.1] == slot.0
  }

  function PatchedMetadata(st: Repo, side: Side, keys: set<Hash>): map<Slot, Metadata> {
    map slot | slot in st.metadata ::
      if Patched(st, side, keys, slot) then Patch(side, st.metadata[slot], Pending(st, side)[slot.1]) else st.metadata[slot]
  }

  function LeftPending(st: Repo, side: Side, keys: set<Hash>): map<Hash, Note> {
    map h | h in Pending(st, side) && !(h in keys && Lookup(st, h).Some?) :: Pending(st, side)[h]
  }

  /** All slots that the keys lead to are patched at once; keys without stored metadata stay pending. */
  function ConsumeKeys(st: Repo, side: Side, keys: set<Hash>): Repo {
    WithPending(st.(metadata := PatchedMetadata(st, side, keys)), side, LeftPending(st, side, keys))
  }

  function ConsumeSide(st: Repo, side: Side): Repo {
    ConsumeKeys(st, side, Pending(st, side).Keys)
  }

  function Consume(st: Repo): Repo {
    ConsumeSide(ConsumeSide(ConsumeSide(st, Source), Destination), Both)
  }

  /** Index agreement: every slot holds metadata of its own epoch and hash. */
  ghost predicate Agrees(st: Repo) {
    forall slot :: slot in st.metadata ==> st.metadata[slot].epoch == slot.0 && st.metadata[slot].miniblockHash == slot.1
  }

  /** A patch goes back to the slot it was read from and changes only notarization fields. */
  lemma ConsumeKeyIsLocal(st: Repo, side: Side, h: Hash)
    requires Agrees(st) && Lookup(st, h).Some?
    ensures var st', slot := ConsumeKey(st, side, h), (st.epochByHash[h], h);
            && Agrees(st') && st'.metadata.Keys == st.metadata.Keys
            && (forall s :: s in st.metadata && s != slot ==> st'.metadata[s] == st.metadata[s])
            && Unstamped(st'.metadata[slot]) == Unstamped(st.metadata[slot])
  {
    hide Patch, Unstamped, WithPending, Pending;
    if h in Pending(st, side) {
      var md, note := Lookup(st, h).value, Pending(st, side)[h];
      PatchKeepsEpoch(side, md, note);
      WithPendingOnlyPending(PutMetadata(st, h, Patch(side, md, note)), side, Pending(st, side) - {h});
    }
  }

  /** md without its notarization fields. */
  function Unstamped(md: Metadata): Metadata {
    md.(sourceMetaNonce := 0, sourceMetaHash := [], destinationMetaNonce := 0, destinationMetaHash := [])
  }

  lemma PatchOneMore(st: Repo, side: Side, keys: set<Hash>, h: Hash)
    requires h !in keys
    ensures PatchedMetadata(st, side, keys + {h}) ==
            if h in Pending(st, side) && Lookup(st, h).Some?
            then PatchedMetadata(st, side, keys)[(st.epochByHash[h], h) := Patch(side, Lookup(st, h).value, Pending(st, side)[h])]
            else PatchedMetadata(st, side, keys)
  {
    hide Patch, Pending;
  }

  lemma LeaveOneLess(st: Repo, side: Side, keys: set<Hash>, h: Hash)
    ensures LeftPending(st, side, keys + {h}) ==
            if Lookup(st, h).Some? then LeftPending(st, side, keys) - {h} else LeftPending(st, side, keys)
  {
    hide Lookup, Pending;
  }

  lemma LookupWhileConsuming(st: Repo, side: Side, keys: set<Hash>, h: Hash)
    requires Agrees(st) && h !in keys
    ensures Lookup(ConsumeKeys(st, side, keys), h) == Lookup(st, h)
    ensures h in Pending(ConsumeKeys(st, side, keys), side) <==> h in Pending(st, side)
    ensures h in Pending(st, side) ==> Pending(ConsumeKeys(st, side, keys), side)[h] == Pending(st, side)[h]
    ensures Lookup(st, h).Some? ==> Lookup(st, h).value.epoch == st.epochByHash[h]
  {
  }

  lemma RemoveAbsent(m: map<Hash, Note>, h: Hash)
    requires h !in m
    ensures m - {h} == m
  {
  }

  lemma PatchKeepsEpoch(side: Side, md: Metadata, n: Note)
    ensures Patch(side, md, n).epoch == md.epoch && Patch(side, md, n).miniblockHash == md.miniblockHash
    ensures Unstamped(Patch(side, md, n)) == Unstamped(md)
  {
  }

  /** Whatever order the loop visits its keys in, one more key is one more step. */
  lemma ConsumeOneMore(st: Repo, side: Side, keys: set<Hash>, h: Hash)
    requires Agrees(st) && h !in keys
    ensures ConsumeKeys(st, side, keys + {h}) == ConsumeKey(ConsumeKeys(st, side, keys), side, h)
  {
    PatchOneMore(st, side, keys, h);
    LeaveOneLess(st, side, keys, h);
    LookupWhileConsuming(st, side, keys, h);
    if h in Pending(st, side) {
      if Lookup(st, h).Some? {
        PatchKeepsEpoch(side, Lookup(st, h).value, Pending(st, side)[h]);
      }
    } else if h !in LeftPending(st, side, keys) {
      RemoveAbsent(LeftPending(st, side, keys), h);
    }
    hide PatchedMetadata, LeftPending, Patch, Agrees, Lookup;
  }

  lemma ConsumeNothing(st: Repo, side: Side)
    ensures ConsumeKeys(st, side, {}) == st
  {
    var st' := ConsumeKeys(st, side, {});
    assert st'.metadata == st.metadata;
    assert Pending(st', side) == Pending(st, side);
  }

  lemma ConsumeKeepsAgreement(st: Repo, side: Side, keys: set<Hash>)
    requires Agrees(st)
    ensures Agrees(ConsumeKeys(st, side, keys))
  {
  }

  lemma RecordKeepsAgreement(st: Repo, r: Record)
    requires Agrees(st)
    ensures Agrees(RecordMiniblock(st, r))
  {
    var put := PutMetadata(SaveEpoch(st, r.hash, r.epoch), r.hash, NewMetadata(r));
    IndexTxsKeepsMetadata(MarkInserted(put, SlotOf(r)), r.txHashes, r.hash);
  }

  lemma {:induction false} IndexTxsKeepsMetadata(st: Repo, txs: seq<Hash>, h: Hash)
    ensures IndexTxs(st, txs, h) == st.(miniblockByTx := IndexTxs(st, txs, h).miniblockByTx)
    decreases |txs|
  {
    if txs != [] {
      IndexTxsKeepsMetadata(IndexTx(st, txs[0], h), txs[1..], h);
    }
  }
}
