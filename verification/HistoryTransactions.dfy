/**
 The indexes agree in every run, and indexed transactions stay findable.
 */
module HistoryTransactions {
  import opened Machine
  import opened Chain
  import opened HistoryState
  import opened HistoryRuns
  import opened HistoryTheorems

  // ---------- index agreement ----------

  lemma PassKeepsAgreement(st: Repo)
    requires Agrees(st)
    ensures Agrees(Consume(st))
  {
    hide Agrees, ConsumeKeys;
    var st1 := ConsumeSide(st, Source);
    var st2 := ConsumeSide(st1, Destination);
    ConsumeKeepsAgreement(st, Source, Pending(st, Source).Keys);
    ConsumeKeepsAgreement(st1, Destination, Pending(st1, Destination).Keys);
    ConsumeKeepsAgreement(st2, Both, Pending(st2, Both).Keys);
  }

  lemma StepKeepsAgreement(m: World, ev: Event)
    requires Agrees(m.repo)
    ensures Agrees(Step(m, ev).repo)
  {
    hide Consume, Notify, Write;
    match ev
    case ConsumePending => hide Agrees; PassKeepsAgreement(m.repo);
    case NotifyMiniblock(n) => NotifyOnlyPending(m.repo, n);
    case NextWrite => WriteKeepsAgreement(m);
    case _ =>
  }

  lemma WriteKeepsAgreement(m: World)
    requires Agrees(m.repo)
    ensures Agrees(Write(m).repo)
  {
    hide NewMetadata;
    if m.progress.Some? {
      NewMetadataBelongs(m.progress.value.record);
    }
  }

  /** Index agreement holds in every run, with evictions and recordings in later epochs. */
  lemma {:induction false} AgreementAlways(selfShard: uint32, run: seq<Event>)
    ensures Agrees(Exec(selfShard, run).repo)
  {
    if run != [] {
      hide Agrees, Step;
      AgreementAlways(selfShard, Front(run));
      StepKeepsAgreement(Exec(selfShard, Front(run)), Last(run));
    } else {
      assert Exec(selfShard, run).repo.metadata == map[];
    }
  }

  // ---------- transactions ----------

  ghost predicate HasSlot(m: World, h: Hash) {
    exists s: Slot :: s in m.repo.metadata && s.1 == h
  }

  /** h can be looked up, unless it is being recorded again and the new metadata is not stored yet. */
  ghost predicate Findable(m: World, h: Hash) {
    && (HasSlot(m, h) && !(Busy(m, h) && m.progress.value.stage == ToPut) ==> Lookup(m.repo, h).Some?)
    && (Busy(m, h) ==>
        && h in m.repo.epochByHash && m.repo.epochByHash[h] == m.progress.value.record.epoch
        && (m.progress.value.stage != ToPut ==> SlotOf(m.progress.value.record) in m.repo.metadata))
  }

  /** `known` says that a recording of h was attempted. */
  ghost predicate Indexed(known: bool, m: World, h: Hash) {
    && Findable(m, h)
    && (HasSlot(m, h) || Busy(m, h) ==> known)
    && (forall tx :: tx in m.repo.miniblockByTx && m.repo.miniblockByTx[tx] == h ==> HasSlot(m, h))
  }

  lemma SlotsDecide(m: World, m': World, h: Hash)
    requires forall s: Slot :: s.1 == h ==> (s in m.repo.metadata <==> s in m'.repo.metadata)
    ensures HasSlot(m', h) == HasSlot(m, h)
    ensures m'.repo.epochByHash == m.repo.epochByHash ==> Lookup(m'.repo, h).Some? == Lookup(m.repo, h).Some?
  {
    if HasSlot(m, h) {
      var s :| s in m.repo.metadata && s.1 == h;
      assert s in m'.repo.metadata;
    }
    if HasSlot(m', h) {
      var s :| s in m'.repo.metadata && s.1 == h;
      assert s in m.repo.metadata;
    }
    if h in m.repo.epochByHash {
      var s := (m.repo.epochByHash[h], h);
      assert s in m.repo.metadata <==> s in m'.repo.metadata;
    }
  }

  /** Notifications, consume passes and evictions store no new slot and touch no index. */
  lemma QuietStepKeepsIndexed(known: bool, m: World, m': World, h: Hash)
    requires Indexed(known, m, h)
    requires m'.repo.metadata.Keys == m.repo.metadata.Keys && m'.progress == m.progress
    requires m'.repo.epochByHash == m.repo.epochByHash && m'.repo.miniblockByTx == m.repo.miniblockByTx
    ensures Indexed(known, m', h)
  {
    forall s: Slot | s.1 == h
      ensures s in m.repo.metadata <==> s in m'.repo.metadata
    {
      assert s in m.repo.metadata.Keys <==> s in m'.repo.metadata.Keys;
    }
    SlotsDecide(m, m', h);
    hide HasSlot, Lookup;
    if Busy(m, h) {
      assert SlotOf(m.progress.value.record) in m.repo.metadata.Keys <==> SlotOf(m.progress.value.record) in m'.repo.metadata.Keys;
    }
  }

  lemma PutKeepsIndexed(known: bool, m: World, r: Record, h: Hash)
    requires Indexed(known, m, h) && m.progress == Some(Progress(r, ToPut))
    ensures Indexed(known, Write(m), h)
  {
    var m' := Write(m);
    assert NewMetadata(r).epoch == r.epoch;
    if r.hash == h {
      assert SlotOf(r) in m'.repo.metadata && HasSlot(m', h);
    } else {
      SlotsDecide(m, m', h);
    }
  }

  lemma LaterWriteKeepsIndexed(known: bool, m: World, h: Hash)
    requires Indexed(known, m, h) && m.progress.Some? && m.progress.value.stage != ToPut
    ensures Indexed(known, Write(m), h)
  {
    SlotsDecide(m, Write(m), h);
    var r := m.progress.value.record;
    if r.hash == h {
      assert SlotOf(r) in m.repo.metadata && HasSlot(m, h);
    }
    hide HasSlot, Lookup, NewMetadata;
  }

  lemma StartKeepsIndexed(known: bool, m: World, r: Record, h: Hash)
    requires Indexed(known, m, h) && m.progress == None
    ensures Indexed(known || r.hash == h, Start(m, r), h)
  {
    SlotsDecide(m, Start(m, r), h);
    hide HasSlot;
  }

  lemma HeaderKeepsIndexed(known: bool, m: World, header: Hash, epoch: uint32, h: Hash)
    requires Indexed(known, m, h) && m.progress == None && (known ==> header != h)
    ensures Indexed(known, Step(m, SaveHeaderEpoch(header, epoch)), h)
  {
    SlotsDecide(m, Step(m, SaveHeaderEpoch(header, epoch)), h);
    hide HasSlot;
  }

  lemma ConsumeKeepsSlots(st: Repo)
    ensures var st' := Consume(st);
            st'.metadata.Keys == st.metadata.Keys && st'.epochByHash == st.epochByHash && st'.miniblockByTx == st.miniblockByTx
  {
    hide LeftPending, Patched, Patch;
  }

  lemma StepKeepsIndexed(known: bool, m: World, ev: Event, h: Hash)
    requires Indexed(known, m, h) && Enabled(m, ev)
    requires ev.SaveHeaderEpoch? && known ==> ev.headerHash != h
    ensures Indexed(known || (ev.StartRecord? && ev.record.hash == h), Step(m, ev), h)
  {
    hide Indexed, Start, Write, Notify, Consume;
    match ev
    case SaveHeaderEpoch(header, epoch) => HeaderKeepsIndexed(known, m, header, epoch, h);
    case StartRecord(r) => StartKeepsIndexed(known, m, r, h);
    case NextWrite => WriteKeepsIndexed(known, m, h);
    case NotifyMiniblock(n) =>
      NotifyOnlyPending(m.repo, n);
      QuietStepKeepsIndexed(known, m, Step(m, ev), h);
    case ConsumePending =>
      ConsumeKeepsSlots(m.repo);
      QuietStepKeepsIndexed(known, m, Step(m, ev), h);
    case EvictKey(_) => QuietStepKeepsIndexed(known, m, Step(m, ev), h);
  }

  lemma WriteKeepsIndexed(known: bool, m: World, h: Hash)
    requires Indexed(known, m, h)
    ensures Indexed(known, Write(m), h)
  {
    hide Indexed;
    if m.progress == None {
      assert Write(m) == m;
    } else {
      hide Write;
      if m.progress.value.stage == ToPut {
        PutKeepsIndexed(known, m, m.progress.value.record, h);
      } else {
        LaterWriteKeepsIndexed(known, m, h);
      }
    }
  }

  lemma {:induction false} IndexedAlways(selfShard: uint32, run: seq<Event>, h: Hash)
    requires Legal(selfShard, run) && HeadersApart(run, h)
    ensures Indexed(FirstRecord(run, h).Some?, Exec(selfShard, run), h)
    decreases |run|
  {
    if run != [] {
      if FirstRecord(Front(run), h).Some? {
        var j := FirstRecordIndex(Front(run), h);
        assert run[j].StartRecord? && run[j].record.hash == h;
      }
      assert HeadersApart(Front(run), h);
      hide HeadersApart, Indexed, Step, Enabled;
      IndexedAlways(selfShard, Front(run), h);
      StepKeepsIndexed(FirstRecord(Front(run), h).Some?, Exec(selfShard, Front(run)), Last(run), h);
    }
  }

  // ---------- which miniblock a transaction leads to ----------

  /** The hash of the last effective recording whose transactions include tx. */
  function LastIndexed(selfShard: uint32, run: seq<Event>, tx: Hash): Option<Hash> {
    if run == [] then None
    else NextIndexed(LastIndexed(selfShard, Front(run), tx), Exec(selfShard, Front(run)), Last(run), tx)
  }

  function NextIndexed(indexed: Option<Hash>, m: World, ev: Event, tx: Hash): Option<Hash> {
    match ev
    case StartRecord(r) => if tx in r.txHashes && (r.epoch, r.hash) !in m.repo.inserted then Some(r.hash) else indexed
    case _ => indexed
  }

  function Entry(m: World, tx: Hash): Option<Hash> {
    if tx in m.repo.miniblockByTx then Some(m.repo.miniblockByTx[tx]) else None
  }

  /** While the transactions of a recording are indexed one by one, those not reached yet may lag behind. */
  predicate TxTracked(indexed: Option<Hash>, m: World, tx: Hash) {
    match m.progress
    case None => Entry(m, tx) == indexed
    case Some(Progress(r, stage)) =>
      if tx !in r.txHashes then Entry(m, tx) == indexed
      else
        && indexed == Some(r.hash)
        && (stage.ToIndex? ==> stage.k <= |r.txHashes| && (tx in r.txHashes[..stage.k] ==> Entry(m, tx) == indexed))
  }

  lemma WriteKeepsTxTracked(indexed: Option<Hash>, m: World, tx: Hash)
    requires TxTracked(indexed, m, tx)
    ensures TxTracked(indexed, Write(m), tx)
  {
    hide NewMetadata;
    if m.progress.Some? && m.progress.value.stage.ToIndex? {
      var r, k := m.progress.value.record, m.progress.value.stage.k;
      if k < |r.txHashes| {
        assert r.txHashes[..k + 1] == r.txHashes[..k] + [r.txHashes[k]];
      } else if tx in r.txHashes {
        assert r.txHashes[..k] == r.txHashes;
      }
    }
  }

  lemma StepKeepsTxTracked(indexed: Option<Hash>, m: World, ev: Event, tx: Hash)
    requires TxTracked(indexed, m, tx) && Enabled(m, ev)
    ensures TxTracked(NextIndexed(indexed, m, ev, tx), Step(m, ev), tx)
  {
    hide Write, Notify, Consume;
    match ev
    case NextWrite => hide TxTracked; WriteKeepsTxTracked(indexed, m, tx);
    case NotifyMiniblock(n) => NotifyOnlyPending(m.repo, n);
    case ConsumePending => ConsumeKeepsSlots(m.repo);
    case _ =>
  }

  lemma {:induction false} TxTrackedAlways(selfShard: uint32, run: seq<Event>, tx: Hash)
    requires Legal(selfShard, run)
    ensures TxTracked(LastIndexed(selfShard, run, tx), Exec(selfShard, run), tx)
    decreases |run|
  {
    if run != [] {
      hide TxTracked, Step, Enabled, NextIndexed;
      TxTrackedAlways(selfShard, Front(run), tx);
      StepKeepsTxTracked(LastIndexed(selfShard, Front(run), tx), Exec(selfShard, Front(run)), Last(run), tx);
    }
  }

  /**
   In every run that ends with no recording in progress, a transaction leads to the miniblock of
   the last effective recording that holds it, and to none if there is no such recording.
   */
  lemma TransactionsIndexed(selfShard: uint32, run: seq<Event>, tx: Hash)
    requires Legal(selfShard, run) && Exec(selfShard, run).progress == None
    ensures var index := Exec(selfShard, run).repo.miniblockByTx;
            match LastIndexed(selfShard, run, tx)
            case Some(h) => tx in index && index[tx] == h
            case None => tx !in index
  {
    TxTrackedAlways(selfShard, run, tx);
    hide Exec, Legal, LastIndexed;
  }

  /**
   In every run, with evictions and recordings in later epochs: an indexed transaction leads to
   the metadata of its miniblock, stored under the miniblock's latest epoch, except while that
   very miniblock is being recorded again and its new metadata is not stored yet.
   */
  lemma TransactionsStayFindable(selfShard: uint32, run: seq<Event>, tx: Hash)
    requires Legal(selfShard, run) && tx in Exec(selfShard, run).repo.miniblockByTx
    requires HeadersApart(run, Exec(selfShard, run).repo.miniblockByTx[tx])
    ensures var m := Exec(selfShard, run);
            var h := m.repo.miniblockByTx[tx];
            && (!(Busy(m, h) && m.progress.value.stage == ToPut) ==> LookupByTx(m.repo, tx).Some?)
            && (LookupByTx(m.repo, tx).Some? ==>
                && LookupByTx(m.repo, tx).value.miniblockHash == h
                && LookupByTx(m.repo, tx).value.epoch == m.repo.epochByHash[h])
            && (m.progress == None ==> LastIndexed(selfShard, run, tx) == Some(h))
  {
    TxTrackedAlways(selfShard, run, tx);
    IndexedAlways(selfShard, run, Exec(selfShard, run).repo.miniblockByTx[tx]);
    AgreementAlways(selfShard, run);
    hide Exec, Legal, HeadersApart, HasSlot, LastIndexed;
  }

  lemma {:induction false} IndexedWasRecorded(selfShard: uint32, run: seq<Event>, tx: Hash)
    requires LastIndexed(selfShard, run, tx).Some?
    ensures LastRecorded(selfShard, run, LastIndexed(selfShard, run, tx).value).Some?
  {
    hide Exec;
    if LastIndexed(selfShard, run, tx) == LastIndexed(selfShard, Front(run), tx) {
      IndexedWasRecorded(selfShard, Front(run), tx);
    }
  }

  /**
   From a transaction to its final metadata: after a final consume, a transaction that some
   effective recording holds shows the last such miniblock, as it was recorded last, with the
   notifications that were not erased; any other transaction shows nothing.
   */
  lemma FinalTransaction(selfShard: uint32, run: seq<Event>, tx: Hash, route: (uint32, uint32))
    requires Legal(selfShard, run) && Exec(selfShard, run).progress == None
    requires LastIndexed(selfShard, run, tx).Some? ==>
               var h := LastIndexed(selfShard, run, tx).value;
               FixedRoute(run, h, route) && HeadersApart(run, h)
    ensures var shown := LookupByTx(Consume(Exec(selfShard, run).repo), tx);
            match LastIndexed(selfShard, run, tx)
            case None => shown == None
            case Some(h) =>
              && LastRecorded(selfShard, run, h).Some?
              && shown == Some(Stamped(NewMetadata(LastRecorded(selfShard, run, h).value),
                                       Kept(selfShard, run, h, true), Kept(selfShard, run, h, false)))
  {
    ConsumeKeepsSlots(Exec(selfShard, run).repo);
    hide Exec, Consume, Legal, LastIndexed, LastRecorded, FixedRoute, HeadersApart, Stamped, NewMetadata, Kept, Lookup;
    TransactionsIndexed(selfShard, run, tx);
    if LastIndexed(selfShard, run, tx).Some? {
      IndexedWasRecorded(selfShard, run, tx);
      FinalMetadata(selfShard, run, LastIndexed(selfShard, run, tx).value, route);
    }
  }
}
