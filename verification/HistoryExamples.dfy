/**
 Concrete runs in which a notification is lost.
 */
module HistoryExamples {
  import opened Machine
  import opened MetadataCodec
  import opened HistoryState
  import opened HistoryRuns
  import opened HistoryTheorems

  lemma ExecNext(selfShard: uint32, run: seq<Event>, ev: Event)
    ensures Exec(selfShard, run + [ev]) == Step(Exec(selfShard, run), ev)
    ensures Legal(selfShard, run + [ev]) == (Legal(selfShard, run) && Enabled(Exec(selfShard, run), ev))
    ensures NoteIn(selfShard, ev, [1], true) == None ==>
              LastNote(selfShard, run + [ev], [1], true) == LastNote(selfShard, run, [1], true)
  {
    assert Front(run + [ev]) == run;
  }

  /** The events of an uninterrupted recording of a miniblock without transactions. */
  function Recording(r: Record): seq<Event> { [StartRecord(r), NextWrite, NextWrite, NextWrite] }

  lemma ExecRecording(selfShard: uint32, run: seq<Event>, r: Record)
    requires r.txHashes == [] && Legal(selfShard, run) && Exec(selfShard, run).progress == None
    requires SlotOf(r) !in Exec(selfShard, run).repo.inserted
    ensures Legal(selfShard, run + Recording(r))
    ensures Exec(selfShard, run + Recording(r)) == World(RecordMiniblock(Exec(selfShard, run).repo, r), None)
    ensures LastNote(selfShard, run + Recording(r), [1], true) == LastNote(selfShard, run, [1], true)
  {
    var run1 := run + [StartRecord(r)];
    var run2 := run1 + [NextWrite];
    var run3 := run2 + [NextWrite];
    assert run + Recording(r) == run3 + [NextWrite];
    ExecNext(selfShard, run, StartRecord(r));
    ExecNext(selfShard, run1, NextWrite);
    ExecNext(selfShard, run2, NextWrite);
    ExecNext(selfShard, run3, NextWrite);
    hide Exec, Legal, LastNote, NewMetadata;
  }

  const FIRST := Record([1], 0, 0, 1, [], [9], 1, 1, 0)
  const NOTICE := NotifyMiniblock(Notification([1], 0, 1, 0, 0, Note(7, [5])))

  /** Recorded in epoch 0, notified, consumed. */
  function SettledRun(): seq<Event> { Recording(FIRST) + [NOTICE] + [ConsumePending] }

  lemma FirstStored()
    ensures var st := RecordMiniblock(EmptyRepo(0), FIRST);
            && Lookup(st, [1]) == Some(NewMetadata(FIRST)) && st.inserted == {(0, [1])} && st.selfShard == 0
            && st.pendingSource == map[] && st.pendingDestination == map[] && st.pendingBoth == map[]
  {
    EffectiveRecording(EmptyRepo(0), FIRST);
    hide NewMetadata, Lookup;
  }

  lemma NoticeConsumed(st: Repo, md: Metadata)
    requires Lookup(st, [1]) == Some(md) && st.selfShard == 0
    requires st.pendingSource == map[] && st.pendingDestination == map[] && st.pendingBoth == map[]
    ensures var st' := Consume(Notify(st, NOTICE.notification));
            && Lookup(st', [1]) == Some(Patch(Source, md, Note(7, [5]))) && st'.inserted == st.inserted
            && st'.pendingSource == map[] && st'.pendingDestination == map[] && st'.pendingBoth == map[]
  {
    hide Patch;
    var st1 := Notify(st, NOTICE.notification);
    assert st1 == st.(pendingSource := map[[1] := Note(7, [5])]);
    var st2 := ConsumeSide(st1, Source);
    SideAfterConsume(st1, Source, [1]);
    assert st2.pendingSource == map[];
    ConsumeNothing(st2, Destination);
    ConsumeNothing(st2, Both);
    assert st2.pendingDestination.Keys == {} && st2.pendingBoth.Keys == {};
  }

  lemma ExecSettledRun()
    ensures Legal(0, SettledRun()) && Exec(0, SettledRun()).progress == None
    ensures LastNote(0, SettledRun(), [1], true) == Some(Note(7, [5]))
    ensures var st := Exec(0, SettledRun()).repo;
            && Lookup(st, [1]) == Some(Patch(Source, NewMetadata(FIRST), Note(7, [5])))
            && st.inserted == {(0, [1])} && st.pendingSource == map[] && st.pendingDestination == map[] && st.pendingBoth == map[]
  {
    NothingRun();
    hide Recording, Legal, Exec, RecordMiniblock, NewMetadata, Lookup, Consume, Notify, Patch, LastNote, NoteIn, EmptyRepo;
    assert [] + Recording(FIRST) == Recording(FIRST);
    FirstStored();
    ExecRecording(0, [], FIRST);
    ExecNext(0, Recording(FIRST), NOTICE);
    ExecNext(0, Recording(FIRST) + [NOTICE], ConsumePending);
    NoticeIsLast(Recording(FIRST));
    NoticeConsumed(RecordMiniblock(EmptyRepo(0), FIRST), NewMetadata(FIRST));
  }

  lemma NothingRun()
    ensures Legal(0, []) && Exec(0, []) == World(EmptyRepo(0), None) && EmptyRepo(0).inserted == {}
  {
  }

  lemma NoticeIsLast(run: seq<Event>)
    ensures LastNote(0, run + [NOTICE], [1], true) == Some(Note(7, [5]))
    ensures NoteIn(0, ConsumePending, [1], true) == None
  {
    assert Last(run + [NOTICE]) == NOTICE;
  }

  /** Events about the one miniblock only. */
  predicate AboutOne(ev: Event) {
    && !ev.SaveHeaderEpoch?
    && (ev.NotifyMiniblock? ==> ev == NOTICE)
    && (ev.StartRecord? ==> ev.record.hash == [1])
  }

  lemma AboutOneMeetsOtherHypotheses(run: seq<Event>)
    requires forall ev :: ev in run ==> AboutOne(ev)
    ensures FixedRoute(run, [1], (0, 1)) && HeadersApart(run, [1])
    ensures (forall ev :: ev in run && ev.StartRecord? ==> ev.record.epoch == 0) ==> OneEpoch(run, [1], 0)
    ensures (forall ev :: ev in run ==> !ev.EvictKey?) ==> EvictedOnlyWhenDone(run, [1])
  {
    forall i | 0 <= i < |run|
      ensures AboutOne(run[i])
    {
      assert run[i] in run;
    }
  }

  lemma RecordedAfterEviction(run: seq<Event>, r: Record)
    ensures !EvictedOnlyWhenDone(run + [EvictKey(SlotOf(r))] + Recording(r), r.hash)
  {
    var all := run + [EvictKey(SlotOf(r))] + Recording(r);
    assert all[|run|] == EvictKey(SlotOf(r)) && all[|run| + 1] == StartRecord(r);
  }

  lemma SettledRunIsAboutOne()
    ensures forall ev :: ev in SettledRun() ==> AboutOne(ev) && !ev.EvictKey? && (ev.StartRecord? ==> ev.record.epoch == 0)
  {
  }

  lemma EvictedRunIsAboutOne()
    ensures var run := SettledRun() + [EvictKey((0, [1]))] + Recording(FIRST);
            OneEpoch(run, [1], 0) && FixedRoute(run, [1], (0, 1)) && HeadersApart(run, [1]) && !EvictedOnlyWhenDone(run, [1])
  {
    assert forall ev :: ev in Recording(FIRST) ==> AboutOne(ev) && (ev.StartRecord? ==> ev.record.epoch == 0);
    SettledRunIsAboutOne();
    hide SettledRun, Recording, OneEpoch, FixedRoute, HeadersApart, EvictedOnlyWhenDone;
    AboutOneMeetsOtherHypotheses(SettledRun() + [EvictKey((0, [1]))] + Recording(FIRST));
    RecordedAfterEviction(SettledRun(), FIRST);
  }

  lemma LaterRunIsAboutOne()
    ensures var run := SettledRun() + Recording(FIRST.(epoch := 1));
            FixedRoute(run, [1], (0, 1)) && HeadersApart(run, [1]) && EvictedOnlyWhenDone(run, [1])
  {
    assert forall ev :: ev in Recording(FIRST.(epoch := 1)) ==> AboutOne(ev) && !ev.EvictKey?;
    SettledRunIsAboutOne();
    hide SettledRun, Recording, FixedRoute, HeadersApart, EvictedOnlyWhenDone;
    AboutOneMeetsOtherHypotheses(SettledRun() + Recording(FIRST.(epoch := 1)));
  }

  /**
   A key evicted too early: recording the miniblock again erases its notarization, although it
   was the last notification sent.
   */
  lemma EvictionErasesNotarization()
    ensures var run := SettledRun() + [EvictKey((0, [1]))] + Recording(FIRST);
            && Legal(0, run) && Exec(0, run).progress == None
            && OneEpoch(run, [1], 0) && FixedRoute(run, [1], (0, 1)) && HeadersApart(run, [1]) && !EvictedOnlyWhenDone(run, [1])
            && LastNote(0, run, [1], true) == Some(Note(7, [5]))
            && Lookup(Consume(Exec(0, run).repo), [1]) == Some(NewMetadata(FIRST))
  {
    EvictedRunIsAboutOne();
    hide SettledRun, Recording, OneEpoch, FixedRoute, HeadersApart, EvictedOnlyWhenDone, Exec, Legal, LastNote, NewMetadata,
      RecordMiniblock, Consume, Lookup;
    var evicted := SettledRun() + [EvictKey((0, [1]))];
    ExecSettledRun();
    ExecNext(0, SettledRun(), EvictKey((0, [1])));
    ExecRecording(0, evicted, FIRST);
    RecordingErases(Exec(0, evicted).repo, FIRST);
  }

  /**
   A miniblock that a fork recorded in one epoch and the canonical chain in the next: it is looked
   up in the later epoch, where its notarization is missing.
   */
  lemma LaterEpochLosesNotarization()
    ensures var later := FIRST.(epoch := 1);
            var run := SettledRun() + Recording(later);
            && Legal(0, run) && Exec(0, run).progress == None
            && FixedRoute(run, [1], (0, 1)) && HeadersApart(run, [1]) && EvictedOnlyWhenDone(run, [1])
            && LastNote(0, run, [1], true) == Some(Note(7, [5]))
            && Lookup(Consume(Exec(0, run).repo), [1]) == Some(NewMetadata(later))
  {
    LaterRunIsAboutOne();
    hide SettledRun, Recording, FixedRoute, HeadersApart, EvictedOnlyWhenDone, Exec, Legal, LastNote, NewMetadata,
      RecordMiniblock, Consume, Lookup;
    var later := FIRST.(epoch := 1);
    ExecSettledRun();
    ExecRecording(0, SettledRun(), later);
    RecordingErases(Exec(0, SettledRun()).repo, later);
  }

  /** Whatever was stored, an effective recording with nothing pending leaves zero notarization fields. */
  lemma RecordingErases(st: Repo, r: Record)
    requires SlotOf(r) !in st.inserted && r.txHashes == []
    requires st.pendingSource == map[] && st.pendingDestination == map[] && st.pendingBoth == map[]
    ensures Lookup(Consume(RecordMiniblock(st, r)), r.hash) == Some(NewMetadata(r))
  {
    var st' := RecordMiniblock(st, r);
    ConsumeNothing(st', Source);
    ConsumeNothing(st', Destination);
    ConsumeNothing(st', Both);
    assert st'.pendingSource.Keys == {} && st'.pendingDestination.Keys == {} && st'.pendingBoth.Keys == {};
  }
}
