/**
 What every run of the history repository ends with, which notifications it loses, and when the
 interleaving of its steps matters.
 */
module HistoryTheorems {
  import opened Machine
  import opened Chain
  import opened MetadataCodec
  import opened HistoryState
  import opened HistoryRuns
  import opened HistoryFates
  import opened HistoryTracking

  /**
   Nothing is dropped silently: in every reachable state the last notification for each side of
   h is pending, or a lookup shows it, or it was erased and a lookup shows zeros; only while new
   metadata of h is about to be stored, a lookup may show something else. Before h is recorded
   for the first time, every notification is pending. No hash is pending for both sides and for one.
   */
  lemma NothingDropped(selfShard: uint32, run: seq<Event>, h: Hash, route: (uint32, uint32))
    requires Legal(selfShard, run) && FixedRoute(run, h, route) && HeadersApart(run, h)
    ensures var m := Exec(selfShard, run);
            var source, destination := LastNote(selfShard, run, h, true), LastNote(selfShard, run, h, false);
            && (h in m.repo.pendingSource ==> source == Some(m.repo.pendingSource[h]))
            && (h in m.repo.pendingDestination ==> destination == Some(m.repo.pendingDestination[h]))
            && (h in m.repo.pendingBoth ==> source == destination == Some(m.repo.pendingBoth[h]))
            && (h in m.repo.pendingBoth ==> h !in m.repo.pendingSource && h !in m.repo.pendingDestination)
            && (LastRecorded(selfShard, run, h) == None ==>
                && (source.Some? ==> h in m.repo.pendingSource || h in m.repo.pendingBoth)
                && (destination.Some? ==> h in m.repo.pendingDestination || h in m.repo.pendingBoth))
            && (LastRecorded(selfShard, run, h).Some? && !InWindow(m, h) ==>
                && Lookup(m.repo, h).Some?
                && (h !in m.repo.pendingSource && h !in m.repo.pendingBoth ==>
                    SourceNote(Lookup(m.repo, h).value) == NoteOrZero(Kept(selfShard, run, h, true)))
                && (h !in m.repo.pendingDestination && h !in m.repo.pendingBoth ==>
                    DestinationNote(Lookup(m.repo, h).value) == NoteOrZero(Kept(selfShard, run, h, false))))
  {
    TrackedAlways(selfShard, run, h, route);
    FateTold(selfShard, run, h, true);
    FateTold(selfShard, run, h, false);
    hide Exec, LastRecorded, FateOf, LastNote, Consumed, Erased, Legal, FixedRoute, HeadersApart, NewMetadata, Unstamped;
  }

  lemma ConsumedAndShown(f: Facts, m: World, h: Hash, both: bool)
    requires Tracked(f, m, h, both) && m.progress == None && f.recorded.Some?
    ensures var st := Consume(m.repo);
            && h !in st.pendingSource && h !in st.pendingDestination && h !in st.pendingBoth
            && Lookup(st, h).Some? && Shows(Facts(f.recorded, Settle(f.source), Settle(f.destination)), Lookup(st, h).value)
  {
    hide Consume, NewMetadata, Unstamped;
    ConsumeKeepsTracked(f, m, h, both);
    ObserveConsume(f, m, h);
    ConsumeKeepsProgress(m);
  }

  lemma ConsumeKeepsProgress(m: World)
    ensures Step(m, ConsumePending).progress == m.progress
  {
  }

  lemma ObserveConsume(f: Facts, m: World, h: Hash)
    requires Lookup(m.repo, h).Some?
    ensures Observe(f, m, ConsumePending, h) == Facts(f.recorded, Settle(f.source), Settle(f.destination))
  {
  }

  lemma StampedFrom(md: Metadata, base: Metadata, source: Option<Note>, destination: Option<Note>)
    requires Unstamped(md) == base == Unstamped(base)
    requires SourceNote(md) == NoteOrZero(source) && DestinationNote(md) == NoteOrZero(destination)
    ensures md == Stamped(base, source, destination)
  {
  }

  /** After a final consume, a note is shown unless it was erased. */
  lemma KeptIsShown(selfShard: uint32, run: seq<Event>, h: Hash, atSource: bool)
    ensures Shown(Settle(FateOf(selfShard, run, h, atSource))) == NoteOrZero(Kept(selfShard, run, h, atSource))
  {
    FateTold(selfShard, run, h, atSource);
    hide FateOf, LastNote, Consumed, Erased;
  }

  /**
   After a final consume, however recordings, notifications, consume passes and evictions were
   interleaved, every recorded miniblock shows the recording that took effect last, stamped with
   the last notification for each side unless that was erased, with zeros otherwise; and nothing
   is pending for it.
   */
  lemma FinalMetadata(selfShard: uint32, run: seq<Event>, h: Hash, route: (uint32, uint32))
    requires Legal(selfShard, run) && FixedRoute(run, h, route) && HeadersApart(run, h)
    requires Exec(selfShard, run).progress == None && LastRecorded(selfShard, run, h).Some?
    ensures var st := Consume(Exec(selfShard, run).repo);
            && Lookup(st, h) == Some(Stamped(NewMetadata(LastRecorded(selfShard, run, h).value),
                                             Kept(selfShard, run, h, true), Kept(selfShard, run, h, false)))
            && h !in st.pendingSource && h !in st.pendingDestination && h !in st.pendingBoth
    ensures var md, r := Lookup(Consume(Exec(selfShard, run).repo), h).value, LastRecorded(selfShard, run, h).value;
            var source, destination := NoteOrZero(Kept(selfShard, run, h, true)), NoteOrZero(Kept(selfShard, run, h, false));
            && md.sourceShardID == r.sender && md.destinationShardID == r.receiver && md.miniblockType == r.miniblockType
            && md.round == r.round && md.headerNonce == r.nonce && md.headerHash == r.headerHash
            && md.miniblockHash == r.hash == h && md.epoch == r.epoch && md.deprecatedStatus == []
            && md.sourceMetaNonce == source.metaNonce && md.sourceMetaHash == source.metaHash
            && md.destinationMetaNonce == destination.metaNonce && md.destinationMetaHash == destination.metaHash
  {
    NewMetadataFields(LastRecorded(selfShard, run, h).value);
    hide Exec, LastRecorded, LastNote, FateOf, Legal, FixedRoute, HeadersApart, Stamped, Consume, NewMetadata, Kept, Tracked;
    TrackedAlways(selfShard, run, h, route);
    var f, m := FactsOf(selfShard, run, h), Exec(selfShard, run);
    ConsumedAndShown(f, m, h, IsBoth(route));
    KeptIsShown(selfShard, run, h, true);
    KeptIsShown(selfShard, run, h, false);
    NewEpoch(f.recorded.value);
    hide Lookup;
    StampedFrom(Lookup(Consume(m.repo), h).value, NewMetadata(f.recorded.value),
                Kept(selfShard, run, h, true), Kept(selfShard, run, h, false));
  }

  /** When the last notifications are shown in the end: exactly when they were not erased, or hold nothing but zeros. */
  lemma LastNotificationShown(selfShard: uint32, run: seq<Event>, h: Hash, route: (uint32, uint32))
    requires Legal(selfShard, run) && FixedRoute(run, h, route) && HeadersApart(run, h)
    requires Exec(selfShard, run).progress == None && LastRecorded(selfShard, run, h).Some?
    ensures var source, destination := LastNote(selfShard, run, h, true), LastNote(selfShard, run, h, false);
            var shown := Lookup(Consume(Exec(selfShard, run).repo), h);
            && shown.Some?
            && (SourceNote(shown.value) == NoteOrZero(source) <==>
                !Erased(selfShard, run, h, true) || source == Some(Note(0, [])))
            && (DestinationNote(shown.value) == NoteOrZero(destination) <==>
                !Erased(selfShard, run, h, false) || destination == Some(Note(0, [])))
  {
    hide Exec, LastRecorded, LastNote, Legal, FixedRoute, HeadersApart, Consume, Lookup, NewMetadata;
    FinalMetadata(selfShard, run, h, route);
    ErasedWasSent(selfShard, run, h);
    hide Erased;
  }

  lemma ErasedWasSent(selfShard: uint32, run: seq<Event>, h: Hash)
    ensures Erased(selfShard, run, h, true) ==> LastNote(selfShard, run, h, true).Some?
    ensures Erased(selfShard, run, h, false) ==> LastNote(selfShard, run, h, false).Some?
  {
  }

  /** Two runs either both erase the last note of one side, or neither does, or it holds nothing but zeros. */
  ghost predicate SameLoss(selfShard: uint32, run: seq<Event>, run': seq<Event>, h: Hash, atSource: bool) {
    || Erased(selfShard, run, h, atSource) == Erased(selfShard, run', h, atSource)
    || LastNote(selfShard, run, h, atSource) == Some(Note(0, []))
  }

  /**
   Two runs with the same last effective recording and the same last notifications end with the
   same metadata exactly if they erase the same notifications; nothing else in their
   interleaving matters.
   */
  lemma InterleavingMatters(selfShard: uint32, run: seq<Event>, run': seq<Event>, h: Hash, route: (uint32, uint32))
    requires Legal(selfShard, run) && FixedRoute(run, h, route) && HeadersApart(run, h)
    requires Legal(selfShard, run') && FixedRoute(run', h, route) && HeadersApart(run', h)
    requires Exec(selfShard, run).progress == None && Exec(selfShard, run').progress == None
    requires LastRecorded(selfShard, run, h).Some? && LastRecorded(selfShard, run, h) == LastRecorded(selfShard, run', h)
    requires LastNote(selfShard, run, h, true) == LastNote(selfShard, run', h, true)
    requires LastNote(selfShard, run, h, false) == LastNote(selfShard, run', h, false)
    ensures Lookup(Consume(Exec(selfShard, run).repo), h) == Lookup(Consume(Exec(selfShard, run').repo), h) <==>
            SameLoss(selfShard, run, run', h, true) && SameLoss(selfShard, run, run', h, false)
  {
    hide Exec, LastRecorded, LastNote, Legal, FixedRoute, HeadersApart, Consume, Lookup, NewMetadata;
    FinalMetadata(selfShard, run, h, route);
    FinalMetadata(selfShard, run', h, route);
    ErasedWasSent(selfShard, run, h);
    ErasedWasSent(selfShard, run', h);
    hide Erased;
    StampedSame(NewMetadata(LastRecorded(selfShard, run, h).value),
                Kept(selfShard, run, h, true), Kept(selfShard, run, h, false),
                Kept(selfShard, run', h, true), Kept(selfShard, run', h, false));
    hide Stamped;
  }

  lemma StampedSame(md: Metadata, s: Option<Note>, d: Option<Note>, s': Option<Note>, d': Option<Note>)
    ensures Stamped(md, s, d) == Stamped(md, s', d') <==> NoteOrZero(s) == NoteOrZero(s') && NoteOrZero(d) == NoteOrZero(d')
  {
    assert SourceNote(Stamped(md, s, d)) == NoteOrZero(s) && DestinationNote(Stamped(md, s, d)) == NoteOrZero(d);
    assert SourceNote(Stamped(md, s', d')) == NoteOrZero(s') && DestinationNote(Stamped(md, s', d')) == NoteOrZero(d');
  }

  // ---------- one recording of a miniblock ----------

  /** Every recording of h is in the same epoch. */
  ghost predicate OneEpoch(run: seq<Event>, h: Hash, epoch: uint32) {
    forall i :: 0 <= i < |run| && run[i].StartRecord? && run[i].record.hash == h ==> run[i].record.epoch == epoch
  }

  /** A deduplication key of h that was evicted is not needed again. */
  ghost predicate EvictedOnlyWhenDone(run: seq<Event>, h: Hash) {
    forall i, j :: 0 <= i < j < |run| && run[i].EvictKey? && run[j].StartRecord? ==>
      run[j].record.hash == h ==> run[i].slot != SlotOf(run[j].record)
  }

  ghost predicate Evicted(run: seq<Event>, slot: Slot) {
    exists i :: 0 <= i < |run| && run[i] == EvictKey(slot)
  }

  lemma EvictedGrows(run: seq<Event>, slot: Slot)
    requires run != []
    ensures Evicted(run, slot) <==> Evicted(Front(run), slot) || Last(run) == EvictKey(slot)
  {
    if Evicted(Front(run), slot) {
      var i :| 0 <= i < |Front(run)| && Front(run)[i] == EvictKey(slot);
      assert run[i] == EvictKey(slot);
    }
    if Evicted(run, slot) {
      var i :| 0 <= i < |run| && run[i] == EvictKey(slot);
      assert i < |run| - 1 ==> Front(run)[i] == EvictKey(slot);
    }
  }

  /** The first attempt is the only recording that takes effect, and no note is erased. */
  ghost predicate Single(f: Facts, m: World, h: Hash, epoch: uint32, first: Option<Record>, evicted: bool) {
    var slot := (epoch, h);
    && f.recorded == first && !f.source.Lost? && !f.destination.Lost?
    && (first.Some? ==> SlotOf(first.value) == slot)
    && (slot in m.repo.inserted ==> first.Some?)
    && (first.Some? ==> slot in m.repo.inserted || evicted || (Busy(m, h) && !m.progress.value.stage.ToIndex?))
    && (InWindow(m, h) ==>
        && Untouched(f.source) && Untouched(f.destination)
        && forall s :: s in m.repo.metadata ==> s.1 != h)
  }

  lemma ConsumeKeepsOthers(st: Repo)
    ensures Consume(st).metadata.Keys == st.metadata.Keys && Consume(st).inserted == st.inserted
  {
    hide LeftPending, Patched, Patch;
  }

  lemma ConsumeKeepsSingle(f: Facts, m: World, h: Hash, epoch: uint32, first: Option<Record>, evicted: bool)
    requires Single(f, m, h, epoch, first, evicted)
    ensures Single(Observe(f, m, ConsumePending, h), Step(m, ConsumePending), h, epoch, first, evicted)
  {
    ConsumeKeepsOthers(m.repo);
    hide Consume;
    assert forall s :: s in Consume(m.repo).metadata ==> s in m.repo.metadata.Keys;
    if InWindow(m, h) && h in m.repo.epochByHash {
      assert (m.repo.epochByHash[h], h) !in m.repo.metadata;
    }
  }

  lemma StartKeepsSingle(f: Facts, m: World, r: Record, h: Hash, epoch: uint32, first: Option<Record>, evicted: bool, both: bool)
    requires Single(f, m, h, epoch, first, evicted) && Tracked(f, m, h, both) && m.progress == None
    requires r.hash == h ==> r.epoch == epoch && !evicted
    ensures Single(Observe(f, m, StartRecord(r), h), Start(m, r), h, epoch,
                   if first == None && r.hash == h then Some(r) else first, evicted)
  {
    hide Shows;
  }

  /** What one write adds to the metadata and to the deduplication cache. */
  lemma WriteKeepsInserted(m: World)
    ensures m.progress == None ==> Write(m) == m
    ensures m.progress.Some? ==>
              var r, stage := m.progress.value.record, m.progress.value.stage;
              && Write(m).repo.inserted == (if stage == ToMark then m.repo.inserted + {SlotOf(r)} else m.repo.inserted)
              && (stage != ToPut ==> Write(m).repo.metadata == m.repo.metadata)
              && (Write(m).progress == None || (Write(m).progress.Some? && Write(m).progress.value.record == r))
              && (stage == ToPut ==> Write(m).progress == Some(Progress(r, ToMark)))
              && (stage != ToPut ==> Write(m).progress == None || Write(m).progress.value.stage.ToIndex?)
  {
    hide NewMetadata;
  }

  lemma WriteKeepsSingle(f: Facts, m: World, h: Hash, epoch: uint32, first: Option<Record>, evicted: bool, both: bool)
    requires Single(f, m, h, epoch, first, evicted) && Tracked(f, m, h, both)
    ensures Single(Observe(f, m, NextWrite, h), Write(m), h, epoch, first, evicted)
  {
    hide Shows, NewMetadata, PendingIsWaiting, Lookup, Classify, Write;
    WriteKeepsInserted(m);
  }

  lemma NotifyKeepsSingle(f: Facts, m: World, n: Notification, h: Hash, epoch: uint32, first: Option<Record>, evicted: bool)
    requires Single(f, m, h, epoch, first, evicted)
    ensures Single(Observe(f, m, NotifyMiniblock(n), h), Step(m, NotifyMiniblock(n)), h, epoch, first, evicted)
  {
    hide NoteIn, Consume, Write, Start, Notify;
    NotifyOnlyPending(m.repo, n);
  }

  lemma QuietKeepsSingle(f: Facts, m: World, ev: Event, h: Hash, epoch: uint32, first: Option<Record>, evicted: bool)
    requires Single(f, m, h, epoch, first, evicted)
    requires ev.SaveHeaderEpoch? || ev.EvictKey?
    ensures Single(Observe(f, m, ev, h), Step(m, ev), h, epoch, first, evicted || ev == EvictKey((epoch, h)))
  {
    hide Consume, Write, Start, Notify;
  }

  lemma {:induction false} SingleAlways(selfShard: uint32, run: seq<Event>, h: Hash, route: (uint32, uint32), epoch: uint32)
    requires Legal(selfShard, run) && FixedRoute(run, h, route) && HeadersApart(run, h)
    requires OneEpoch(run, h, epoch) && EvictedOnlyWhenDone(run, h)
    ensures Single(FactsOf(selfShard, run, h), Exec(selfShard, run), h, epoch, FirstRecord(run, h), Evicted(run, (epoch, h)))
    decreases |run|
  {
    if run != [] {
      LastIsAdmissible(selfShard, run, h, route);
      LastIsSingle(run, h, epoch);
      EvictedGrows(run, (epoch, h));
      hide FixedRoute, HeadersApart, OneEpoch, EvictedOnlyWhenDone, Evicted, Tracked, Single, NextRecorded, NextFate, Start, Write;
      SingleAlways(selfShard, Front(run), h, route, epoch);
      TrackedAlways(selfShard, Front(run), h, route);
      var f, m := FactsOf(selfShard, Front(run), h), Exec(selfShard, Front(run));
      var first, evicted := FirstRecord(Front(run), h), Evicted(Front(run), (epoch, h));
      match Last(run)
      case StartRecord(r) => StartKeepsSingle(f, m, r, h, epoch, first, evicted, IsBoth(route));
      case NextWrite => WriteKeepsSingle(f, m, h, epoch, first, evicted, IsBoth(route));
      case ConsumePending => ConsumeKeepsSingle(f, m, h, epoch, first, evicted);
      case NotifyMiniblock(n) => NotifyKeepsSingle(f, m, n, h, epoch, first, evicted);
      case ev => QuietKeepsSingle(f, m, ev, h, epoch, first, evicted);
    }
  }

  lemma LastIsSingle(run: seq<Event>, h: Hash, epoch: uint32)
    requires run != [] && OneEpoch(run, h, epoch) && EvictedOnlyWhenDone(run, h)
    ensures OneEpoch(Front(run), h, epoch) && EvictedOnlyWhenDone(Front(run), h)
    ensures Last(run).StartRecord? && Last(run).record.hash == h ==>
              Last(run).record.epoch == epoch && !Evicted(Front(run), (epoch, h))
  {
  }

  /** Recorded in one epoch, with its deduplication key kept as long as it is needed, a miniblock loses no note. */
  lemma NothingErased(selfShard: uint32, run: seq<Event>, h: Hash, route: (uint32, uint32), epoch: uint32)
    requires Legal(selfShard, run) && FixedRoute(run, h, route) && HeadersApart(run, h)
    requires OneEpoch(run, h, epoch) && EvictedOnlyWhenDone(run, h)
    ensures LastRecorded(selfShard, run, h) == FirstRecord(run, h)
    ensures !Erased(selfShard, run, h, true) && !Erased(selfShard, run, h, false)
  {
    SingleAlways(selfShard, run, h, route, epoch);
    FateTold(selfShard, run, h, true);
    FateTold(selfShard, run, h, false);
    hide Exec, LastRecorded, FirstRecord, LastNote, FateOf, Consumed, Erased, Legal;
  }

  /** The recordings of h in a run, and the notifications for h, each in order. */
  function RecordingsOf(run: seq<Event>, h: Hash): seq<Event> {
    if run == [] then []
    else RecordingsOf(Front(run), h) + (if Last(run).StartRecord? && Last(run).record.hash == h then [Last(run)] else [])
  }

  function NotificationsOf(run: seq<Event>, h: Hash): seq<Event> {
    if run == [] then []
    else NotificationsOf(Front(run), h) + (if Last(run).NotifyMiniblock? && Last(run).notification.hash == h then [Last(run)] else [])
  }

  lemma {:induction false} FirstRecordOfRecordings(run: seq<Event>, h: Hash)
    ensures FirstRecord(RecordingsOf(run, h), h) == FirstRecord(run, h)
  {
    if run != [] {
      FirstRecordOfRecordings(Front(run), h);
      if Last(run).StartRecord? && Last(run).record.hash == h {
        assert Front(RecordingsOf(run, h)) == RecordingsOf(Front(run), h);
      } else {
        assert RecordingsOf(run, h) == RecordingsOf(Front(run), h);
      }
    }
  }

  lemma {:induction false} LastNoteOfNotifications(selfShard: uint32, run: seq<Event>, h: Hash, atSource: bool)
    ensures LastNote(selfShard, NotificationsOf(run, h), h, atSource) == LastNote(selfShard, run, h, atSource)
  {
    if run != [] {
      LastNoteOfNotifications(selfShard, Front(run), h, atSource);
      if Last(run).NotifyMiniblock? && Last(run).notification.hash == h {
        hide NoteIn;
        assert Front(NotificationsOf(run, h)) == NotificationsOf(Front(run), h);
      } else {
        assert NoteIn(selfShard, Last(run), h, atSource) == None;
        hide NoteIn;
        assert NotificationsOf(run, h) == NotificationsOf(Front(run), h);
      }
    }
  }

  /**
   Order independence: if h is recorded in one epoch and its key is kept as long as it is needed,
   two runs with the same recordings of h in order and the same notifications for h in order show
   the same metadata of h after a final consume: the first recording with the last notifications.
   */
  lemma OrderIndependence(selfShard: uint32, run: seq<Event>, run': seq<Event>, h: Hash, route: (uint32, uint32), epoch: uint32)
    requires Legal(selfShard, run) && FixedRoute(run, h, route) && HeadersApart(run, h)
    requires Legal(selfShard, run') && FixedRoute(run', h, route) && HeadersApart(run', h)
    requires OneEpoch(run, h, epoch) && EvictedOnlyWhenDone(run, h)
    requires OneEpoch(run', h, epoch) && EvictedOnlyWhenDone(run', h)
    requires Exec(selfShard, run).progress == None && Exec(selfShard, run').progress == None
    requires RecordingsOf(run, h) == RecordingsOf(run', h) != [] && NotificationsOf(run, h) == NotificationsOf(run', h)
    ensures Lookup(Consume(Exec(selfShard, run).repo), h) == Lookup(Consume(Exec(selfShard, run').repo), h)
    ensures FirstRecord(run, h).Some?
    ensures Lookup(Consume(Exec(selfShard, run).repo), h) ==
            Some(Stamped(NewMetadata(FirstRecord(run, h).value),
                         LastNote(selfShard, run, h, true), LastNote(selfShard, run, h, false)))
  {
    RecordedIfRecordings(run, h);
    hide Exec, Consume, Lookup, LastRecorded, FirstRecord, LastNote, Erased, Legal, Stamped, NewMetadata,
      RecordingsOf, NotificationsOf, FixedRoute, HeadersApart, OneEpoch, EvictedOnlyWhenDone;
    FirstRecordOfRecordings(run, h);
    FirstRecordOfRecordings(run', h);
    LastNoteOfNotifications(selfShard, run, h, true);
    LastNoteOfNotifications(selfShard, run', h, true);
    LastNoteOfNotifications(selfShard, run, h, false);
    LastNoteOfNotifications(selfShard, run', h, false);
    NothingErased(selfShard, run, h, route, epoch);
    NothingErased(selfShard, run', h, route, epoch);
    FinalMetadata(selfShard, run, h, route);
    FinalMetadata(selfShard, run', h, route);
  }

  lemma {:induction false} RecordedIfRecordings(run: seq<Event>, h: Hash)
    ensures FirstRecord(run, h).Some? <==> RecordingsOf(run, h) != []
  {
    if run != [] {
      RecordedIfRecordings(Front(run), h);
    }
  }

  // ---------- one recording, exactly ----------

  /**
   When one more recording of a stored miniblock keeps the note that a consume pass would show:
   exactly if the deduplication cache turns it away, or the note is still pending, or the stored
   note is all zeros.
   */
  lemma RecordingKeepsNotes(st: Repo, r: Record)
    requires Agrees(st) && Lookup(st, r.hash).Some?
    ensures var before, after := Lookup(Consume(st), r.hash), Lookup(Consume(RecordMiniblock(st, r)), r.hash);
            && before.Some? && after.Some?
            && (SourceNote(after.value) == SourceNote(before.value) <==>
                || SlotOf(r) in st.inserted || r.hash in st.pendingSource || r.hash in st.pendingBoth
                || SourceNote(Lookup(st, r.hash).value) == Note(0, []))
            && (DestinationNote(after.value) == DestinationNote(before.value) <==>
                || SlotOf(r) in st.inserted || r.hash in st.pendingDestination || r.hash in st.pendingBoth
                || DestinationNote(Lookup(st, r.hash).value) == Note(0, []))
  {
    NotesAfterConsume(st, r.hash);
    if SlotOf(r) !in st.inserted {
      EffectiveRecording(st, r);
      NotesAfterConsume(RecordMiniblock(st, r), r.hash);
      NewEpoch(r);
    }
    hide Consume, RecordMiniblock, NewMetadata, Lookup, SourceNote, DestinationNote;
  }

  lemma EffectiveRecording(st: Repo, r: Record)
    requires SlotOf(r) !in st.inserted
    ensures var st' := RecordMiniblock(st, r);
            && Lookup(st', r.hash) == Some(NewMetadata(r)) && st'.pendingSource == st.pendingSource
            && st'.pendingDestination == st.pendingDestination && st'.pendingBoth == st.pendingBoth
  {
    var put := PutMetadata(SaveEpoch(st, r.hash, r.epoch), r.hash, NewMetadata(r));
    IndexTxsKeepsMetadata(MarkInserted(put, SlotOf(r)), r.txHashes, r.hash);
    NewEpoch(r);
    hide NewMetadata, IndexTxs;
  }

  /** What a consume pass makes of the notes of one stored miniblock. */
  lemma NotesAfterConsume(st: Repo, h: Hash)
    requires Lookup(st, h).Some?
    ensures var md, after := Lookup(st, h).value, Lookup(Consume(st), h);
            && after.Some?
            && SourceNote(after.value) ==
               (if h in st.pendingBoth then st.pendingBoth[h] else if h in st.pendingSource then st.pendingSource[h]
                else SourceNote(md))
            && DestinationNote(after.value) ==
               (if h in st.pendingBoth then st.pendingBoth[h] else if h in st.pendingDestination then st.pendingDestination[h]
                else DestinationNote(md))
  {
    var st1 := ConsumeSide(st, Source);
    var st2 := ConsumeSide(st1, Destination);
    SideAfterConsume(st, Source, h);
    SideAfterConsume(st1, Destination, h);
    SideAfterConsume(st2, Both, h);
    ConsumeSideKeepsLookups(st, Source, h);
    ConsumeSideKeepsLookups(st1, Destination, h);
    hide ConsumeSide, Lookup;
  }

  lemma SideAfterConsume(st: Repo, side: Side, h: Hash)
    requires Lookup(st, h).Some?
    ensures Lookup(ConsumeSide(st, side), h) ==
            Some(if h in Pending(st, side) then Patch(side, Lookup(st, h).value, Pending(st, side)[h]) else Lookup(st, h).value)
  {
    hide Patch;
  }
}
