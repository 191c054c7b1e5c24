/**
 The invariant of the step machine, miniblock by miniblock: where its metadata stands, what is
 pending for it, and what its metadata shows. Every step keeps it, in every run.
 */
module HistoryTracking {
  import opened Machine
  import opened Chain
  import opened MetadataCodec
  import opened HistoryState
  import opened HistoryRuns
  import opened HistoryFates

  /** What a run tells about the miniblock h. */
  datatype Facts = Facts(recorded: Option<Record>, source: Fate, destination: Fate)

  function FactsOf(selfShard: uint32, run: seq<Event>, h: Hash): Facts {
    Facts(LastRecorded(selfShard, run, h), FateOf(selfShard, run, h, true), FateOf(selfShard, run, h, false))
  }

  /** What one more event adds. */
  function Observe(f: Facts, m: World, ev: Event, h: Hash): Facts {
    Facts(NextRecorded(f.recorded, m, ev, h),
          NextFate(m.repo.selfShard, f.source, m, ev, h, true),
          NextFate(m.repo.selfShard, f.destination, m, ev, h, false))
  }

  function SourceNote(md: Metadata): Note { Note(md.sourceMetaNonce, md.sourceMetaHash) }
  function DestinationNote(md: Metadata): Note { Note(md.destinationMetaNonce, md.destinationMetaHash) }

  /** The note that metadata shows when none is waiting. */
  function Shown(f: Fate): Note { if f.Stored? then f.note else Note(0, []) }

  predicate Untouched(f: Fate) { f.Unsent? || f.Waiting? }

  /** Where metadata of h stands; in the window only where it will stand. */
  ghost predicate Recorded(f: Facts, m: World, h: Hash) {
    && (f.recorded == None ==>
        && !Busy(m, h) && Untouched(f.source) && Untouched(f.destination)
        && (forall s :: s in m.repo.metadata ==> s.1 != h))
    && (Busy(m, h) ==> f.recorded == Some(m.progress.value.record))
    && (f.recorded.Some? ==>
        var r := f.recorded.value;
        && r.hash == h && h in m.repo.epochByHash && m.repo.epochByHash[h] == r.epoch
        && (!InWindow(m, h) ==> SlotOf(r) in m.repo.metadata && Shows(f, m.repo.metadata[SlotOf(r)])))
  }

  /** The metadata of the last recording, with what is patched into it and nothing else. */
  predicate Shows(f: Facts, md: Metadata)
    requires f.recorded.Some?
  {
    && Unstamped(md) == NewMetadata(f.recorded.value)
    && (!f.source.Waiting? ==> SourceNote(md) == Shown(f.source))
    && (!f.destination.Waiting? ==> DestinationNote(md) == Shown(f.destination))
  }

  /** What is pending for h is waiting, and conversely; no hash is pending for both sides and for one. */
  ghost predicate PendingIsWaiting(f: Facts, m: World, h: Hash, both: bool) {
    && (h in m.repo.pendingSource ==> !both && f.source == Waiting(m.repo.pendingSource[h]))
    && (h in m.repo.pendingDestination ==> !both && f.destination == Waiting(m.repo.pendingDestination[h]))
    && (h in m.repo.pendingBoth ==> both && f.source == f.destination == Waiting(m.repo.pendingBoth[h]))
    && (f.source.Waiting? ==> h in m.repo.pendingSource || h in m.repo.pendingBoth)
    && (f.destination.Waiting? ==> h in m.repo.pendingDestination || h in m.repo.pendingBoth)
  }

  ghost predicate Tracked(f: Facts, m: World, h: Hash, both: bool) {
    Recorded(f, m, h) && PendingIsWaiting(f, m, h, both)
  }

  // ---------- every step keeps it ----------

  lemma HeaderKeepsTracked(f: Facts, m: World, header: Hash, epoch: uint32, h: Hash, both: bool)
    requires Tracked(f, m, h, both) && (f.recorded.Some? ==> header != h)
    ensures Tracked(f, m.(repo := SaveEpoch(m.repo, header, epoch)), h, both)
  {
    hide Shows;
  }

  lemma StartKeepsTracked(f: Facts, m: World, r: Record, h: Hash, both: bool)
    requires Tracked(f, m, h, both) && m.progress == None
    ensures Tracked(f.(recorded := NextRecorded(f.recorded, m, StartRecord(r), h)), Start(m, r), h, both)
  {
  }

  lemma WriteOfOtherKeepsTracked(f: Facts, m: World, h: Hash, both: bool)
    requires Tracked(f, m, h, both) && !Busy(m, h)
    ensures Tracked(f, Write(m), h, both)
  {
    hide Shows, NewMetadata;
    if m.progress.Some? && m.progress.value.stage == ToPut {
      assert NewMetadata(m.progress.value.record).epoch == m.progress.value.record.epoch by { NewEpoch(m.progress.value.record); }
    }
  }

  lemma NewEpoch(r: Record)
    ensures NewMetadata(r).epoch == r.epoch && Unstamped(NewMetadata(r)) == NewMetadata(r)
    ensures SourceNote(NewMetadata(r)) == DestinationNote(NewMetadata(r)) == Note(0, [])
  {
  }

  lemma PutKeepsTracked(f: Facts, m: World, h: Hash, both: bool)
    requires Tracked(f, m, h, both) && InWindow(m, h)
    ensures Tracked(f.(source := Overwrite(f.source), destination := Overwrite(f.destination)), Write(m), h, both)
  {
    NewEpoch(m.progress.value.record);
    hide NewMetadata, Unstamped, SourceNote, DestinationNote;
  }

  lemma LaterWriteKeepsTracked(f: Facts, m: World, h: Hash, both: bool)
    requires Tracked(f, m, h, both) && Busy(m, h) && !InWindow(m, h)
    ensures Tracked(f, Write(m), h, both)
  {
    hide Shows;
  }

  lemma WriteKeepsTracked(f: Facts, m: World, h: Hash, both: bool)
    requires Tracked(f, m, h, both)
    ensures Tracked(Observe(f, m, NextWrite, h), Write(m), h, both)
  {
    hide Tracked, Write;
    if InWindow(m, h) {
      PutKeepsTracked(f, m, h, both);
    } else if Busy(m, h) {
      LaterWriteKeepsTracked(f, m, h, both);
    } else {
      WriteOfOtherKeepsTracked(f, m, h, both);
    }
  }

  /** What a notification for h in one of the pending maps adds. */
  function ObserveSide(f: Facts, side: Side, note: Note): Facts {
    match side
    case Source => f.(source := Waiting(note))
    case Destination => f.(destination := Waiting(note))
    case Both => f.(source := Waiting(note), destination := Waiting(note))
  }

  lemma SettingOtherKeepsTracked(f: Facts, m: World, side: Side, other: Hash, note: Note, h: Hash, both: bool)
    requires Tracked(f, m, h, both) && other != h
    ensures Tracked(f, m.(repo := WithPending(m.repo, side, Pending(m.repo, side)[other := note])), h, both)
  {
    hide Shows;
  }

  lemma SettingKeepsTracked(f: Facts, m: World, side: Side, note: Note, h: Hash, both: bool)
    requires Tracked(f, m, h, both) && both == (side == Both)
    ensures Tracked(ObserveSide(f, side, note), m.(repo := WithPending(m.repo, side, Pending(m.repo, side)[h := note])), h, both)
  {
    hide Unstamped, NewMetadata;
  }

  lemma NotifyKeepsTracked(f: Facts, m: World, n: Notification, h: Hash, both: bool)
    requires Tracked(f, m, h, both)
    requires n.hash == h ==> both == NotarizedAtBoth(n.sender, n.receiver)
    ensures Tracked(Observe(f, m, NotifyMiniblock(n), h), m.(repo := Notify(m.repo, n)), h, both)
  {
    hide Tracked;
    match Classify(m.repo.selfShard, n)
    case None =>
    case Some(side) =>
      if n.hash == h {
        SettingKeepsTracked(f, m, side, n.note, h, both);
      } else {
        SettingOtherKeepsTracked(f, m, side, n.hash, n.note, h, both);
      }
  }

  lemma EvictKeepsTracked(f: Facts, m: World, slot: Slot, h: Hash, both: bool)
    requires Tracked(f, m, h, both)
    ensures Tracked(f, Step(m, EvictKey(slot)), h, both)
  {
    hide Shows;
  }

  /** What the pass over one pending map settles. */
  function SettleSide(f: Facts, m: World, side: Side, h: Hash): Facts {
    if h !in Pending(m.repo, side) || Lookup(m.repo, h) == None then f
    else
      match side
      case Source => f.(source := Settle(f.source))
      case Destination => f.(destination := Settle(f.destination))
      case Both => f.(source := Settle(f.source), destination := Settle(f.destination))
  }

  lemma ConsumeSideKeepsTracked(f: Facts, m: World, side: Side, h: Hash, both: bool)
    requires Tracked(f, m, h, both)
    ensures Tracked(SettleSide(f, m, side, h), m.(repo := ConsumeSide(m.repo, side)), h, both)
  {
  }

  /** A pass over one map finds the same miniblocks as the next, and leaves the other maps alone. */
  lemma ConsumeSideKeepsLookups(st: Repo, side: Side, h: Hash)
    ensures Lookup(ConsumeSide(st, side), h).Some? == Lookup(st, h).Some?
    ensures forall other :: other != side ==> Pending(ConsumeSide(st, side), other) == Pending(st, other)
  {
    hide Patch, Patched;
  }

  lemma ConsumeKeepsTracked(f: Facts, m: World, h: Hash, both: bool)
    requires Tracked(f, m, h, both)
    ensures Tracked(Observe(f, m, ConsumePending, h), m.(repo := Consume(m.repo)), h, both)
  {
    var m1 := m.(repo := ConsumeSide(m.repo, Source));
    var m2 := m1.(repo := ConsumeSide(m1.repo, Destination));
    var f1 := SettleSide(f, m, Source, h);
    var f2 := SettleSide(f1, m1, Destination, h);
    assert SettleSide(f2, m2, Both, h) == Observe(f, m, ConsumePending, h) by {
      ConsumeSideKeepsLookups(m.repo, Source, h);
      ConsumeSideKeepsLookups(m1.repo, Destination, h);
      hide ConsumeSide, Recorded, Lookup;
    }
    hide Tracked, ConsumeSide, SettleSide, Observe;
    ConsumeSideKeepsTracked(f, m, Source, h, both);
    ConsumeSideKeepsTracked(f1, m1, Destination, h, both);
    ConsumeSideKeepsTracked(f2, m2, Both, h, both);
  }

  lemma ObserveQuiet(f: Facts, m: World, ev: Event, h: Hash)
    ensures ev.SaveHeaderEpoch? || ev.EvictKey? ==> Observe(f, m, ev, h) == f
    ensures ev.StartRecord? ==> Observe(f, m, ev, h) == f.(recorded := NextRecorded(f.recorded, m, ev, h))
  {
  }

  lemma StepKeepsTracked(f: Facts, m: World, ev: Event, h: Hash, both: bool)
    requires Tracked(f, m, h, both) && Enabled(m, ev)
    requires ev.SaveHeaderEpoch? && f.recorded.Some? ==> ev.headerHash != h
    requires ev.NotifyMiniblock? && ev.notification.hash == h ==>
               both == NotarizedAtBoth(ev.notification.sender, ev.notification.receiver)
    ensures Tracked(Observe(f, m, ev, h), Step(m, ev), h, both)
  {
    hide Tracked, Consume, Notify, Start, Write, Classify, Observe;
    ObserveQuiet(f, m, ev, h);
    match ev
    case SaveHeaderEpoch(header, epoch) => HeaderKeepsTracked(f, m, header, epoch, h, both);
    case StartRecord(r) => StartKeepsTracked(f, m, r, h, both);
    case NextWrite => WriteKeepsTracked(f, m, h, both);
    case NotifyMiniblock(n) => NotifyKeepsTracked(f, m, n, h, both);
    case ConsumePending => ConsumeKeepsTracked(f, m, h, both);
    case EvictKey(slot) => EvictKeepsTracked(f, m, slot, h, both);
  }

  lemma SelfShardStays(m: World, ev: Event)
    ensures Step(m, ev).repo.selfShard == m.repo.selfShard
  {
    hide Consume, Notify, Write;
    match ev
    case ConsumePending => ConsumeKeepsShard(m.repo);
    case NotifyMiniblock(n) => NotifyOnlyPending(m.repo, n);
    case NextWrite => WriteKeepsShard(m);
    case _ =>
  }

  lemma ConsumeKeepsShard(st: Repo)
    ensures Consume(st).selfShard == st.selfShard
  {
    hide PatchedMetadata, LeftPending;
  }

  lemma PutKeepsShard(st: Repo, h: Hash, md: Metadata)
    ensures PutMetadata(st, h, md).selfShard == st.selfShard
  {
  }

  lemma WriteKeepsShard(m: World)
    ensures Write(m).repo.selfShard == m.repo.selfShard
  {
    hide NewMetadata, PutMetadata;
    if m.progress.Some? {
      var r := m.progress.value.record;
      PutKeepsShard(m.repo, r.hash, NewMetadata(r));
    }
  }

  lemma {:induction false} RecordedWasStarted(selfShard: uint32, run: seq<Event>, h: Hash) returns (j: nat)
    requires LastRecorded(selfShard, run, h).Some?
    ensures j < |run| && run[j] == StartRecord(LastRecorded(selfShard, run, h).value) && run[j].record.hash == h
  {
    hide Exec;
    if LastRecorded(selfShard, run, h) == LastRecorded(selfShard, Front(run), h) {
      j := RecordedWasStarted(selfShard, Front(run), h);
    } else {
      j := |run| - 1;
    }
  }

  /** What the hypotheses say about the last event of a run. */
  lemma LastIsAdmissible(selfShard: uint32, run: seq<Event>, h: Hash, route: (uint32, uint32))
    requires run != [] && FixedRoute(run, h, route) && HeadersApart(run, h)
    ensures FixedRoute(Front(run), h, route) && HeadersApart(Front(run), h)
    ensures Last(run).SaveHeaderEpoch? && LastRecorded(selfShard, Front(run), h).Some? ==> Last(run).headerHash != h
    ensures Last(run).NotifyMiniblock? && Last(run).notification.hash == h ==>
              IsBoth(route) == NotarizedAtBoth(Last(run).notification.sender, Last(run).notification.receiver)
  {
    hide LastRecorded;
    if LastRecorded(selfShard, Front(run), h).Some? {
      var j := RecordedWasStarted(selfShard, Front(run), h);
      assert run[j].StartRecord? && run[j].record.hash == h;
    }
  }

  /** The invariant holds in every reachable state, for every miniblock. */
  lemma {:induction false} TrackedAlways(selfShard: uint32, run: seq<Event>, h: Hash, route: (uint32, uint32))
    requires Legal(selfShard, run) && FixedRoute(run, h, route) && HeadersApart(run, h)
    ensures Exec(selfShard, run).repo.selfShard == selfShard
    ensures Tracked(FactsOf(selfShard, run, h), Exec(selfShard, run), h, IsBoth(route))
    decreases |run|
  {
    if run != [] {
      LastIsAdmissible(selfShard, run, h, route);
      hide FixedRoute, HeadersApart, Tracked, Step, Enabled, NextRecorded, NextFate;
      TrackedAlways(selfShard, Front(run), h, route);
      SelfShardStays(Exec(selfShard, Front(run)), Last(run));
      StepKeepsTracked(FactsOf(selfShard, Front(run), h), Exec(selfShard, Front(run)), Last(run), h, IsBoth(route));
    }
  }
}
