/**
 Runs of the history repository. Recording a miniblock is split into its separate writes, so
 that a consume pass, a notification or an eviction may come between any two of them; a
 consume pass and a notification are single steps. The theorems are about every run.
 */
module HistoryRuns {
  import opened Machine
  import opened Chain
  import opened MetadataCodec
  import opened HistoryState

  // ---------- the step machine ----------

  /** The next write of a recording in progress; the transactions from index k on are not indexed yet. */
  datatype Stage = ToPut | ToMark | ToIndex(k: nat)
  datatype Progress = Progress(record: Record, stage: Stage)

  /** The mutex admits one recording at a time. */
  datatype World = World(repo: Repo, progress: Option<Progress>)

  datatype Event =
    | SaveHeaderEpoch(headerHash: Hash, headerEpoch: uint32)
    | StartRecord(record: Record)
    | NextWrite
    | NotifyMiniblock(notification: Notification)
    | ConsumePending
    | EvictKey(slot: Slot)

  function Start(m: World, r: Record): World {
    if SlotOf(r) in m.repo.inserted then m
    else World(SaveEpoch(m.repo, r.hash, r.epoch), Some(Progress(r, ToPut)))
  }

  function Write(m: World): World {
    match m.progress
    case None => m
    case Some(Progress(r, ToPut)) => World(PutMetadata(m.repo, r.hash, NewMetadata(r)), Some(Progress(r, ToMark)))
    case Some(Progress(r, ToMark)) => World(MarkInserted(m.repo, SlotOf(r)), Some(Progress(r, ToIndex(0))))
    case Some(Progress(r, ToIndex(k))) =>
      if k < |r.txHashes| then World(IndexTx(m.repo, r.txHashes[k], r.hash), Some(Progress(r, ToIndex(k + 1))))
      else World(m.repo, None)
  }

  function Step(m: World, ev: Event): World {
    match ev
    case SaveHeaderEpoch(h, epoch) => m.(repo := SaveEpoch(m.repo, h, epoch))
    case StartRecord(r) => Start(m, r)
    case NextWrite => Write(m)
    case NotifyMiniblock(n) => m.(repo := Notify(m.repo, n))
    case ConsumePending => m.(repo := Consume(m.repo))
    case EvictKey(slot) => m.(repo := m.repo.(inserted := m.repo.inserted - {slot}))
  }

  predicate Enabled(m: World, ev: Event) {
    ev.StartRecord? || ev.SaveHeaderEpoch? ==> m.progress == None
  }

  function Last(run: seq<Event>): Event requires run != [] { run[|run| - 1] }
  function Front(run: seq<Event>): seq<Event> requires run != [] { run[..|run| - 1] }

  function Exec(selfShard: uint32, run: seq<Event>): World {
    if run == [] then World(EmptyRepo(selfShard), None) else Step(Exec(selfShard, Front(run)), Last(run))
  }

  predicate Legal(selfShard: uint32, run: seq<Event>) {
    run == [] || (Legal(selfShard, Front(run)) && Enabled(Exec(selfShard, Front(run)), Last(run)))
  }

  /** The writes of one recording without anything in between are recordMiniblock. */
  function Finish(m: World): World
    decreases match m.progress
              case None => 0
              case Some(Progress(r, ToIndex(k))) => if k < |r.txHashes| then 1 + |r.txHashes| - k else 1
              case Some(Progress(r, ToMark)) => |r.txHashes| + 2
              case Some(Progress(r, ToPut)) => |r.txHashes| + 3
  {
    if m.progress == None then m else Finish(Write(m))
  }

  lemma {:induction false} FinishIndexing(m: World, r: Record, k: nat)
    requires m.progress == Some(Progress(r, ToIndex(k))) && k <= |r.txHashes|
    ensures Finish(m) == World(IndexTxs(m.repo, r.txHashes[k..], r.hash), None)
    decreases |r.txHashes| - k
  {
    if k < |r.txHashes| {
      assert r.txHashes[k..][1..] == r.txHashes[k + 1..];
      FinishIndexing(Write(m), r, k + 1);
    } else {
      assert Write(m) == World(m.repo, None);
      assert Finish(Write(m)) == Write(m);
    }
  }

  lemma UninterruptedRecording(m: World, r: Record)
    requires m.progress == None
    ensures Finish(Start(m, r)) == World(RecordMiniblock(m.repo, r), None)
  {
    if SlotOf(r) !in m.repo.inserted {
      var put := Write(Start(m, r));
      var marked := Write(put);
      FinishIndexing(marked, r, 0);
      assert r.txHashes[0..] == r.txHashes;
      assert Finish(Start(m, r)) == Finish(put) == Finish(marked);
    }
  }

  // ---------- what a run tells about one miniblock ----------

  /** A notification that the shard cares about: from or to itself, and not of a peer miniblock. */
  predicate Relevant(selfShard: uint32, n: Notification) {
    (n.sender == selfShard || n.receiver == selfShard) && n.miniblockType != 60
  }

  /** The block that contains the header notarizes the miniblock at its source. */
  predicate TellsSource(n: Notification) {
    n.sender == n.receiver || n.receiver == 0xFFFF_FFFF || n.sender == n.containingShard
  }

  /** The block that contains the header notarizes the miniblock at its destination. */
  predicate TellsDestination(n: Notification) {
    || n.sender == n.receiver || n.receiver == 0xFFFF_FFFF
    || (n.sender != n.containingShard && n.receiver == n.containingShard)
  }

  /** What an event tells about the notarization of h at its source, or at its destination. */
  function NoteIn(selfShard: uint32, ev: Event, h: Hash, atSource: bool): Option<Note> {
    match ev
    case NotifyMiniblock(n) =>
      if n.hash == h && Relevant(selfShard, n) && (if atSource then TellsSource(n) else TellsDestination(n)) then Some(n.note)
      else None
    case _ => None
  }

  /** The last such note of a run. */
  function LastNote(selfShard: uint32, run: seq<Event>, h: Hash, atSource: bool): Option<Note> {
    if run == [] then None
    else if NoteIn(selfShard, Last(run), h, atSource).Some? then NoteIn(selfShard, Last(run), h, atSource)
    else LastNote(selfShard, Front(run), h, atSource)
  }

  predicate Busy(m: World, h: Hash) {
    m.progress.Some? && m.progress.value.record.hash == h
  }

  /** h is being recorded, and its metadata is the next write. */
  predicate InWindow(m: World, h: Hash) {
    Busy(m, h) && m.progress.value.stage == ToPut
  }

  /** The recording of h that takes effect last; the deduplication cache turns the others away. */
  function LastRecorded(selfShard: uint32, run: seq<Event>, h: Hash): Option<Record> {
    if run == [] then None else NextRecorded(LastRecorded(selfShard, Front(run), h), Exec(selfShard, Front(run)), Last(run), h)
  }

  function NextRecorded(recorded: Option<Record>, m: World, ev: Event, h: Hash): Option<Record> {
    match ev
    case StartRecord(r) => if r.hash == h && SlotOf(r) !in m.repo.inserted then Some(r) else recorded
    case _ => recorded
  }

  /** A consume pass that finds metadata of h, and so patches whatever is pending for h. */
  predicate Finds(m: World, ev: Event, h: Hash) {
    ev.ConsumePending? && Lookup(m.repo, h).Some?
  }

  /** The write that stores new metadata of h, with all notarization fields zero. */
  predicate Puts(m: World, ev: Event, h: Hash) {
    ev.NextWrite? && InWindow(m, h)
  }

  predicate FindsAt(selfShard: uint32, run: seq<Event>, h: Hash, i: nat) {
    i < |run| && Finds(Exec(selfShard, run[..i]), run[i], h)
  }

  predicate PutsAt(selfShard: uint32, run: seq<Event>, h: Hash, j: nat) {
    j < |run| && Puts(Exec(selfShard, run[..j]), run[j], h)
  }

  ghost predicate NoNoteFrom(selfShard: uint32, run: seq<Event>, h: Hash, atSource: bool, i: nat) {
    forall k :: i <= k < |run| ==> NoteIn(selfShard, run[k], h, atSource) == None
  }

  /** After the last note, a consume pass found metadata of h. */
  ghost predicate Consumed(selfShard: uint32, run: seq<Event>, h: Hash, atSource: bool) {
    && LastNote(selfShard, run, h, atSource).Some?
    && exists i :: FindsAt(selfShard, run, h, i) && NoNoteFrom(selfShard, run, h, atSource, i)
  }

  /** After the last note, a consume pass found metadata of h, and later new metadata of h was stored. */
  ghost predicate Erased(selfShard: uint32, run: seq<Event>, h: Hash, atSource: bool) {
    && LastNote(selfShard, run, h, atSource).Some?
    && exists i, j :: i < j && FindsAt(selfShard, run, h, i) && PutsAt(selfShard, run, h, j)
                      && NoNoteFrom(selfShard, run, h, atSource, i)
  }

  /** The note that the metadata of h is left with. */
  ghost function Kept(selfShard: uint32, run: seq<Event>, h: Hash, atSource: bool): Option<Note> {
    if Erased(selfShard, run, h, atSource) then None else LastNote(selfShard, run, h, atSource)
  }

  function NoteOrZero(n: Option<Note>): Note { if n.Some? then n.value else Note(0, []) }

  /** md with the notarization fields a pair of notes gives; zero where there is none. */
  function Stamped(md: Metadata, source: Option<Note>, destination: Option<Note>): Metadata {
    var s, d := NoteOrZero(source), NoteOrZero(destination);
    md.(sourceMetaNonce := s.metaNonce, sourceMetaHash := s.metaHash,
        destinationMetaNonce := d.metaNonce, destinationMetaHash := d.metaHash)
  }

  // ---------- what the hash function guarantees ----------

  /** A hash fixes sender and receiver. */
  ghost predicate FixedRoute(run: seq<Event>, h: Hash, route: (uint32, uint32)) {
    forall i :: 0 <= i < |run| && run[i].NotifyMiniblock? && run[i].notification.hash == h ==>
      (run[i].notification.sender, run[i].notification.receiver) == route
  }

  /** No block header has the hash of a miniblock. */
  ghost predicate HeadersApart(run: seq<Event>, h: Hash) {
    forall i, j :: 0 <= i < |run| && 0 <= j < |run| && run[i].SaveHeaderEpoch? && run[j].StartRecord? ==>
      run[j].record.hash == h ==> run[i].headerHash != h
  }

  predicate IsBoth(route: (uint32, uint32)) {
    NotarizedAtBoth(route.0, route.1)
  }

  /** The first recording of h that is attempted. */
  function FirstRecord(run: seq<Event>, h: Hash): Option<Record> {
    if run == [] then None
    else if FirstRecord(Front(run), h).Some? then FirstRecord(Front(run), h)
    else
      match Last(run)
      case StartRecord(r) => if r.hash == h then Some(r) else None
      case _ => None
  }

  lemma {:induction false} FirstRecordIndex(run: seq<Event>, h: Hash) returns (j: nat)
    requires FirstRecord(run, h).Some?
    ensures j < |run| && run[j] == StartRecord(FirstRecord(run, h).value) && run[j].record.hash == h
  {
    if FirstRecord(Front(run), h).Some? {
      j := FirstRecordIndex(Front(run), h);
    } else {
      j := |run| - 1;
    }
  }
}
