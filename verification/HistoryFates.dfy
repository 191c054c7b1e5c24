/**
 The fate of the last note for one side of a miniblock, step by step, and how the events of a
 run tell it.
 */
module HistoryFates {
  import opened Machine
  import opened Chain
  import opened HistoryState
  import opened HistoryRuns

  /** Never sent; pending; in the metadata that a lookup shows; or erased from there. */
  datatype Fate = Unsent | Waiting(note: Note) | Stored(note: Note) | Lost(note: Note)

  function Settle(f: Fate): Fate { if f.Waiting? then Stored(f.note) else f }
  function Overwrite(f: Fate): Fate { if f.Stored? then Lost(f.note) else f }

  function NextFate(selfShard: uint32, f: Fate, m: World, ev: Event, h: Hash, atSource: bool): Fate {
    if NoteIn(selfShard, ev, h, atSource).Some? then Waiting(NoteIn(selfShard, ev, h, atSource).value)
    else if Finds(m, ev, h) then Settle(f)
    else if Puts(m, ev, h) then Overwrite(f)
    else f
  }

  function FateOf(selfShard: uint32, run: seq<Event>, h: Hash, atSource: bool): Fate {
    if run == [] then Unsent
    else NextFate(selfShard, FateOf(selfShard, Front(run), h, atSource), Exec(selfShard, Front(run)), Last(run), h, atSource)
  }

  lemma AtOfFront(selfShard: uint32, run: seq<Event>, h: Hash, i: nat)
    requires run != []
    ensures i < |run| - 1 ==> FindsAt(selfShard, run, h, i) == FindsAt(selfShard, Front(run), h, i)
    ensures i < |run| - 1 ==> PutsAt(selfShard, run, h, i) == PutsAt(selfShard, Front(run), h, i)
    ensures i == |run| - 1 ==> FindsAt(selfShard, run, h, i) == Finds(Exec(selfShard, Front(run)), Last(run), h)
    ensures i == |run| - 1 ==> PutsAt(selfShard, run, h, i) == Puts(Exec(selfShard, Front(run)), Last(run), h)
  {
    hide Finds, Puts, Exec;
    if i < |run| - 1 {
      assert Front(run)[..i] == run[..i];
    }
  }

  lemma NoNoteOfFront(selfShard: uint32, run: seq<Event>, h: Hash, atSource: bool, i: nat)
    requires run != [] && i < |run|
    ensures NoNoteFrom(selfShard, run, h, atSource, i) <==>
            NoNoteFrom(selfShard, Front(run), h, atSource, i) && NoteIn(selfShard, Last(run), h, atSource) == None
  {
    hide NoteIn;
    if NoNoteFrom(selfShard, run, h, atSource, i) {
      forall k | i <= k < |Front(run)|
        ensures NoteIn(selfShard, Front(run)[k], h, atSource) == None
      {
        assert NoteIn(selfShard, run[k], h, atSource) == None;
      }
    }
  }

  lemma ConsumedStep(selfShard: uint32, run: seq<Event>, h: Hash, atSource: bool)
    requires run != [] && NoteIn(selfShard, Last(run), h, atSource) == None
    requires LastNote(selfShard, run, h, atSource).Some?
    ensures Consumed(selfShard, run, h, atSource) <==>
            Consumed(selfShard, Front(run), h, atSource) || Finds(Exec(selfShard, Front(run)), Last(run), h)
  {
    hide NoteIn, Finds, FindsAt, NoNoteFrom, Exec;
    var last := |run| - 1;
    if i :| FindsAt(selfShard, run, h, i) && NoNoteFrom(selfShard, run, h, atSource, i) {
      FindsInside(selfShard, run, h, i);
      AtOfFront(selfShard, run, h, i);
      NoNoteOfFront(selfShard, run, h, atSource, i);
    }
    if i :| FindsAt(selfShard, Front(run), h, i) && NoNoteFrom(selfShard, Front(run), h, atSource, i) {
      FindsInside(selfShard, Front(run), h, i);
      AtOfFront(selfShard, run, h, i);
      NoNoteOfFront(selfShard, run, h, atSource, i);
    }
    AtOfFront(selfShard, run, h, last);
    NoNoteAtEnd(selfShard, run, h, atSource);
  }

  lemma NoNoteAtEnd(selfShard: uint32, run: seq<Event>, h: Hash, atSource: bool)
    requires run != [] && NoteIn(selfShard, Last(run), h, atSource) == None
    ensures NoNoteFrom(selfShard, run, h, atSource, |run| - 1)
  {
    hide NoteIn;
  }

  lemma FindsInside(selfShard: uint32, run: seq<Event>, h: Hash, i: nat)
    ensures FindsAt(selfShard, run, h, i) ==> i < |run|
    ensures PutsAt(selfShard, run, h, i) ==> i < |run|
  {
  }

  lemma ErasedStep(selfShard: uint32, run: seq<Event>, h: Hash, atSource: bool)
    requires run != [] && NoteIn(selfShard, Last(run), h, atSource) == None
    ensures Erased(selfShard, run, h, atSource) <==>
            || Erased(selfShard, Front(run), h, atSource)
            || (Consumed(selfShard, Front(run), h, atSource) && Puts(Exec(selfShard, Front(run)), Last(run), h))
  {
    hide NoteIn, Finds, Puts, FindsAt, PutsAt, NoNoteFrom, Exec;
    var last := |run| - 1;
    AtOfFront(selfShard, run, h, last);
    if i, j :| i < j && FindsAt(selfShard, run, h, i) && PutsAt(selfShard, run, h, j)
               && NoNoteFrom(selfShard, run, h, atSource, i) {
      FindsInside(selfShard, run, h, j);
      AtOfFront(selfShard, run, h, i);
      AtOfFront(selfShard, run, h, j);
      NoNoteOfFront(selfShard, run, h, atSource, i);
    }
    if i, j :| i < j && FindsAt(selfShard, Front(run), h, i) && PutsAt(selfShard, Front(run), h, j)
               && NoNoteFrom(selfShard, Front(run), h, atSource, i) {
      FindsInside(selfShard, Front(run), h, j);
      AtOfFront(selfShard, run, h, i);
      AtOfFront(selfShard, run, h, j);
      NoNoteOfFront(selfShard, run, h, atSource, i);
    }
    if i :| FindsAt(selfShard, Front(run), h, i) && NoNoteFrom(selfShard, Front(run), h, atSource, i) {
      FindsInside(selfShard, Front(run), h, i);
      AtOfFront(selfShard, run, h, i);
      NoNoteOfFront(selfShard, run, h, atSource, i);
    }
  }

  /** A note that was just sent is neither consumed nor erased. */
  lemma JustSent(selfShard: uint32, run: seq<Event>, h: Hash, atSource: bool)
    requires run != [] && NoteIn(selfShard, Last(run), h, atSource).Some?
    ensures !Consumed(selfShard, run, h, atSource) && !Erased(selfShard, run, h, atSource)
  {
    hide NoteIn, FindsAt, PutsAt;
    forall i | FindsAt(selfShard, run, h, i)
      ensures !NoNoteFrom(selfShard, run, h, atSource, i)
    {
      FindsInside(selfShard, run, h, i);
    }
  }

  /** The fate of the last note, told by the events of the run. */
  lemma {:induction false} FateTold(selfShard: uint32, run: seq<Event>, h: Hash, atSource: bool)
    ensures var f, last := FateOf(selfShard, run, h, atSource), LastNote(selfShard, run, h, atSource);
            && (f.Unsent? <==> last == None)
            && (last.Some? ==> f.note == last.value)
            && (f.Stored? || f.Lost? <==> Consumed(selfShard, run, h, atSource))
            && (f.Lost? <==> Erased(selfShard, run, h, atSource))
    decreases |run|
  {
    if run != [] {
      FateTold(selfShard, Front(run), h, atSource);
      if NoteIn(selfShard, Last(run), h, atSource).Some? {
        JustSent(selfShard, run, h, atSource);
      } else {
        ErasedStep(selfShard, run, h, atSource);
        if LastNote(selfShard, run, h, atSource).Some? {
          ConsumedStep(selfShard, run, h, atSource);
        }
        FindsOrPuts(Exec(selfShard, Front(run)), Last(run), h);
      }
      hide NoteIn, Finds, Puts, Exec, Consumed, Erased;
    } else {
      hide FindsAt, PutsAt;
    }
  }

  lemma FindsOrPuts(m: World, ev: Event, h: Hash)
    ensures !(Finds(m, ev, h) && Puts(m, ev, h))
  {
  }
}
