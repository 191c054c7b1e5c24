/**
 The round exclusion handler: the sorted intervals, and the optional recovery checkpoint.
 */
module ExclusionHandlers {
  import opened Machine
  import opened RoundExclusions
  import opened RecoveryCheckpoints

  class RoundExclusionHandler {
    const intervals: seq<Interval>
    var checkpoint: Option<RecoveryCheckpoint>

    ghost predicate Valid() {
      Increasing(intervals, |intervals|)
    }

    constructor (ordered: seq<Interval>)
      requires Increasing(ordered, |ordered|)
      ensures Valid() && intervals == ordered && checkpoint == None
    {
      intervals, checkpoint := ordered, None;
    }

    /** Bisection agrees with naive membership. */
    method IsRoundExcluded(round: uint64) returns (excluded: bool)
      requires Valid()
      ensures excluded <==> Excluded(intervals, round)
      ensures excluded <==> exists iv :: iv in intervals && iv.start <= round <= iv.end
    {
      var index := SearchByEnd(intervals, round);
      excluded := index < |intervals| && intervals[index].start <= round;
      if excluded {
        assert intervals[index] in intervals && Contains(intervals[index], round);
      } else {
        forall k | 0 <= k < |intervals|
          ensures !Contains(intervals[k], round)
        {
          assert index < k ==> intervals[index].end < intervals[k].start;
        }
      }
    }

    method IsHeaderExcluded(round: uint64, shardID: uint32, hash: seq<byte>) returns (excluded: bool)
      requires Valid()
      ensures excluded <==> Excluded(intervals, round) || IsDiscarded(checkpoint, round, shardID, hash)
    {
      excluded := IsRoundExcluded(round);
      if !excluded {
        excluded := IsDiscarded(checkpoint, round, shardID, hash);
      }
    }

    /** No well-formed interval is empty, so it is enough to look at their number. */
    method HasExcludedRounds() returns (b: bool)
      requires Valid()
      ensures b <==> exists round: uint64 :: Excluded(intervals, round)
    {
      b := |intervals| > 0;
      if b {
        assert intervals[0] in intervals && Contains(intervals[0], intervals[0].start);
        assert Excluded(intervals, intervals[0].start);
      }
    }
  }

  /**
   Construction succeeds exactly for valid configurations, and then the handler answers for
   the original, unsorted list.
   */
  method NewRoundExclusionHandler(intervals: seq<Interval>)
      returns (handler: RoundExclusionHandler?, err: Option<ExclusionError>)
    ensures handler != null <==> err == None
    ensures err == None <==> ValidConfiguration(intervals)
    ensures handler != null ==>
              && fresh(handler) && handler.Valid() && handler.checkpoint == None && multiset(handler.intervals) == multiset(intervals)
              && forall round :: Excluded(handler.intervals, round) <==> Excluded(intervals, round)
    ensures err.Some? ==> err.value == InvalidRoundExclusion || err.value == OverlappingRoundExclusions
    ensures err == Some(InvalidRoundExclusion) ==> exists iv :: iv in intervals && iv.start > iv.end
    ensures err == Some(OverlappingRoundExclusions) ==> Overlapping(intervals)
  {
    handler, err := null, None;
    var ordered := SortByStart(intervals);
    PermutationKeepsValidity(ordered, intervals);
    var index := 0;
    while index < |ordered|
      invariant index <= |ordered|
      invariant Increasing(ordered, index)
    {
      var interval := ordered[index];
      if interval.start > interval.end {
        assert interval in multiset(ordered);
        err := Some(InvalidRoundExclusion);
        return;
      }
      if index > 0 && interval.start <= ordered[index - 1].end {
        TouchingNeighbours(ordered, index, intervals);
        err := Some(OverlappingRoundExclusions);
        return;
      }
      index := index + 1;
    }
    IncreasingIsValid(ordered);
    forall round
      ensures Excluded(ordered, round) <==> Excluded(intervals, round)
    {
      SameMembers(ordered, intervals, round);
    }
    handler := new RoundExclusionHandler(ordered);
  }

  /** NewConfiguredRoundExclusionHandler; a missing configuration is an error. */
  method NewConfiguredRoundExclusionHandler(config: Option<Config>)
      returns (handler: RoundExclusionHandler?, err: Option<ExclusionError>)
    ensures handler != null <==> err == None
    ensures err == None <==>
              config.Some? && ValidConfiguration(config.value.roundExclusions) && CheckpointOf(config.value).Some?
    ensures handler != null ==>
              && fresh(handler) && handler.Valid() && Some(handler.checkpoint) == CheckpointOf(config.value)
              && forall round :: Excluded(handler.intervals, round) <==> Excluded(config.value.roundExclusions, round)
  {
    handler, err := null, None;
    if config == None {
      err := Some(InvalidRecoveryCheckpoint);
      return;
    }
    var cfg := config.value;
    var h, e := NewRoundExclusionHandler(cfg.roundExclusions);
    if e.Some? {
      err := e;
      return;
    }
    var checkpoint, e' := NewRecoveryCheckpoint(cfg);
    if e'.Some? {
      err := e';
      return;
    }
    h.checkpoint := checkpoint;
    handler := h;
  }

  /** Naive reading of a configuration: excluded by some interval, or a competitor of the pinned header. */
  ghost predicate HeaderExcludedNaively(cfg: Config, round: uint64, shardID: uint32, hash: seq<byte>) {
    || Excluded(cfg.roundExclusions, round)
    || (cfg.checkpoint.enabled && round == cfg.checkpoint.round && !Pinned(cfg.checkpoint.headers, shardID, hash))
  }

  /**
   The configured handler excludes exactly the headers whose round lies in some configured
   interval, and those at the checkpoint round whose hash is not the one pinned for their shard.
   */
  method IsConfiguredHeaderExcluded(cfg: Config, round: uint64, shardID: uint32, hash: seq<byte>)
      returns (excluded: bool, err: Option<ExclusionError>)
    ensures err == None ==> (excluded <==> HeaderExcludedNaively(cfg, round, shardID, hash))
    ensures err == None <==> ValidConfiguration(cfg.roundExclusions) && CheckpointOf(cfg).Some?
  {
    excluded := false;
    var handler;
    handler, err := NewConfiguredRoundExclusionHandler(Some(cfg));
    if handler != null {
      excluded := handler.IsHeaderExcluded(round, shardID, hash);
      DiscardedIsNaive(cfg, round, shardID, hash);
    }
  }
}
