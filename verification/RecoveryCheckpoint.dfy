/**
 The recovery checkpoint: a round with one pinned header hash per shard, followed by a discarded
 range of rounds; and the exclusion handler that is configured with it.
 */
module RecoveryCheckpoints {
  import opened Machine
  import opened Chain
  import opened Text
  import opened RoundExclusions

  const HASH_SIZE := 32
  const MIN_RECOVERY_CHAINS := 2

  datatype HeaderConfig = HeaderConfig(shardID: uint32, hash: string)
  datatype CheckpointConfig = CheckpointConfig(enabled: bool, round: uint64, headers: seq<HeaderConfig>)
  datatype Config = Config(roundExclusions: seq<Interval>, checkpoint: CheckpointConfig)

  datatype RecoveryCheckpoint = RecoveryCheckpoint(round: uint64, excludedEnd: uint64, headerHashes: map<uint32, seq<byte>>)

  // ---------- construction ----------

  /** The scan over the intervals: None if one contains the round, else the end of the last one that begins after it. */
  function ScanIntervals(intervals: seq<Interval>, round: uint64): Option<uint64> {
    if intervals == [] then Some(0)
    else
      var front, iv := ScanIntervals(intervals[..|intervals| - 1], round), intervals[|intervals| - 1];
      if front == None || Contains(iv, round) then None
      else if iv.start == round + 1 then Some(iv.end)
      else front
  }

  /** The scan over the headers: None on a repeated shard or a bad hash. */
  function ScanHeaders(headers: seq<HeaderConfig>): Option<map<uint32, seq<byte>>> {
    if headers == [] then Some(map[])
    else
      match ScanHeaders(headers[..|headers| - 1])
      case None => None
      case Some(hashes) =>
        var entry := headers[|headers| - 1];
        if entry.shardID in hashes then None
        else
          match DecodeHex(entry.hash)
          case None => None
          case Some(hash) => if |hash| == HASH_SIZE then Some(hashes[entry.shardID := hash]) else None
  }

  /** None is an error; Some(None) is a disabled checkpoint. */
  function CheckpointOf(cfg: Config): Option<Option<RecoveryCheckpoint>> {
    var c := cfg.checkpoint;
    if !c.enabled then Some(None)
    else if c.round == 0 || c.round > MAX_INT - 1 then None
    else
      match ScanIntervals(cfg.roundExclusions, c.round)
      case None => None
      case Some(excludedEnd) =>
        if excludedEnd < c.round + 1 then None
        else
          match ScanHeaders(c.headers)
          case None => None
          case Some(hashes) =>
            if |hashes| < MIN_RECOVERY_CHAINS || META_SHARD !in hashes then None
            else Some(Some(RecoveryCheckpoint(c.round, excludedEnd, hashes)))
  }

  lemma ScanIntervalsSnoc(intervals: seq<Interval>, n: nat, round: uint64)
    requires n < |intervals|
    ensures ScanIntervals(intervals[..n + 1], round) ==
            var front, iv := ScanIntervals(intervals[..n], round), intervals[n];
            if front == None || Contains(iv, round) then None else if iv.start == round + 1 then Some(iv.end) else front
  {
    assert intervals[..n + 1][..n] == intervals[..n];
  }

  lemma {:induction false} ScanIntervalsFails(intervals: seq<Interval>, n: nat, round: uint64)
    requires n <= |intervals| && ScanIntervals(intervals[..n], round) == None
    ensures ScanIntervals(intervals, round) == None
    decreases |intervals| - n
  {
    if n < |intervals| {
      ScanIntervalsSnoc(intervals, n, round);
      ScanIntervalsFails(intervals, n + 1, round);
    } else {
      assert intervals[..n] == intervals;
    }
  }

  lemma ScanHeadersSnoc(headers: seq<HeaderConfig>, n: nat)
    requires n < |headers| && ScanHeaders(headers[..n]).Some?
    ensures var hashes, entry := ScanHeaders(headers[..n]).value, headers[n];
            && (entry.shardID in hashes ==> ScanHeaders(headers[..n + 1]) == None)
            && (entry.shardID !in hashes ==>
                match DecodeHex(entry.hash)
                case None => ScanHeaders(headers[..n + 1]) == None
                case Some(hash) =>
                  ScanHeaders(headers[..n + 1]) == if |hash| == HASH_SIZE then Some(hashes[entry.shardID := hash]) else None)
  {
    assert headers[..n + 1][..n] == headers[..n];
    hide DecodeHex;
  }

  lemma {:induction false} ScanHeadersFails(headers: seq<HeaderConfig>, n: nat)
    requires n <= |headers| && ScanHeaders(headers[..n]) == None
    ensures ScanHeaders(headers) == None
    decreases |headers| - n
  {
    if n < |headers| {
      assert headers[..n + 1][..n] == headers[..n];
      ScanHeadersFails(headers, n + 1);
    } else {
      assert headers[..n] == headers;
    }
  }

  method NewRecoveryCheckpoint(cfg: Config) returns (checkpoint: Option<RecoveryCheckpoint>, err: Option<ExclusionError>)
    ensures err == None ==> CheckpointOf(cfg) == Some(checkpoint)
    ensures err.Some? ==> CheckpointOf(cfg) == None && err == Some(InvalidRecoveryCheckpoint)
  {
    checkpoint, err := None, None;
    var c := cfg.checkpoint;
    if !c.enabled {
      return;
    }
    if c.round == 0 || c.round > MAX_INT - 1 {
      err := Some(InvalidRecoveryCheckpoint);
      return;
    }
    var excludedEnd, e := ScanIntervalsLoop(cfg.roundExclusions, c.round);
    if e.Some? || excludedEnd < c.round + 1 {
      err := Some(InvalidRecoveryCheckpoint);
      return;
    }
    var hashes, e' := ScanHeadersLoop(c.headers);
    if e'.Some? || |hashes| < MIN_RECOVERY_CHAINS || META_SHARD !in hashes {
      err := Some(InvalidRecoveryCheckpoint);
      return;
    }
    checkpoint := Some(RecoveryCheckpoint(c.round, excludedEnd, hashes));
  }

  method ScanIntervalsLoop(intervals: seq<Interval>, round: uint64) returns (excludedEnd: uint64, err: Option<ExclusionError>)
    ensures err == None ==> ScanIntervals(intervals, round) == Some(excludedEnd)
    ensures err.Some? ==> ScanIntervals(intervals, round) == None
  {
    excludedEnd, err := 0, None;
    var i := 0;
    while i < |intervals|
      invariant i <= |intervals|
      invariant ScanIntervals(intervals[..i], round) == Some(excludedEnd)
    {
      var interval := intervals[i];
      ScanIntervalsSnoc(intervals, i, round);
      if interval.start <= round && round <= interval.end {
        ScanIntervalsFails(intervals, i + 1, round);
        err := Some(InvalidRecoveryCheckpoint);
        return;
      }
      if interval.start == round + 1 {
        excludedEnd := interval.end;
      }
      i := i + 1;
    }
    assert intervals[..i] == intervals;
  }

  method ScanHeadersLoop(headers: seq<HeaderConfig>) returns (hashes: map<uint32, seq<byte>>, err: Option<ExclusionError>)
    ensures err == None ==> ScanHeaders(headers) == Some(hashes)
    ensures err.Some? ==> ScanHeaders(headers) == None
  {
    hashes, err := map[], None;
    var i := 0;
    while i < |headers|
      invariant i <= |headers|
      invariant ScanHeaders(headers[..i]) == Some(hashes)
    {
      var entry := headers[i];
      ScanHeadersSnoc(headers, i);
      hide DecodeHex;
      var hash := DecodeHex(entry.hash);
      if entry.shardID in hashes || hash == None || |hash.value| != HASH_SIZE {
        ScanHeadersFails(headers, i + 1);
        err := Some(InvalidRecoveryCheckpoint);
        return;
      }
      hashes := hashes[entry.shardID := hash.value];
      i := i + 1;
    }
    assert headers[..i] == headers;
  }

  // ---------- lookups ----------

  function HeaderHash(rc: Option<RecoveryCheckpoint>, shardID: uint32): Option<seq<byte>> {
    if rc == None || shardID !in rc.value.headerHashes then None else Some(rc.value.headerHashes[shardID])
  }

  predicate IsDiscarded(rc: Option<RecoveryCheckpoint>, round: uint64, shardID: uint32, hash: seq<byte>) {
    && rc.Some?
    && if round > rc.value.round && round <= rc.value.excludedEnd then true
       else if round != rc.value.round then false
       else shardID !in rc.value.headerHashes || rc.value.headerHashes[shardID] != hash
  }

  function Below(n: uint32): (r: set<uint32>)
    ensures forall s: uint32 :: s in r <==> s < n
    ensures |r| == n
  {
    if n == 0 then {} else Below(n - 1) + {n - 1}
  }

  /** The shards 0 to n - 1 and the metachain. */
  function Shards(n: uint32): (r: set<uint32>)
    ensures |r| == n + 1
  {
    Below(n) + {META_SHARD}
  }

  /** Counting the pinned shards and looking up the expected ones is enough, by pigeonhole. */
  lemma Pigeonhole(hashes: map<uint32, seq<byte>>, n: uint32)
    requires |hashes| == n + 1 && Shards(n) <= hashes.Keys
    ensures hashes.Keys == Shards(n)
  {
    var extra := hashes.Keys - Shards(n);
    assert hashes.Keys == Shards(n) + extra;
    assert |hashes.Keys| == |Shards(n)| + |extra|;
    assert |extra| == 0;
  }

  /** HasAllShards holds exactly if the pinned shards are 0 to n - 1 and the metachain, each with a hash. */
  method HasAllShards(rc: Option<RecoveryCheckpoint>, numShards: uint32) returns (all: bool)
    ensures all <==> rc.Some? && rc.value.headerHashes.Keys == Shards(numShards)
                     && forall s :: s in rc.value.headerHashes ==> rc.value.headerHashes[s] != []
  {
    all := false;
    if rc == None || |rc.value.headerHashes| != numShards + 1 {
      assert rc.Some? ==> |rc.value.headerHashes.Keys| != |Shards(numShards)|;
      return;
    }
    var hashes := rc.value.headerHashes;
    var shardID := 0;
    while shardID < numShards
      invariant shardID <= numShards
      invariant forall s: uint32 :: 0 <= s < shardID ==> s in hashes && hashes[s] != []
    {
      if shardID !in hashes || |hashes[shardID]| == 0 {
        assert shardID in Shards(numShards);
        return;
      }
      shardID := shardID + 1;
    }
    all := META_SHARD in hashes && |hashes[META_SHARD]| != 0;
    if all {
      Pigeonhole(hashes, numShards);
    } else {
      assert META_SHARD in Shards(numShards);
    }
  }

  // ---------- what the scans find ----------

  lemma ValidFront(front: seq<Interval>, last: Interval)
    requires ValidConfiguration(front + [last])
    ensures ValidConfiguration(front) && last.start <= last.end
  {
    var intervals := front + [last];
    assert intervals[|front|] == last;
    assert forall i :: 0 <= i < |front| ==> intervals[i] == front[i];
  }

  /** Disjoint intervals do not begin at the same round. */
  lemma OneBeginning(front: seq<Interval>, last: Interval, round: uint64)
    requires ValidConfiguration(front + [last]) && round < MAX_INT
    ensures forall iv :: iv in front && iv.start == round + 1 ==> last.start != round + 1
  {
    ValidFront(front, last);
    var intervals := front + [last];
    forall iv | iv in front && iv.start == round + 1
      ensures last.start != round + 1
    {
      var i :| 0 <= i < |front| && front[i] == iv;
      assert intervals[i] == iv && intervals[|front|] == last;
      assert Disjoint(intervals[i], intervals[|front|]) && iv.start <= iv.end;
      assert last.start == round + 1 ==> Contains(last, round + 1) && Contains(iv, round + 1);
    }
  }

  lemma {:induction false} ScanIntervalsFinds(intervals: seq<Interval>, round: uint64)
    requires ValidConfiguration(intervals) && round < MAX_INT
    ensures ScanIntervals(intervals, round) == None <==> Excluded(intervals, round)
    ensures ScanIntervals(intervals, round).Some? ==>
              forall iv :: iv in intervals && iv.start == round + 1 ==> iv.end == ScanIntervals(intervals, round).value
    ensures ScanIntervals(intervals, round).Some? && ScanIntervals(intervals, round).value > 0 ==>
              Interval(round + 1, ScanIntervals(intervals, round).value) in intervals
    decreases |intervals|
  {
    if intervals != [] {
      var front, last := intervals[..|intervals| - 1], intervals[|intervals| - 1];
      assert intervals == front + [last];
      ValidFront(front, last);
      ScanIntervalsFinds(front, round);
      MembersSplit(front, last, round);
      OneBeginning(front, last, round);
      hide ValidConfiguration, Excluded;
    }
  }

  /** For any intervals, overlapping or malformed ones too: the last one that begins right after the round decides. */
  lemma {:induction false} ScanIntervalsExactly(intervals: seq<Interval>, round: uint64, n: nat)
    requires round < MAX_INT && n <= |intervals|
    requires forall i :: n <= i < |intervals| ==> intervals[i].start != round + 1
    ensures ScanIntervals(intervals, round) == None <==> exists i :: 0 <= i < |intervals| && intervals[i].start <= round <= intervals[i].end
    ensures ScanIntervals(intervals, round).Some? && n == 0 ==> ScanIntervals(intervals, round) == Some(0)
    ensures ScanIntervals(intervals, round).Some? && n > 0 && intervals[n - 1].start == round + 1 ==>
              ScanIntervals(intervals, round) == Some(intervals[n - 1].end)
    decreases |intervals|
  {
    if intervals != [] {
      var last := |intervals| - 1;
      var front := intervals[..last];
      assert forall i :: 0 <= i < last ==> front[i] == intervals[i];
      ScanIntervalsExactly(front, round, if n <= last then n else FirstAfter(front, round));
    }
  }

  /** The least index from which on no interval begins right after the round. */
  function FirstAfter(intervals: seq<Interval>, round: uint64): (n: nat)
    requires round < MAX_INT
    ensures n <= |intervals| && forall i :: n <= i < |intervals| ==> intervals[i].start != round + 1
  {
    if intervals == [] then 0
    else if intervals[|intervals| - 1].start == round + 1 then |intervals|
    else FirstAfter(intervals[..|intervals| - 1], round)
  }

  lemma MembersSplit(front: seq<Interval>, last: Interval, round: uint64)
    ensures Excluded(front + [last], round) <==> Excluded(front, round) || Contains(last, round)
  {
    if Excluded(front, round) {
      var iv :| iv in front && Contains(iv, round);
      assert iv in front + [last];
    }
    if Contains(last, round) {
      assert last in front + [last];
    }
  }

  /** The configuration pins `hash` for the shard. */
  ghost predicate Pinned(headers: seq<HeaderConfig>, shardID: uint32, hash: seq<byte>) {
    exists i :: 0 <= i < |headers| && headers[i].shardID == shardID && DecodeHex(headers[i].hash) == Some(hash)
  }

  lemma {:induction false} ScanHeadersFinds(headers: seq<HeaderConfig>, shardID: uint32, hash: seq<byte>)
    requires ScanHeaders(headers).Some?
    ensures Pinned(headers, shardID, hash) <==>
            shardID in ScanHeaders(headers).value && ScanHeaders(headers).value[shardID] == hash
    ensures (exists i :: 0 <= i < |headers| && headers[i].shardID == shardID) <==> shardID in ScanHeaders(headers).value
    ensures shardID in ScanHeaders(headers).value ==> |ScanHeaders(headers).value[shardID]| == HASH_SIZE
    decreases |headers|
  {
    hide DecodeHex;
    if headers != [] {
      var front, last := headers[..|headers| - 1], headers[|headers| - 1];
      assert headers == front + [last];
      ScanHeadersFinds(front, shardID, hash);
      if Pinned(front, shardID, hash) {
        var i :| 0 <= i < |front| && front[i].shardID == shardID && DecodeHex(front[i].hash) == Some(hash);
        assert headers[i] == front[i];
      }
      if Pinned(headers, shardID, hash) && last.shardID != shardID {
        var i :| 0 <= i < |headers| && headers[i].shardID == shardID && DecodeHex(headers[i].hash) == Some(hash);
        assert front[i] == headers[i];
      }
      assert headers[|headers| - 1] == last;
    }
  }

  /** An accepted checkpoint hands out exactly the pinned hashes; without a checkpoint there are none. */
  lemma HeaderHashIsPinned(cfg: Config, shardID: uint32, hash: seq<byte>)
    requires CheckpointOf(cfg).Some?
    ensures HeaderHash(CheckpointOf(cfg).value, shardID) == Some(hash) <==>
            cfg.checkpoint.enabled && Pinned(cfg.checkpoint.headers, shardID, hash)
    ensures HeaderHash(CheckpointOf(cfg).value, shardID) == None <==>
            cfg.checkpoint.enabled ==> forall i :: 0 <= i < |cfg.checkpoint.headers| ==> cfg.checkpoint.headers[i].shardID != shardID
  {
    if cfg.checkpoint.enabled {
      ScanHeadersFinds(cfg.checkpoint.headers, shardID, hash);
    }
    hide Pinned, ScanHeaders, ScanIntervals;
  }

  /** Every entry has its own shard and a hash of the right length. */
  ghost predicate ProperHeaders(headers: seq<HeaderConfig>) {
    && (forall i :: 0 <= i < |headers| ==>
          DecodeHex(headers[i].hash).Some? && |DecodeHex(headers[i].hash).value| == 32)
    && (forall i, j :: 0 <= i < j < |headers| ==> headers[i].shardID != headers[j].shardID)
  }

  lemma {:induction false} ScanHeadersAccepts(headers: seq<HeaderConfig>)
    ensures ScanHeaders(headers).Some? <==> ProperHeaders(headers)
    ensures ScanHeaders(headers).Some? ==> |ScanHeaders(headers).value| == |headers|
    decreases |headers|
  {
    hide DecodeHex;
    if headers != [] {
      var front, last := headers[..|headers| - 1], headers[|headers| - 1];
      assert headers == front + [last];
      ScanHeadersAccepts(front);
      assert ProperHeaders(headers) ==> ProperHeaders(front);
      if ScanHeaders(front).Some? {
        ScanHeadersFinds(front, last.shardID, []);
        assert headers[|headers| - 1] == last;
        hide Pinned;
        if last.shardID in ScanHeaders(front).value {
          var i :| 0 <= i < |front| && front[i].shardID == last.shardID;
          assert headers[i].shardID == last.shardID;
        }
      }
    }
  }

  // ---------- the configured checkpoint ----------

  /** When a checkpoint is accepted, in terms of the configuration alone. */
  lemma CheckpointAccepted(cfg: Config)
    requires ValidConfiguration(cfg.roundExclusions)
    ensures !cfg.checkpoint.enabled ==> CheckpointOf(cfg) == Some(None)
    ensures cfg.checkpoint.enabled ==>
            (CheckpointOf(cfg).Some? <==>
             && 1 <= cfg.checkpoint.round < 0x7FFF_FFFF_FFFF_FFFF
             && !Excluded(cfg.roundExclusions, cfg.checkpoint.round)
             && (exists iv :: iv in cfg.roundExclusions && iv.start == cfg.checkpoint.round + 1)
             && ProperHeaders(cfg.checkpoint.headers)
             && |cfg.checkpoint.headers| >= 2
             && (exists i :: 0 <= i < |cfg.checkpoint.headers| && cfg.checkpoint.headers[i].shardID == 0xFFFF_FFFF))
  {
    var c := cfg.checkpoint;
    ScanHeadersAccepts(c.headers);
    if ScanHeaders(c.headers).Some? {
      ScanHeadersFinds(c.headers, META_SHARD, []);
    }
    hide ScanHeaders, ProperHeaders, Pinned;
    if 1 <= c.round < MAX_INT {
      ScanIntervalsFinds(cfg.roundExclusions, c.round);
      hide ScanIntervals, Excluded;
      forall iv | iv in cfg.roundExclusions
        ensures iv.start <= iv.end
      {
        var i :| 0 <= i < |cfg.roundExclusions| && cfg.roundExclusions[i] == iv;
      }
    }
  }

  /** The discarded range after the checkpoint is exactly one configured interval. */
  lemma DiscardedRangeIsConfigured(cfg: Config)
    requires ValidConfiguration(cfg.roundExclusions) && CheckpointOf(cfg).Some? && CheckpointOf(cfg).value.Some?
    ensures var rc := CheckpointOf(cfg).value.value;
            && rc.round == cfg.checkpoint.round < MAX_INT && cfg.checkpoint.enabled
            && Interval(rc.round + 1, rc.excludedEnd) in cfg.roundExclusions
            && !Excluded(cfg.roundExclusions, rc.round)
            && (forall iv :: iv in cfg.roundExclusions && iv.start == rc.round + 1 ==> iv.end == rc.excludedEnd)
  {
    ScanIntervalsFinds(cfg.roundExclusions, cfg.checkpoint.round);
  }

  /**
   The checkpoint on its own: it discards exactly the rounds of the configured interval that
   begins right after its round, and at its round the hashes that are not pinned for their shard.
   A disabled checkpoint discards nothing.
   */
  lemma DiscardedExactly(cfg: Config, round: uint64, shardID: uint32, hash: seq<byte>)
    requires ValidConfiguration(cfg.roundExclusions) && CheckpointOf(cfg).Some?
    ensures IsDiscarded(CheckpointOf(cfg).value, round, shardID, hash) <==>
            && cfg.checkpoint.enabled
            && (|| (exists iv :: iv in cfg.roundExclusions && iv.start == cfg.checkpoint.round + 1 && iv.start <= round <= iv.end)
                || (round == cfg.checkpoint.round && !Pinned(cfg.checkpoint.headers, shardID, hash)))
  {
    if cfg.checkpoint.enabled {
      DiscardedRangeIsConfigured(cfg);
      ScanHeadersFinds(cfg.checkpoint.headers, shardID, hash);
      var rc := CheckpointOf(cfg).value.value;
      assert Interval(rc.round + 1, rc.excludedEnd) in cfg.roundExclusions;
      hide Pinned, ScanHeaders, ScanIntervals, ValidConfiguration, Excluded;
    }
  }

  /** With the intervals, the checkpoint discards only competitors of the pinned headers. */
  lemma DiscardedIsNaive(cfg: Config, round: uint64, shardID: uint32, hash: seq<byte>)
    requires ValidConfiguration(cfg.roundExclusions) && CheckpointOf(cfg).Some?
    ensures (Excluded(cfg.roundExclusions, round) || IsDiscarded(CheckpointOf(cfg).value, round, shardID, hash)) <==>
            (|| Excluded(cfg.roundExclusions, round)
             || (cfg.checkpoint.enabled && round == cfg.checkpoint.round && !Pinned(cfg.checkpoint.headers, shardID, hash)))
    ensures IsDiscarded(CheckpointOf(cfg).value, round, shardID, hash) ==>
              cfg.checkpoint.enabled && (round == cfg.checkpoint.round || Excluded(cfg.roundExclusions, round))
    ensures cfg.checkpoint.enabled ==> forall iv :: iv in cfg.roundExclusions && iv.start == cfg.checkpoint.round + 1 && Contains(iv, round) ==>
              IsDiscarded(CheckpointOf(cfg).value, round, shardID, hash)
  {
    DiscardedExactly(cfg, round, shardID, hash);
    if cfg.checkpoint.enabled {
      DiscardedRangeIsConfigured(cfg);
      ScanHeadersFinds(cfg.checkpoint.headers, shardID, hash);
      var rc := CheckpointOf(cfg).value.value;
      var range := Interval(rc.round + 1, rc.excludedEnd);
      assert range in cfg.roundExclusions;
      assert rc.round < round <= rc.excludedEnd ==> Contains(range, round);
      hide Pinned, ScanHeaders, ScanIntervals;
    }
  }
}
