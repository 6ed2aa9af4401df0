/** One finalized snapshot of the subnet, and the checks a summary must pass against it. */
module ChainView {
  import opened Common

  /** What the node answers for one finalized block. */
  datatype Storage = Storage(
    block: u64,
    size: u16,
    tempo: u16,
    lastStep: u64,
    blocksSinceStep: u64,
    lastUpdates: seq<u64>,
    rateLimit: u64,
    keys: seq<(u16, string)>)

  datatype Snapshot = Snapshot(
    finalizedBlock: u64,
    tempo: u64,
    lastStep: u64,
    hotkeys: seq<string>,
    lastUpdates: seq<u64>,
    rateLimit: u64)

  datatype Summary = Summary(
    id: string,
    digest: string,
    epochStart: u64,
    epochEnd: u64,
    finalizedBlock: u64,
    tempo: u64,
    miners: seq<(u64, string)>,
    minerTarget: Option<u64>,
    taoPrice: Option<u64>)

  datatype ChainError =
    | KeyError(uid: int) | EmptySubnet | InconsistentEpoch | InvalidRoster
    | Tempo | StaleEpoch | BlockAhead | EpochStart | UidHotkey(miner: u64)

  /** The paged entries as one map; a later entry for a UID replaces an earlier one. */
  function Roster(entries: seq<(u16, string)>): map<int, string> {
    if entries == [] then map[]
    else
      var last := entries[|entries| - 1];
      Roster(entries[..|entries| - 1])[last.0 := last.1]
  }

  /** The hotkeys of UIDs `0..size`, or the lowest UID without one. */
  function Hotkeys(roster: map<int, string>, size: nat): Result<seq<string>, ChainError> {
    if size == 0 then Ok([])
    else
      match Hotkeys(roster, size - 1)
      case Err(e) => Err(e)
      case Ok(lower) => if size - 1 in roster then Ok(lower + [roster[size - 1]]) else Err(KeyError(size - 1))
  }

  function ReadSnapshot(st: Storage): Result<Snapshot, ChainError> {
    match Hotkeys(Roster(st.keys), st.size)
    case Err(e) => Err(e)
    case Ok(hotkeys) =>
      if st.size == 0 then Err(EmptySubnet)
      else if st.tempo == 0 || st.lastStep + st.blocksSinceStep > U64_MAX
              || st.lastStep + st.blocksSinceStep != st.block then Err(InconsistentEpoch)
      else if |hotkeys| != |st.lastUpdates| then Err(InvalidRoster)
      else Ok(Snapshot(st.block, st.tempo, st.lastStep, hotkeys, st.lastUpdates, st.rateLimit))
  }

  /** The snapshot as the validator reads it, paging the roster in one entry at a time. */
  method Read(st: Storage) returns (r: Result<Snapshot, ChainError>)
    ensures r == ReadSnapshot(st)
  {
    var roster: map<int, string> := map[];
    var next := 0;
    while next < |st.keys|
      invariant 0 <= next <= |st.keys|
      invariant roster == Roster(st.keys[..next])
    {
      assert st.keys[..next + 1][..next] == st.keys[..next];
      roster := roster[st.keys[next].0 := st.keys[next].1];
      next := next + 1;
    }
    assert st.keys[..next] == st.keys;
    var hotkeys := Hotkeys(roster, st.size);
    if hotkeys.Err? {
      return Err(hotkeys.error);
    }
    if st.size == 0 {
      return Err(EmptySubnet);
    }
    if st.tempo == 0 || st.lastStep + st.blocksSinceStep > U64_MAX || st.lastStep + st.blocksSinceStep != st.block {
      return Err(InconsistentEpoch);
    }
    if |hotkeys.value| != |st.lastUpdates| {
      return Err(InvalidRoster);
    }
    return Ok(Snapshot(st.block, st.tempo, st.lastStep, hotkeys.value, st.lastUpdates, st.rateLimit));
  }

  /** A snapshot's last epoch is behind its block, and every UID has a hotkey and a last update. */
  lemma {:induction false} SnapshotIsConsistent(st: Storage)
    requires ReadSnapshot(st).Ok?
    ensures var s := ReadSnapshot(st).value;
            && s.lastStep == st.lastStep <= s.finalizedBlock == st.block
            && s.tempo > 0 && 0 < |s.hotkeys| == |s.lastUpdates| == st.size
            && forall uid :: 0 <= uid < st.size ==> uid in Roster(st.keys) && s.hotkeys[uid] == Roster(st.keys)[uid]
  {
    HotkeysComplete(Roster(st.keys), st.size);
  }

  lemma {:induction false} HotkeysComplete(roster: map<int, string>, size: nat)
    ensures Hotkeys(roster, size).Ok? ==>
              && |Hotkeys(roster, size).value| == size
              && forall uid :: 0 <= uid < size ==> uid in roster && Hotkeys(roster, size).value[uid] == roster[uid]
    ensures Hotkeys(roster, size).Err? ==>
              && Hotkeys(roster, size).error.KeyError?
              && var uid := Hotkeys(roster, size).error.uid;
              && 0 <= uid < size && uid !in roster
              && forall lower :: 0 <= lower < uid ==> lower in roster
  {
    if size > 0 { HotkeysComplete(roster, size - 1); }
  }

  predicate HasKey(entries: seq<(u16, string)>, uid: int) {
    exists i :: 0 <= i < |entries| && entries[i].0 == uid
  }

  /** No later entry names the same UID. */
  predicate IsLast(entries: seq<(u16, string)>, i: int) {
    0 <= i < |entries| && forall j :: i < j < |entries| ==> entries[j].0 != entries[i].0
  }

  lemma HasKeyStep(entries: seq<(u16, string)>, uid: int)
    requires entries != []
    ensures HasKey(entries, uid) <==> HasKey(entries[..|entries| - 1], uid) || entries[|entries| - 1].0 == uid
  {
    var before := entries[..|entries| - 1];
    if HasKey(before, uid) {
      var i :| 0 <= i < |before| && before[i].0 == uid;
      assert entries[i].0 == uid;
    }
    if HasKey(entries, uid) && entries[|entries| - 1].0 != uid {
      var i :| 0 <= i < |entries| && entries[i].0 == uid;
      assert before[i].0 == uid;
    }
  }

  lemma {:induction false} RosterKeys(entries: seq<(u16, string)>, uid: int)
    ensures uid in Roster(entries) <==> HasKey(entries, uid)
  {
    if entries != [] {
      hide HasKey;
      RosterKeys(entries[..|entries| - 1], uid);
      HasKeyStep(entries, uid);
    }
  }

  /** The roster holds the last entry of every UID that has one. */
  lemma {:induction false} RosterHoldsLast(entries: seq<(u16, string)>, i: int)
    requires IsLast(entries, i)
    ensures entries[i].0 in Roster(entries) && Roster(entries)[entries[i].0] == entries[i].1
  {
    var n := |entries| - 1;
    if i < n {
      assert entries[n].0 != entries[i].0;
      RosterHoldsLast(entries[..n], i);
    }
  }

  /** What storage must hold for a snapshot to be read. */
  predicate Readable(st: Storage) {
    && st.size > 0 && (forall uid :: 0 <= uid < st.size ==> HasKey(st.keys, uid))
    && st.tempo > 0 && st.lastStep + st.blocksSinceStep == st.block
    && |st.lastUpdates| == st.size
  }

  /** A snapshot is read if and only if the roster is complete and the epoch adds up, and it is what storage holds. */
  lemma ReadsExactly(st: Storage)
    ensures ReadSnapshot(st).Ok? <==> Readable(st)
    ensures ReadSnapshot(st).Ok? ==>
              var s := ReadSnapshot(st).value;
              && s.finalizedBlock == st.block && s.tempo == st.tempo && s.lastStep == st.lastStep
              && s.lastUpdates == st.lastUpdates && s.rateLimit == st.rateLimit && |s.hotkeys| == st.size
              && forall i :: IsLast(st.keys, i) && st.keys[i].0 < st.size ==> s.hotkeys[st.keys[i].0] == st.keys[i].1
  {
    forall uid: int ensures uid in Roster(st.keys) <==> HasKey(st.keys, uid) { RosterKeys(st.keys, uid); }
    forall i | IsLast(st.keys, i) ensures st.keys[i].0 in Roster(st.keys)
      ensures Roster(st.keys)[st.keys[i].0] == st.keys[i].1
    {
      RosterHoldsLast(st.keys, i);
    }
    HotkeysComplete(Roster(st.keys), st.size);
    hide Roster, Hotkeys, HasKey;
  }

  /** Which check a storage fails: the lowest gap in the roster, then the empty subnet, the epoch, the lengths. */
  lemma ReadRefusal(st: Storage)
    ensures ReadSnapshot(st).Err? ==>
              match ReadSnapshot(st).error
              case KeyError(uid) =>
                0 <= uid < st.size && !HasKey(st.keys, uid) && forall u :: 0 <= u < uid ==> HasKey(st.keys, u)
              case EmptySubnet => st.size == 0
              case InconsistentEpoch =>
                && st.size > 0 && (forall u :: 0 <= u < st.size ==> HasKey(st.keys, u))
                && (st.tempo == 0 || st.lastStep + st.blocksSinceStep != st.block)
              case InvalidRoster =>
                && st.size > 0 && (forall u :: 0 <= u < st.size ==> HasKey(st.keys, u))
                && st.tempo > 0 && st.lastStep + st.blocksSinceStep == st.block
              case _ => false
  {
    forall uid: int ensures uid in Roster(st.keys) <==> HasKey(st.keys, uid) { RosterKeys(st.keys, uid); }
    HotkeysComplete(Roster(st.keys), st.size);
    hide Roster, Hotkeys, HasKey;
  }

  /** The first listed miner that the snapshot does not know under its UID. */
  function FirstUnknown(miners: seq<(u64, string)>, hotkeys: seq<string>): Option<u64> {
    if miners == [] then None
    else if miners[0].0 < |hotkeys| && hotkeys[miners[0].0] == miners[0].1 then FirstUnknown(miners[1..], hotkeys)
    else Some(miners[0].0)
  }

  /** Why a summary does not describe the snapshot's latest epoch, if it does not. */
  function ValidateChain(summary: Summary, s: Snapshot): Option<ChainError> {
    if summary.tempo != s.tempo then Some(Tempo)
    else if summary.epochEnd != s.lastStep then Some(StaleEpoch)
    else if summary.finalizedBlock > s.finalizedBlock then Some(BlockAhead)
    else if summary.epochStart != s.lastStep - s.tempo + 1 then Some(EpochStart)
    else
      match FirstUnknown(summary.miners, s.hotkeys)
      case None => None
      case Some(uid) => Some(UidHotkey(uid))
  }

  /** The snapshot knows the listed miner under its UID. */
  predicate Knows(s: Snapshot, miner: (u64, string)) {
    miner.0 < |s.hotkeys| && s.hotkeys[miner.0] == miner.1
  }

  /** The summary is of the snapshot's latest epoch, and names every miner under the UID its hotkey holds. */
  predicate Describes(summary: Summary, s: Snapshot) {
    && summary.tempo == s.tempo && summary.epochEnd == s.lastStep
    && summary.finalizedBlock <= s.finalizedBlock && summary.epochStart + s.tempo == s.lastStep + 1
    && forall i :: 0 <= i < |summary.miners| ==> Knows(s, summary.miners[i])
  }

  /** No miner is unknown exactly when every UID holds its hotkey; otherwise the first such is reported. */
  lemma {:induction false} FirstUnknownIsFirst(miners: seq<(u64, string)>, s: Snapshot)
    ensures FirstUnknown(miners, s.hotkeys).None? <==> forall i :: 0 <= i < |miners| ==> Knows(s, miners[i])
    ensures FirstUnknown(miners, s.hotkeys).Some? ==>
              exists i :: 0 <= i < |miners| && !Knows(s, miners[i])
                && miners[i].0 == FirstUnknown(miners, s.hotkeys).value
                && forall j :: 0 <= j < i ==> Knows(s, miners[j])
  {
    if miners != [] {
      FirstUnknownIsFirst(miners[1..], s);
      assert forall i :: 0 < i < |miners| ==> miners[i] == miners[1..][i - 1];
      if Knows(s, miners[0]) && FirstUnknown(miners, s.hotkeys).Some? {
        var i :| 0 <= i < |miners[1..]| && !Knows(s, miners[1..][i])
          && miners[1..][i].0 == FirstUnknown(miners, s.hotkeys).value
          && forall j :: 0 <= j < i ==> Knows(s, miners[1..][j]);
        assert miners[i + 1] == miners[1..][i];
        assert forall j :: 0 <= j < i + 1 ==> Knows(s, miners[j]);
      }
    }
  }

  /**
   A summary is accepted if and only if it describes the snapshot. Otherwise the first check that fails
   is reported, and among the miners the first that does not match.
   */
  lemma AcceptsExactly(summary: Summary, s: Snapshot)
    ensures ValidateChain(summary, s).None? <==> Describes(summary, s)
    ensures ValidateChain(summary, s).Some? ==>
              match ValidateChain(summary, s).value
              case Tempo => summary.tempo != s.tempo
              case StaleEpoch => summary.tempo == s.tempo && summary.epochEnd != s.lastStep
              case BlockAhead =>
                && summary.tempo == s.tempo && summary.epochEnd == s.lastStep
                && summary.finalizedBlock > s.finalizedBlock
              case EpochStart =>
                && summary.tempo == s.tempo && summary.epochEnd == s.lastStep
                && summary.finalizedBlock <= s.finalizedBlock && summary.epochStart + s.tempo != s.lastStep + 1
              case UidHotkey(uid) =>
                && summary.tempo == s.tempo && summary.epochEnd == s.lastStep
                && summary.finalizedBlock <= s.finalizedBlock && summary.epochStart + s.tempo == s.lastStep + 1
                && exists i :: 0 <= i < |summary.miners| && !Knows(s, summary.miners[i]) && summary.miners[i].0 == uid
                     && forall j :: 0 <= j < i ==> Knows(s, summary.miners[j])
              case _ => false
  {
    FirstUnknownIsFirst(summary.miners, s);
  }
}
