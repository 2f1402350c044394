/**
 * Publishing and loading signed snapshots: publishers that commit a row and later replace the file,
 * loaders that check, build outside the lock, check again and swap, and the reloader that skips
 * files whose fingerprint it has already seen. Every interleaving of their steps is covered.
 */
module Snapshots {
  import opened Common

  type Body = string
  type Fingerprint = (int, int, int, int)

  /** A signed snapshot. Signatures cannot be forged, so only committed snapshots verify. */
  datatype Snapshot = Snapshot(version: nat, body: Body)

  datatype File = File(snapshot: Snapshot, mark: Fingerprint)

  datatype Publisher =
    | Resting
    | RollingBack(body: Body)        // read an old body; about to commit it
    | Committed(snapshot: Snapshot)  // the row is in; the file is not yet replaced

  datatype Loader =
    | Idle
    | Stated                         // the reloader has recorded a new fingerprint
    | Read(candidate: Snapshot)
    | Checked(candidate: Snapshot)   // not stale at the first check; building outside the lock
    | Built(candidate: Snapshot)

  /** Loader 0 is the reloader; the others call `load` directly. */
  datatype System = System(
    rows: seq<Snapshot>, publishers: seq<Publisher>, file: Option<File>,
    loaders: seq<Loader>, seen: Option<Fingerprint>, current: Option<Snapshot>,
    // What has happened so far: installed versions, and all files ever written.
    installed: seq<nat>, written: map<Fingerprint, Snapshot>)

  /** A publication refused for its body or its signing key commits nothing, and is no move. */
  datatype Move =
    | Commit(who: nat, body: Body)
    | ReadOld(who: nat, version: nat)
    | CommitOld(who: nat)
    | Replace(who: nat, mark: Fingerprint)
    | ReplaceFails(who: nat)
    | Stat
    | ReadFile(who: nat)
    | ReadFails(who: nat)            // unreadable, above the size limit, or rejected by the verifier
    | Check(who: nat)
    | Build(who: nat, succeeds: bool)
    | Swap(who: nat)

  /** `coalesce(max(version), 0) + 1`, under the advisory lock. */
  function NextVersion(rows: seq<Snapshot>): (v: nat)
    ensures forall k :: 0 <= k < |rows| ==> rows[k].version < v
    ensures v == 1 || exists k :: 0 <= k < |rows| && rows[k].version == v - 1
  {
    if rows == [] then 1
    else
      var rest := NextVersion(rows[..|rows| - 1]);
      var last := rows[|rows| - 1].version + 1;
      if last > rest then last else rest
  }

  function FindRow(rows: seq<Snapshot>, version: nat): (r: Option<Snapshot>)
    ensures r.Some? ==> r.value in rows && r.value.version == version
    ensures r.None? ==> forall k :: 0 <= k < |rows| ==> rows[k].version != version
  {
    if rows == [] then None
    else if rows[0].version == version then Some(rows[0])
    else FindRow(rows[1..], version)
  }

  /** The check made under the runtime's lock, before and after the build. */
  predicate IsStale(current: Option<Snapshot>, candidate: Snapshot) {
    current.Some? && candidate.version <= current.value.version
  }

  predicate CanRead(s: System, j: nat) {
    j < |s.loaders| && (if j == 0 then s.loaders[j].Stated? else s.loaders[j].Idle?)
  }

  predicate Enabled(s: System, m: Move) {
    match m
    case Commit(i, _) => i < |s.publishers| && s.publishers[i].Resting?
    case ReadOld(i, v) => i < |s.publishers| && s.publishers[i].Resting?
    case CommitOld(i) => i < |s.publishers| && s.publishers[i].RollingBack?
    case Replace(i, mark) =>
      i < |s.publishers| && s.publishers[i].Committed?
      && (mark in s.written ==> s.written[mark] == s.publishers[i].snapshot)  // fingerprints identify contents
    case ReplaceFails(i) => i < |s.publishers| && s.publishers[i].Committed?
    case Stat => |s.loaders| > 0 && s.loaders[0].Idle?
    case ReadFile(j) => CanRead(s, j)
    case ReadFails(j) => CanRead(s, j)
    case Check(j) => j < |s.loaders| && s.loaders[j].Read?
    case Build(j, _) => j < |s.loaders| && s.loaders[j].Checked?
    case Swap(j) => j < |s.loaders| && s.loaders[j].Built?
  }

  function AddRow(s: System, i: nat, body: Body): System
    requires i < |s.publishers|
  {
    var snapshot := Snapshot(NextVersion(s.rows), body);
    s.(rows := s.rows + [snapshot], publishers := s.publishers[i := Committed(snapshot)])
  }

  function Step(s: System, m: Move): System
    requires Enabled(s, m)
  {
    match m
    case Commit(i, body) => AddRow(s, i, body)
    case ReadOld(i, version) =>
      var row := FindRow(s.rows, version);
      if row.None? then s else s.(publishers := s.publishers[i := RollingBack(row.value.body)])
    case CommitOld(i) => AddRow(s, i, s.publishers[i].body)
    case Replace(i, mark) =>
      var snapshot := s.publishers[i].snapshot;
      s.(publishers := s.publishers[i := Resting], file := Some(File(snapshot, mark)),
         written := s.written[mark := snapshot])
    case ReplaceFails(i) => s.(publishers := s.publishers[i := Resting])
    case Stat =>
      if s.file.None? || s.seen == Some(s.file.value.mark) then s
      else s.(seen := Some(s.file.value.mark), loaders := s.loaders[0 := Stated])
    case ReadFile(j) =>
      if s.file.None? then s.(loaders := s.loaders[j := Idle])
      else s.(loaders := s.loaders[j := Read(s.file.value.snapshot)])
    case ReadFails(j) => s.(loaders := s.loaders[j := Idle])
    case Check(j) =>
      var c := s.loaders[j].candidate;
      if IsStale(s.current, c) then s.(loaders := s.loaders[j := Idle])
      else s.(loaders := s.loaders[j := Checked(c)])
    case Build(j, succeeds) =>
      s.(loaders := s.loaders[j := if succeeds then Built(s.loaders[j].candidate) else Idle])
    case Swap(j) =>
      var c := s.loaders[j].candidate;
      var done := s.(loaders := s.loaders[j := Idle]);
      if IsStale(s.current, c) then done
      else done.(current := Some(c), installed := s.installed + [c.version])
  }

  ghost predicate Initial(s: System) {
    && s.rows == [] && s.file.None? && s.seen.None? && s.current.None?
    && s.installed == [] && s.written == map[]
    && (forall i :: 0 <= i < |s.publishers| ==> s.publishers[i].Resting?)
    && (forall j :: 0 <= j < |s.loaders| ==> s.loaders[j].Idle?)
  }

  ghost predicate IsRun(run: seq<System>, moves: seq<Move>) {
    && |run| == |moves| + 1 && Initial(run[0])
    && forall k :: 0 <= k < |moves| ==> TakesStep(run, moves, k)
  }

  ghost predicate TakesStep(run: seq<System>, moves: seq<Move>, k: nat) {
    k < |moves| && k + 1 < |run| && Enabled(run[k], moves[k]) && run[k + 1] == Step(run[k], moves[k])
  }

  // ----- Versions and bodies -----

  /** The committed versions are exactly 1 to n, in order. */
  ghost predicate VersionsAreConsecutive(s: System) {
    forall k :: 0 <= k < |s.rows| ==> s.rows[k].version == k + 1
  }

  ghost predicate IsRow(rows: seq<Snapshot>, snapshot: Snapshot) {
    1 <= snapshot.version <= |rows| && rows[snapshot.version - 1] == snapshot
  }

  function Candidate(l: Loader): Option<Snapshot> {
    if l.Idle? || l.Stated? then None else Some(l.candidate)
  }

  /** Whatever is written, read or installed is a committed row, body included. */
  ghost predicate EverythingIsCommitted(s: System) {
    && (forall i :: 0 <= i < |s.publishers| && s.publishers[i].Committed? ==> IsRow(s.rows, s.publishers[i].snapshot))
    && (s.file.Some? ==> IsRow(s.rows, s.file.value.snapshot))
    && (forall j :: 0 <= j < |s.loaders| && Candidate(s.loaders[j]).Some? ==>
          IsRow(s.rows, Candidate(s.loaders[j]).value))
    && (s.current.Some? ==> IsRow(s.rows, s.current.value))
    && (forall p :: p in s.written ==> IsRow(s.rows, s.written[p]))
  }

  // ----- Installed generations -----

  /** Installed versions increase strictly, and the last is the current one. */
  ghost predicate CurrentIsNewest(s: System) {
    && (forall a, b :: 0 <= a < b < |s.installed| ==> s.installed[a] < s.installed[b])
    && (if s.current.None? then s.installed == []
        else s.installed != [] && s.installed[|s.installed| - 1] == s.current.value.version)
  }

  // ----- The reloader -----

  ghost predicate IsUnwritten(s: System, snapshot: Snapshot) {
    forall p :: p in s.written ==> s.written[p] != snapshot
  }

  /** Every snapshot is written at most once, by the publisher that committed it. */
  ghost predicate WritesAreUnique(s: System) {
    && (forall i :: 0 <= i < |s.publishers| && s.publishers[i].Committed? ==>
          IsUnwritten(s, s.publishers[i].snapshot))
    && (forall i, j :: 0 <= i < j < |s.publishers| && s.publishers[i].Committed? && s.publishers[j].Committed? ==>
          s.publishers[i].snapshot != s.publishers[j].snapshot)
    && (s.file.Some? ==> s.file.value.mark in s.written && s.written[s.file.value.mark] == s.file.value.snapshot)
    && (s.seen.Some? ==> s.seen.value in s.written)
  }

  ghost predicate FileIsSeen(s: System) {
    s.file.Some? && s.seen == Some(s.file.value.mark)
  }

  predicate AtLeast(current: Option<Snapshot>, version: nat) {
    current.Some? && current.value.version >= version
  }

  /** The reloader loses a load: reading, verifying or building fails for a snapshot the gateway does not have. */
  predicate LosesLoad(s: System, m: Move) {
    || (m.ReadFails? && m.who == 0 && s.file.Some? && !IsStale(s.current, s.file.value.snapshot))
    || (m.Build? && m.who == 0 && !m.succeeds)
  }

  /** The fingerprint that the reloader had seen when it last lost a load. */
  function LostMark(run: seq<System>, moves: seq<Move>, k: nat): Option<Fingerprint>
    requires k <= |moves| && k < |run|
  {
    if k == 0 then None
    else if LosesLoad(run[k - 1], moves[k - 1]) then run[k - 1].seen
    else LostMark(run, moves, k - 1)
  }

  /** If the file is the one last seen, the reloader is loading it, has loaded it, or has lost it. */
  ghost predicate SeenIsLoaded(s: System, lost: Option<Fingerprint>) {
    |s.loaders| > 0 && FileIsSeen(s) ==>
      var l, file := s.loaders[0], s.file.value;
      match l
      case Idle => AtLeast(s.current, file.snapshot.version) || lost == s.seen
      case Stated => true
      case _ => l.candidate == file.snapshot
  }

  /** With no loader but the reloader, a lost file that is still there has not been loaded. */
  ghost predicate LostIsBehind(s: System, lost: Option<Fingerprint>) {
    |s.loaders| == 1 ==>
      && (lost.Some? ==> lost.value in s.written)
      && (s.file.Some? && !FileIsSeen(s) ==> lost != Some(s.file.value.mark))
      && (FileIsSeen(s) && lost == s.seen ==>
            s.loaders[0].Idle? && !AtLeast(s.current, s.file.value.snapshot.version))
      && (s.loaders[0].Checked? || s.loaders[0].Built? ==> !IsStale(s.current, s.loaders[0].candidate))
      && (s.loaders[0].Stated? ==> s.file.Some?)
  }

  // ----- Every interleaving -----

  lemma CommittedStep(s: System, m: Move)
    requires VersionsAreConsecutive(s) && EverythingIsCommitted(s) && Enabled(s, m)
    ensures VersionsAreConsecutive(Step(s, m)) && EverythingIsCommitted(Step(s, m))
  {
    if m.Commit? {
      AddRowStep(s, m.who, m.body);
    } else if m.CommitOld? {
      AddRowStep(s, m.who, s.publishers[m.who].body);
    } else if m.ReadOld? || m.Replace? || m.ReplaceFails? {
      PublisherStep(s, m);
    } else {
      LoaderStep(s, m);
    }
  }

  lemma PublisherStep(s: System, m: Move)
    requires VersionsAreConsecutive(s) && EverythingIsCommitted(s) && Enabled(s, m)
    requires m.ReadOld? || m.Replace? || m.ReplaceFails?
    ensures VersionsAreConsecutive(Step(s, m)) && EverythingIsCommitted(Step(s, m))
  {
    hide NextVersion, FindRow, IsRow, AddRow, IsStale, Candidate;
  }

  lemma LoaderStep(s: System, m: Move)
    requires VersionsAreConsecutive(s) && EverythingIsCommitted(s) && Enabled(s, m)
    requires m.Stat? || m.ReadFile? || m.ReadFails? || m.Check? || m.Build? || m.Swap?
    ensures VersionsAreConsecutive(Step(s, m)) && EverythingIsCommitted(Step(s, m))
  {
    hide NextVersion, FindRow, IsRow, AddRow, IsStale;
    var s' := Step(s, m);
    var j := if m.Stat? then 0 else m.who;
    forall x | 0 <= x < |s'.loaders| && Candidate(s'.loaders[x]).Some?
      ensures IsRow(s'.rows, Candidate(s'.loaders[x]).value)
    {
      if x != j {
        assert s'.loaders[x] == s.loaders[x];
      }
    }
  }

  lemma AddRowStep(s: System, i: nat, body: Body)
    requires VersionsAreConsecutive(s) && EverythingIsCommitted(s) && i < |s.publishers|
    ensures VersionsAreConsecutive(AddRow(s, i, body)) && EverythingIsCommitted(AddRow(s, i, body))
  {
    hide NextVersion;
    ConsecutiveNext(s);
    var s' := AddRow(s, i, body);
    assert forall x :: IsRow(s.rows, x) ==> IsRow(s'.rows, x);
    assert IsRow(s'.rows, s'.publishers[i].snapshot);
  }

  lemma ConsecutiveNext(s: System)
    requires VersionsAreConsecutive(s)
    ensures NextVersion(s.rows) == |s.rows| + 1
  {
    if s.rows != [] {
      assert s.rows[|s.rows| - 1].version == |s.rows|;
    }
  }

  lemma NewestStep(s: System, m: Move)
    requires CurrentIsNewest(s) && Enabled(s, m)
    ensures CurrentIsNewest(Step(s, m))
    ensures s.current.Some? ==> AtLeast(Step(s, m).current, s.current.value.version)
  {
    hide NextVersion, FindRow;
  }

  lemma UniqueStep(s: System, m: Move)
    requires VersionsAreConsecutive(s) && EverythingIsCommitted(s) && WritesAreUnique(s) && Enabled(s, m)
    ensures WritesAreUnique(Step(s, m))
  {
    hide WritesAreUnique, AddRow, NextVersion, FindRow, IsStale, VersionsAreConsecutive, EverythingIsCommitted;
    if m.Commit? {
      UniqueRow(s, m.who, m.body);
    } else if m.CommitOld? {
      UniqueRow(s, m.who, s.publishers[m.who].body);
    } else if m.Replace? {
      UniqueReplace(s, m);
    } else {
      UniqueOther(s, m);
    }
  }

  lemma UniqueOther(s: System, m: Move)
    requires WritesAreUnique(s) && Enabled(s, m) && !m.Commit? && !m.CommitOld? && !m.Replace?
    ensures WritesAreUnique(Step(s, m))
  {
    hide NextVersion, FindRow, AddRow, IsStale, IsUnwritten;
    var s' := Step(s, m);
    assert s'.written == s.written && s'.file == s.file;
    assert forall p :: IsUnwritten(s, p) ==> IsUnwritten(s', p) by { UnwrittenDependsOnWrites(s, s'); }
  }

  lemma UnwrittenDependsOnWrites(s: System, s': System)
    requires s'.written == s.written
    ensures forall p :: IsUnwritten(s, p) ==> IsUnwritten(s', p)
  {
  }

  lemma UniqueReplace(s: System, m: Move)
    requires WritesAreUnique(s) && Enabled(s, m) && m.Replace?
    ensures WritesAreUnique(Step(s, m))
  {
    hide NextVersion, FindRow, AddRow, IsStale;
    assert IsUnwritten(s, s.publishers[m.who].snapshot);
    assert m.mark !in s.written;
  }

  lemma UniqueRow(s: System, i: nat, body: Body)
    requires VersionsAreConsecutive(s) && EverythingIsCommitted(s) && WritesAreUnique(s) && i < |s.publishers|
    ensures WritesAreUnique(AddRow(s, i, body))
  {
    hide NextVersion;
    ConsecutiveNext(s);
    assert forall p :: p in s.written ==> IsRow(s.rows, s.written[p]);
  }

  lemma SeenStep(s: System, m: Move, lost: Option<Fingerprint>)
    requires CurrentIsNewest(s) && WritesAreUnique(s) && SeenIsLoaded(s, lost) && Enabled(s, m)
    ensures SeenIsLoaded(Step(s, m), if LosesLoad(s, m) then s.seen else lost)
  {
    NewestStep(s, m);
    hide NextVersion, FindRow, CurrentIsNewest;
  }

  lemma LostStep(s: System, m: Move, lost: Option<Fingerprint>)
    requires WritesAreUnique(s) && SeenIsLoaded(s, lost) && LostIsBehind(s, lost) && Enabled(s, m)
    ensures LostIsBehind(Step(s, m), if LosesLoad(s, m) then s.seen else lost)
  {
    hide NextVersion, FindRow;
    if m.Replace? {
      hide WritesAreUnique;
      ReplaceIsFresh(s, m);
    }
  }

  lemma ReplaceIsFresh(s: System, m: Move)
    requires WritesAreUnique(s) && Enabled(s, m) && m.Replace?
    ensures m.mark !in s.written && (s.seen.Some? ==> s.seen.value in s.written)
  {
    assert IsUnwritten(s, s.publishers[m.who].snapshot);
  }

  lemma {:induction false} EveryRunKeepsTheInvariants(run: seq<System>, moves: seq<Move>, k: nat)
    requires IsRun(run, moves) && k < |run|
    ensures VersionsAreConsecutive(run[k]) && EverythingIsCommitted(run[k]) && CurrentIsNewest(run[k])
    ensures WritesAreUnique(run[k])
    ensures SeenIsLoaded(run[k], LostMark(run, moves, k)) && LostIsBehind(run[k], LostMark(run, moves, k))
  {
    if k > 0 {
      hide VersionsAreConsecutive, EverythingIsCommitted, CurrentIsNewest, WritesAreUnique, SeenIsLoaded, Step;
      hide LostIsBehind, LosesLoad;
      EveryRunKeepsTheInvariants(run, moves, k - 1);
      var s, m, lost := run[k - 1], moves[k - 1], LostMark(run, moves, k - 1);
      assert TakesStep(run, moves, k - 1);
      CommittedStep(s, m);
      NewestStep(s, m);
      UniqueStep(s, m);
      SeenStep(s, m, lost);
      LostStep(s, m, lost);
    }
  }

  // ----- What becomes of a candidate -----

  /** Move `k` is a build of `c` that succeeds. */
  ghost predicate BuiltAt(run: seq<System>, moves: seq<Move>, k: nat, c: Snapshot) {
    && k < |moves| && k < |run| && moves[k].Build? && moves[k].succeeds
    && moves[k].who < |run[k].loaders| && run[k].loaders[moves[k].who] == Checked(c)
  }

  ghost predicate BuiltBefore(run: seq<System>, moves: seq<Move>, l: nat, c: Snapshot) {
    exists k: nat :: k < l && BuiltAt(run, moves, k, c)
  }

  /** A built candidate is still about to be swapped in, or the gateway is at its version. */
  ghost predicate Kept(s: System, j: nat, c: Snapshot) {
    j < |s.loaders| && (s.loaders[j] == Built(c) || AtLeast(s.current, c.version))
  }

  lemma KeptStep(s: System, m: Move, j: nat, c: Snapshot)
    requires CurrentIsNewest(s) && Enabled(s, m) && Kept(s, j, c)
    ensures Kept(Step(s, m), j, c)
  {
    NewestStep(s, m);
    hide NextVersion, FindRow, CurrentIsNewest;
  }

  lemma {:induction false} BuiltIsKept(run: seq<System>, moves: seq<Move>, k: nat, l: nat, c: Snapshot)
    requires IsRun(run, moves) && k < l < |run| && BuiltAt(run, moves, k, c)
    ensures Kept(run[l], moves[k].who, c)
    decreases l
  {
    hide VersionsAreConsecutive, EverythingIsCommitted, CurrentIsNewest, WritesAreUnique, SeenIsLoaded, LostIsBehind;
    assert TakesStep(run, moves, l - 1);
    if l > k + 1 {
      hide Step, Enabled;
      BuiltIsKept(run, moves, k, l - 1, c);
      EveryRunKeepsTheInvariants(run, moves, l - 1);
      KeptStep(run[l - 1], moves[l - 1], moves[k].who, c);
    }
  }

  /** Where the current generation and the built candidates come from. */
  lemma {:induction false} CurrentWasBuilt(run: seq<System>, moves: seq<Move>, l: nat)
    requires IsRun(run, moves) && l < |run|
    ensures run[l].current.Some? ==> BuiltBefore(run, moves, l, run[l].current.value)
    ensures forall j :: 0 <= j < |run[l].loaders| && run[l].loaders[j].Built? ==>
              BuiltBefore(run, moves, l, run[l].loaders[j].candidate)
  {
    if l > 0 {
      hide NextVersion, FindRow, BuiltBefore;
      CurrentWasBuilt(run, moves, l - 1);
      assert TakesStep(run, moves, l - 1);
      var s, m := run[l - 1], moves[l - 1];
      forall c | BuiltBefore(run, moves, l - 1, c) || BuiltAt(run, moves, l - 1, c)
        ensures BuiltBefore(run, moves, l, c)
      {
        BuiltBeforeGrows(run, moves, l - 1, c);
      }
      if m.Build? && m.succeeds {
        assert BuiltAt(run, moves, l - 1, s.loaders[m.who].candidate);
      }
    }
  }

  lemma BuiltBeforeGrows(run: seq<System>, moves: seq<Move>, l: nat, c: Snapshot)
    requires BuiltBefore(run, moves, l, c) || BuiltAt(run, moves, l, c)
    ensures BuiltBefore(run, moves, l + 1, c)
  {
  }

  /**
   * Installed versions strictly increase. Once no loader is at work, the current generation is the newest of all
   * candidates that were verified and built in the run, and there is one exactly when something was built.
   */
  lemma CurrentIsTheMaximum(run: seq<System>, moves: seq<Move>, l: nat)
    requires IsRun(run, moves) && l < |run|
    requires forall j :: 0 <= j < |run[l].loaders| ==> Candidate(run[l].loaders[j]).None?
    ensures forall a, b :: 0 <= a < b < |run[l].installed| ==> run[l].installed[a] < run[l].installed[b]
    ensures forall k: nat, c :: k < l && BuiltAt(run, moves, k, c) ==> AtLeast(run[l].current, c.version)
    ensures run[l].current.Some? ==> BuiltBefore(run, moves, l, run[l].current.value)
  {
    EveryRunKeepsTheInvariants(run, moves, l);
    CurrentWasBuilt(run, moves, l);
    hide IsRun, BuiltAt;
    forall k: nat, c | k < l && BuiltAt(run, moves, k, c) ensures AtLeast(run[l].current, c.version) {
      BuiltIsKept(run, moves, k, l, c);
    }
  }

  /** Loader `j` is still at work on the candidate, the gateway is at its version, or its build has failed. */
  ghost predicate Accounted(run: seq<System>, moves: seq<Move>, k: nat, l: nat, j: nat, c: Snapshot)
    requires l < |run| && l <= |moves|
  {
    && j < |run[l].loaders|
    && (Candidate(run[l].loaders[j]) == Some(c) || AtLeast(run[l].current, c.version)
        || exists x :: k < x < l && moves[x] == Build(j, false))
  }

  lemma AccountedStep(run: seq<System>, moves: seq<Move>, k: nat, l: nat, j: nat, c: Snapshot)
    requires TakesStep(run, moves, l) && k < l && l + 1 <= |moves| && CurrentIsNewest(run[l])
    requires Accounted(run, moves, k, l, j, c)
    ensures Accounted(run, moves, k, l + 1, j, c)
  {
    var s, m := run[l], moves[l];
    NewestStep(s, m);
    hide NextVersion, FindRow, CurrentIsNewest;
    if Candidate(s.loaders[j]) == Some(c) && m == Build(j, false) {
      assert k < l < l + 1;
    }
  }

  /** A candidate that was read is never dropped: it is served, or something newer is, unless its own build failed. */
  lemma {:induction false} CandidatesAreNotDropped(run: seq<System>, moves: seq<Move>, k: nat, l: nat, j: nat)
    requires IsRun(run, moves) && k < l < |run| && moves[k] == ReadFile(j) && run[k].file.Some?
    ensures Accounted(run, moves, k, l, j, run[k].file.value.snapshot)
    decreases l
  {
    hide VersionsAreConsecutive, EverythingIsCommitted, CurrentIsNewest, WritesAreUnique, SeenIsLoaded, LostIsBehind;
    assert TakesStep(run, moves, l - 1);
    if l > k + 1 {
      hide Step, Enabled, Accounted;
      CandidatesAreNotDropped(run, moves, k, l - 1, j);
      EveryRunKeepsTheInvariants(run, moves, l - 1);
      AccountedStep(run, moves, k, l - 1, j, run[k].file.value.snapshot);
    }
  }

  /** Move `x` swaps in what its loader built. */
  ghost predicate InstallsAt(run: seq<System>, moves: seq<Move>, x: nat, c: Snapshot) {
    && x < |moves| && x < |run| && moves[x].Swap? && moves[x].who < |run[x].loaders|
    && run[x].loaders[moves[x].who] == Built(c) && !IsStale(run[x].current, c)
  }

  /**
   * Between two states the current generation is untouched, whatever loads were read, checked, built or lost, unless
   * a loader swapped in what it had built; then it is a built one of a greater version.
   */
  lemma {:induction false} FailedLoadsChangeNothing(run: seq<System>, moves: seq<Move>, k: nat, l: nat)
    requires IsRun(run, moves) && k <= l < |run|
    ensures run[l].current == run[k].current
         || (run[l].current.Some? && !IsStale(run[k].current, run[l].current.value)
             && BuiltBefore(run, moves, l, run[l].current.value)
             && exists x: nat :: k <= x < l && InstallsAt(run, moves, x, run[l].current.value))
    decreases l
  {
    CurrentWasBuilt(run, moves, l);
    if k < l {
      hide NextVersion, FindRow, BuiltBefore;
      FailedLoadsChangeNothing(run, moves, k, l - 1);
      assert TakesStep(run, moves, l - 1);
      if run[l].current != run[l - 1].current {
        assert InstallsAt(run, moves, l - 1, run[l].current.value);
      }
    }
  }

  /** Committed versions are 1..n, the gateway serves the committed body of its version, and never goes back. */
  lemma GatewayServesCommittedBodies(run: seq<System>, moves: seq<Move>, k: nat, l: nat)
    requires IsRun(run, moves) && k <= l < |run|
    ensures forall x :: 0 <= x < |run[k].rows| ==> run[k].rows[x].version == x + 1
    ensures run[k].rows <= run[l].rows
    ensures run[k].current.Some? ==>
              var c := run[k].current.value;
              && 1 <= c.version <= |run[l].rows| && run[l].rows[c.version - 1].body == c.body
              && AtLeast(run[l].current, c.version)
  {
    EveryRunKeepsTheInvariants(run, moves, k);
    LaterStates(run, moves, k, l);
  }

  lemma {:induction false} LaterStates(run: seq<System>, moves: seq<Move>, k: nat, l: nat)
    requires IsRun(run, moves) && k <= l < |run|
    ensures run[k].rows <= run[l].rows
    ensures run[k].current.Some? ==> AtLeast(run[l].current, run[k].current.value.version)
    decreases l
  {
    if k < l {
      hide VersionsAreConsecutive, EverythingIsCommitted, CurrentIsNewest, WritesAreUnique, SeenIsLoaded, Step, Enabled;
      hide LostIsBehind;
      LaterStates(run, moves, k, l - 1);
      EveryRunKeepsTheInvariants(run, moves, l - 1);
      assert TakesStep(run, moves, l - 1);
      NewestStep(run[l - 1], moves[l - 1]);
      RowsGrow(run[l - 1], moves[l - 1]);
    }
  }

  lemma RowsGrow(s: System, m: Move)
    requires Enabled(s, m)
    ensures s.rows <= Step(s, m).rows
  {
    hide NextVersion, FindRow;
  }

  lemma RowOf(rows: seq<Snapshot>, v: nat)
    requires 1 <= v <= |rows| && forall k :: 0 <= k < |rows| ==> rows[k].version == k + 1
    ensures FindRow(rows, v) == Some(rows[v - 1])
  {
    assert rows[v - 1].version == v;
    var row := FindRow(rows, v);
    var x :| 0 <= x < |rows| && rows[x] == row.value;
    assert rows[x].version == x + 1;
  }

  /**
   * Rolling back to a committed version reads its body; whatever is published meanwhile, the commit
   * puts that body under the next version, which no gateway of an earlier version finds stale.
   */
  lemma RollbackCommitsTheOldBody(run: seq<System>, moves: seq<Move>, k: nat, l: nat, i: nat, v: nat)
    requires IsRun(run, moves) && k < l < |moves| && 1 <= v <= |run[k].rows|
    requires moves[k] == ReadOld(i, v) && moves[l] == CommitOld(i)
    requires forall x :: k < x < l ==> !Acts(moves[x], i)
    ensures var n := |run[l].rows|;
            && run[l + 1].rows == run[l].rows + [Snapshot(n + 1, run[k].rows[v - 1].body)]
            && forall current: Option<Snapshot> :: (current.Some? ==> current.value.version <= n) ==>
                 !IsStale(current, run[l + 1].rows[n])
  {
    EveryRunKeepsTheInvariants(run, moves, k);
    EveryRunKeepsTheInvariants(run, moves, l);
    hide FindRow, NextVersion;
    assert TakesStep(run, moves, k);
    RowOf(run[k].rows, v);
    RollbackIsKept(run, moves, k + 1, l, i);
    assert TakesStep(run, moves, l);
    ConsecutiveNext(run[l]);
  }

  /** Whether a move is a step of publisher `i`. */
  predicate Acts(m: Move, i: nat) {
    (m.Commit? || m.ReadOld? || m.CommitOld? || m.Replace? || m.ReplaceFails?) && m.who == i
  }

  lemma {:induction false} RollbackIsKept(run: seq<System>, moves: seq<Move>, k: nat, l: nat, i: nat)
    requires IsRun(run, moves) && k <= l < |run| && i < |run[k].publishers|
    requires forall x :: k <= x < l ==> !Acts(moves[x], i)
    ensures i < |run[l].publishers| && run[l].publishers[i] == run[k].publishers[i]
    decreases l
  {
    if k < l {
      hide NextVersion, FindRow;
      RollbackIsKept(run, moves, k, l - 1, i);
      assert TakesStep(run, moves, l - 1);
    }
  }

  /** Move `k` finds the file it has already seen, and skips it. */
  ghost predicate Skips(run: seq<System>, moves: seq<Move>, k: nat) {
    k < |moves| && k + 1 < |run| && moves[k].Stat? && run[k].file.Some? && run[k + 1] == run[k]
  }

  /** A skipped file is one the gateway is not behind, unless the reloader lost its load. */
  lemma SkippingNeverLeavesTheGatewayBehind(run: seq<System>, moves: seq<Move>, k: nat)
    requires IsRun(run, moves) && Skips(run, moves, k)
    ensures AtLeast(run[k].current, run[k].file.value.snapshot.version) || LostMark(run, moves, k) == run[k].seen
  {
    hide VersionsAreConsecutive, EverythingIsCommitted, CurrentIsNewest, WritesAreUnique, LostIsBehind;
    EveryRunKeepsTheInvariants(run, moves, k);
    assert TakesStep(run, moves, k);
    assert run[k].seen == Some(run[k].file.value.mark);
  }

  /** With no loader but the reloader, the gateway is behind a skipped file exactly when the reloader lost its load. */
  lemma SkippingIsBehindExactlyAfterALostLoad(run: seq<System>, moves: seq<Move>, k: nat)
    requires IsRun(run, moves) && Skips(run, moves, k) && |run[k].loaders| == 1
    ensures !AtLeast(run[k].current, run[k].file.value.snapshot.version) <==> LostMark(run, moves, k) == run[k].seen
  {
    hide VersionsAreConsecutive, EverythingIsCommitted, CurrentIsNewest, WritesAreUnique;
    EveryRunKeepsTheInvariants(run, moves, k);
    assert TakesStep(run, moves, k);
    assert run[k].seen == Some(run[k].file.value.mark);
  }

  const START := System([], [Resting], None, [Idle], None, None, [], map[])
  const MARK: Fingerprint := (0, 0, 0, 0)

  /** The reloader with its loader at `l`, after one publication whose file it has seen. */
  function Published(body: Body, l: Loader): System {
    var only := Snapshot(1, body);
    System([only], [Resting], Some(File(only, MARK)), [l], Some(MARK), None, [], map[MARK := only])
  }

  lemma PublishAndStat(body: Body) returns (s1: System, s2: System)
    ensures Enabled(START, Commit(0, body)) && s1 == Step(START, Commit(0, body))
    ensures Enabled(s1, Replace(0, MARK)) && s2 == Step(s1, Replace(0, MARK))
    ensures Enabled(s2, Stat) && Step(s2, Stat) == Published(body, Stated)
  {
    s1 := Step(START, Commit(0, body));
    s2 := Step(s1, Replace(0, MARK));
    assert START.rows + [Snapshot(1, body)] == [Snapshot(1, body)];
  }

  /** A published file that is never read: the only version is committed, written, seen, lost and then skipped. */
  lemma UnreadableFileStaysBehind(body: Body) returns (run: seq<System>, moves: seq<Move>)
    ensures IsRun(run, moves) && |moves| == 5 && Skips(run, moves, 4) && moves[3] == ReadFails(0)
    ensures !AtLeast(run[4].current, run[4].file.value.snapshot.version)
  {
    var s1, s2 := PublishAndStat(body);
    moves := [Commit(0, body), Replace(0, MARK), Stat, ReadFails(0), Stat];
    run := [START, s1, s2, Published(body, Stated), Published(body, Idle), Published(body, Idle)];
    assert forall k :: 0 <= k < |moves| ==> TakesStep(run, moves, k);
  }

  /** The same when the file verifies and its build fails. */
  lemma FailedBuildStaysBehind(body: Body) returns (run: seq<System>, moves: seq<Move>)
    ensures IsRun(run, moves) && |moves| == 7 && Skips(run, moves, 6) && moves[5] == Build(0, false)
    ensures !AtLeast(run[6].current, run[6].file.value.snapshot.version)
  {
    var s1, s2 := PublishAndStat(body);
    var only := Snapshot(1, body);
    moves := [Commit(0, body), Replace(0, MARK), Stat, ReadFile(0), Check(0), Build(0, false), Stat];
    run := [START, s1, s2, Published(body, Stated), Published(body, Read(only)), Published(body, Checked(only)),
            Published(body, Idle), Published(body, Idle)];
    assert Step(run[3], moves[3]) == run[4] && Step(run[4], moves[4]) == run[5] && Step(run[5], moves[5]) == run[6];
    assert forall k :: 0 <= k < |moves| ==> TakesStep(run, moves, k);
  }

  // ----- The objects themselves, each running alone -----

  /** Replacing the file: an error before it takes effect, or after it, when the directory is synchronized. */
  datatype Writing = Succeeds | FailsBefore | FailsAfter

  class SnapshotPublisher {
    /** The check of a body before it is signed: no field of a sensitive name and no value that is not JSON. */
    const safe: Body -> bool
    var rows: seq<Snapshot>
    var file: Option<Snapshot>

    /** Every committed body has passed the check. */
    ghost predicate Valid()
      reads this
    {
      forall k :: 0 <= k < |rows| ==> safe(rows[k].body)
    }

    constructor (safe: Body -> bool)
      ensures Valid() && this.safe == safe && rows == [] && file == None
    {
      this.safe := safe;
      rows, file := [], None;
    }

    /**
     * `publish`: nothing is committed when the stored signing key differs or the body is unsafe. Otherwise the row
     * stays whatever the write does; an error may come before or after the replacement.
     */
    method Publish(body: Body, keyAgrees: bool, writing: Writing) returns (published: Option<Snapshot>)
      requires Valid()
      modifies this
      ensures Valid()
      ensures var snapshot := Snapshot(NextVersion(old(rows)), body);
              if !keyAgrees || !safe(body) then published.None? && rows == old(rows) && file == old(file)
              else
                && rows == old(rows) + [snapshot]
                && published == (if writing.Succeeds? then Some(snapshot) else None)
                && file == (if writing.FailsBefore? then old(file) else Some(snapshot))
    {
      if !keyAgrees {
        return None;
      }
      var version := 0;
      for k := 0 to |rows|
        invariant version + 1 == NextVersion(rows[..k])
      {
        assert rows[..k + 1][..k] == rows[..k];
        if rows[k].version > version {
          version := rows[k].version;
        }
      }
      assert rows[..|rows|] == rows;
      if !safe(body) {
        return None;
      }
      var snapshot := Snapshot(version + 1, body);
      rows := rows + [snapshot];
      if writing.FailsBefore? {
        return None;
      }
      file := Some(snapshot);
      published := if writing.FailsAfter? then None else Some(snapshot);
    }

    /**
     * `rollback`: publishes the body of an old version again, which has passed the check before; an unknown version
     * changes nothing.
     */
    method Rollback(version: nat, keyAgrees: bool, writing: Writing) returns (published: Option<Snapshot>)
      requires Valid()
      modifies this
      ensures Valid()
      ensures var row := FindRow(old(rows), version);
              if row.None? || !keyAgrees then published.None? && rows == old(rows) && file == old(file)
              else
                var snapshot := Snapshot(NextVersion(old(rows)), row.value.body);
                && rows == old(rows) + [snapshot]
                && published == (if writing.Succeeds? then Some(snapshot) else None)
                && file == (if writing.FailsBefore? then old(file) else Some(snapshot))
    {
      var row := FindRow(rows, version);
      if row.None? {
        return None;
      }
      published := Publish(row.value.body, keyAgrees, writing);
    }
  }

  class VerifiedSnapshotRuntime {
    var current: Option<Snapshot>

    constructor ()
      ensures current == None
    {
      current := None;
    }

    /** `load`: `read` is the verified file, or nothing when it is missing, unreadable, oversized or rejected. */
    method Load(read: Option<Snapshot>, builds: bool) returns (loaded: bool)
      modifies this
      ensures loaded <==> read.Some? && builds && !IsStale(old(current), read.value)
      ensures current == if loaded then read else old(current)
    {
      if read.None? || IsStale(current, read.value) || !builds || IsStale(current, read.value) {
        return false;
      }
      current := read;
      loaded := true;
    }
  }

  class SnapshotFileReloader {
    const runtime: VerifiedSnapshotRuntime
    var seen: Option<Fingerprint>

    constructor (runtime: VerifiedSnapshotRuntime)
      ensures this.runtime == runtime && seen == None
    {
      this.runtime, seen := runtime, None;
    }

    /** `refresh_if_changed`: only a new fingerprint leads to a load, and it is remembered even if the load fails. */
    method RefreshIfChanged(file: Option<File>, verifies: bool, builds: bool) returns (loaded: bool)
      modifies this, runtime
      ensures seen == if file.Some? then Some(file.value.mark) else old(seen)
      ensures loaded <==> file.Some? && old(seen) != seen && verifies && builds
                          && !IsStale(old(runtime.current), file.value.snapshot)
      ensures runtime.current == if loaded then Some(file.value.snapshot) else old(runtime.current)
    {
      if file.None? || seen == Some(file.value.mark) {
        return false;
      }
      seen := Some(file.value.mark);
      loaded := runtime.Load(if verifies then Some(file.value.snapshot) else None, builds);
    }
  }
}
