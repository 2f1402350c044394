/**
 * The one-shot asset store: bytes are deleted, and seen to be gone, before they are handed out, with
 * writing and unlinking allowed to fail at every point.
 */
module Assets {
  import opened Common
  import opened Contracts

  type Bytes = seq<bv8>

  datatype Record = Record(tenant: string, filename: Option<string>, mime: Option<string>, expiresAt: real)

  /** What a put still has to record after writing its file. */
  datatype Entry = Entry(tenant: string, filename: Option<string>, mime: Option<string>)

  /** The record table, the files under the store's directory by asset id, and the files written but not recorded. */
  datatype Store = Store(records: map<string, Record>, disk: map<string, Bytes>, waiting: map<string, Entry>)

  datatype Config = Config(maxBytes: nat, ttl: real)

  /** What an unlink of an existing file does: removes it, raises, or returns with the file still there. */
  datatype Unlink = Removed | Raises | Stays

  /** Creating the file fails; all bytes are written; or writing fails, leaving `partial`, and clean-up unlinks it. */
  datatype Write = NotCreated | Written | Torn(partial: Bytes, cleanup: Unlink)

  /** One purge: the clock, the order in which the table is listed, and what each unlink does. */
  datatype Sweep = Sweep(now: real, order: seq<string>, unlinks: string -> Unlink)

  /**
   * The steps of the store's calls. `put` takes two: it purges, checks and writes, and later enters the record; calls
   * of other threads may come between. Every other call is one step.
   */
  datatype Op =
    | WriteFile(sweep: Sweep, id: string, tenant: string, bytes: Bytes, filename: Option<string>,
                mime: Option<string>, write: Write)
    | EnterRecord(id: string, recordedAt: real)
    | Consume(sweep: Sweep, id: string, tenant: string, readable: bool, unlink: Unlink)
    | Delete(sweep: Sweep, id: string, tenant: string, unlink: Unlink)
    | PurgeExpired(sweep: Sweep)
    | Clear(order: seq<string>, unlinks: string -> Unlink)

  datatype Error =
    | CleanupFailed | InvalidTenant | TooLarge | UnsafeFilename | WriteFailed | Unavailable | NotRemoved

  datatype Answer =
    | Accepted
    | Stored
    | Returned(bytes: Bytes, filename: Option<string>, mime: Option<string>)
    | Deleted(found: bool)
    | Done
    | Failed(error: Error)

  // ----- Specification -----

  /** File and record of `id` after an unlink that is checked, or nothing when the check raises. */
  function Unlinked(s: Store, id: string, unlink: Unlink): Option<Store> {
    if unlink.Raises? || (unlink.Stays? && id in s.disk) then None
    else Some(Store(s.records - {id}, s.disk - {id}, s.waiting))
  }

  /** Unlinks one by one until one fails. */
  function Sweeping(s: Store, ids: seq<string>, unlinks: string -> Unlink): (Store, bool)
    decreases |ids|
  {
    if ids == [] then (s, true)
    else
      match Unlinked(s, ids[0], unlinks(ids[0]))
      case None => (s, false)
      case Some(rest) => Sweeping(rest, ids[1..], unlinks)
  }

  function Expired(records: map<string, Record>, order: seq<string>, now: real): seq<string>
    decreases |order|
  {
    if order == [] then []
    else
      (if order[0] in records && records[order[0]].expiresAt <= now then [order[0]] else [])
      + Expired(records, order[1..], now)
  }

  function Purged(s: Store, sweep: Sweep): (Store, bool) {
    Sweeping(s, Expired(s.records, sweep.order, sweep.now), sweep.unlinks)
  }

  /** Shutdown unlinks every file and keeps the table until all are gone. */
  function Wiping(disk: map<string, Bytes>, ids: seq<string>, unlinks: string -> Unlink): (map<string, Bytes>, bool)
    decreases |ids|
  {
    if ids == [] then (disk, true)
    else
      match Unlinked(Store(map[], disk, map[]), ids[0], unlinks(ids[0]))
      case None => (disk, false)
      case Some(rest) => Wiping(rest.disk, ids[1..], unlinks)
  }

  predicate SafeName(filename: Option<string>) {
    filename.Some? ==> '/' !in filename.value && filename.value != "." && |filename.value| <= 255
  }

  function WriteNow(c: Config, s: Store, op: Op): (Store, Answer)
    requires op.WriteFile?
  {
    if !IsTenantId(op.tenant) then (s, Failed(InvalidTenant))
    else if |op.bytes| > c.maxBytes then (s, Failed(TooLarge))
    else if !SafeName(op.filename) then (s, Failed(UnsafeFilename))
    else
      match op.write
      case NotCreated => (s, Failed(WriteFailed))
      case Torn(partial, cleanup) =>
        (if cleanup.Removed? then s else s.(disk := s.disk[op.id := partial]), Failed(WriteFailed))
      case Written =>
        (s.(disk := s.disk[op.id := op.bytes], waiting := s.waiting[op.id := Entry(op.tenant, op.filename, op.mime)]),
         Accepted)
  }

  function EnterNow(c: Config, s: Store, op: Op): (Store, Answer)
    requires op.EnterRecord?
  {
    if op.id !in s.waiting then (s, Failed(Unavailable))
    else
      var e := s.waiting[op.id];
      var record := Record(e.tenant, e.filename, e.mime, op.recordedAt + c.ttl);
      (s.(records := s.records[op.id := record], waiting := s.waiting - {op.id}), Stored)
  }

  predicate Owns(s: Store, id: string, tenant: string) {
    id in s.records && s.records[id].tenant == tenant
  }

  function ConsumeNow(c: Config, s: Store, op: Op): (Store, Answer)
    requires op.Consume?
  {
    if !IsTenantId(op.tenant) then (s, Failed(InvalidTenant))
    else if !Owns(s, op.id, op.tenant) then (s, Failed(Unavailable))
    else if !op.readable || op.id !in s.disk then (s, Failed(NotRemoved))
    else
      match Unlinked(s, op.id, op.unlink)
      case None => (s, Failed(NotRemoved))
      case Some(rest) =>
        var data, record := s.disk[op.id], s.records[op.id];
        (rest, if |data| > c.maxBytes then Failed(TooLarge) else Returned(data, record.filename, record.mime))
  }

  function DeleteNow(s: Store, op: Op): (Store, Answer)
    requires op.Delete?
  {
    if !IsTenantId(op.tenant) then (s, Failed(InvalidTenant))
    else if !Owns(s, op.id, op.tenant) then (s, Deleted(false))
    else
      match Unlinked(s, op.id, op.unlink)
      case None => (s, Failed(NotRemoved))
      case Some(rest) => (rest, Deleted(true))
  }

  function Step(c: Config, s: Store, op: Op): (Store, Answer) {
    if op.Clear? then
      var (disk, ok) := Wiping(s.disk, op.order, op.unlinks);
      if ok then (s.(records := map[], disk := disk), Done) else (s.(disk := disk), Failed(CleanupFailed))
    else if op.EnterRecord? then EnterNow(c, s, op)
    else
      var (s', ok) := Purged(s, op.sweep);
      if !ok then (s', Failed(CleanupFailed))
      else
        match op
        case WriteFile(_, _, _, _, _, _, _) => WriteNow(c, s', op)
        case Consume(_, _, _, _, _) => ConsumeNow(c, s', op)
        case Delete(_, _, _, _) => DeleteNow(s', op)
        case PurgeExpired(_) => (s', Done)
  }

  // ----- The store -----

  class AssetStore {
    const config: Config
    var records: map<string, Record>
    var disk: map<string, Bytes>
    /** Puts that have written their file and not yet entered its record. */
    ghost var waiting: map<string, Entry>

    constructor (config: Config)
      ensures this.config == config && Value() == EMPTY
    {
      this.config := config;
      records, disk, waiting := map[], map[], map[];
    }

    ghost function Value(): Store
      reads this
    {
      Store(records, disk, waiting)
    }

    method Unlinking(id: string, unlink: Unlink) returns (gone: bool)
      modifies this`disk
      ensures var rest := Unlinked(old(Value()), id, unlink);
              && gone == rest.Some?
              && disk == (if gone then rest.value.disk else old(disk))
    {
      if unlink.Raises? {
        return false;
      }
      if unlink.Removed? {
        disk := disk - {id};
      }
      gone := id !in disk;
      assert gone ==> disk == disk - {id};
    }

    method Purge(sweep: Sweep) returns (ok: bool)
      modifies this
      ensures (Value(), ok) == Purged(old(Value()), sweep)
    {
      var expired: seq<string> := [];
      var i := 0;
      while i < |sweep.order|
        invariant 0 <= i <= |sweep.order|
        invariant expired + Expired(records, sweep.order[i..], sweep.now) == Expired(records, sweep.order, sweep.now)
        invariant Value() == old(Value())
      {
        var id := sweep.order[i];
        assert sweep.order[i..][1..] == sweep.order[i + 1..];
        var rest := Expired(records, sweep.order[i + 1..], sweep.now);
        if id in records && records[id].expiresAt <= sweep.now {
          assert (expired + [id]) + rest == expired + ([id] + rest);
          expired := expired + [id];
        } else {
          assert [] + rest == rest;
        }
        i := i + 1;
      }
      assert sweep.order[i..] == [] && expired + [] == expired;
      i := 0;
      assert expired[0..] == expired;
      while i < |expired|
        invariant 0 <= i <= |expired|
        invariant Sweeping(Value(), expired[i..], sweep.unlinks) == Sweeping(old(Value()), expired, sweep.unlinks)
      {
        assert expired[i..][1..] == expired[i + 1..];
        var gone := Unlinking(expired[i], sweep.unlinks(expired[i]));
        if !gone {
          return false;
        }
        records := records - {expired[i]};
        i := i + 1;
      }
      return true;
    }

    /** `put` of one thread with nothing in between: both steps. */
    method Put(op: Op, recordedAt: real) returns (answer: Answer)
      requires op.WriteFile?
      modifies this
      ensures var (written, first) := Step(config, old(Value()), op);
              if first.Accepted? then (Value(), answer) == Step(config, written, EnterRecord(op.id, recordedAt))
              else (Value(), answer) == (written, first)
    {
      answer := PutFile(op);
      if answer.Accepted? {
        answer := PutRecord(op.id, Entry(op.tenant, op.filename, op.mime), recordedAt);
      }
    }

    /** The first part of `put`: purge, checks, write, and clean-up of a failed write. */
    method PutFile(op: Op) returns (answer: Answer)
      requires op.WriteFile?
      modifies this
      ensures (Value(), answer) == Step(config, old(Value()), op)
      ensures answer.Accepted? ==> op.id in waiting && waiting[op.id] == Entry(op.tenant, op.filename, op.mime)
    {
      var ok := Purge(op.sweep);
      if !ok {
        return Failed(CleanupFailed);
      }
      if !IsTenantId(op.tenant) {
        return Failed(InvalidTenant);
      }
      if |op.bytes| > config.maxBytes {
        return Failed(TooLarge);
      }
      if !SafeName(op.filename) {
        return Failed(UnsafeFilename);
      }
      match op.write
      case NotCreated =>
        return Failed(WriteFailed);
      case Torn(partial, cleanup) =>
        if !cleanup.Removed? {
          disk := disk[op.id := partial];
        }
        return Failed(WriteFailed);
      case Written =>
        disk := disk[op.id := op.bytes];
        waiting := waiting[op.id := Entry(op.tenant, op.filename, op.mime)];
        return Accepted;
    }

    /** The second part of `put`, under the lock: read the clock and enter the record. */
    method PutRecord(id: string, e: Entry, recordedAt: real) returns (answer: Answer)
      requires id in waiting && waiting[id] == e
      modifies this
      ensures (Value(), answer) == Step(config, old(Value()), EnterRecord(id, recordedAt))
    {
      records := records[id := Record(e.tenant, e.filename, e.mime, recordedAt + config.ttl)];
      waiting := waiting - {id};
      answer := Stored;
    }

    method Consume(op: Op) returns (answer: Answer)
      requires op.Consume?
      modifies this
      ensures (Value(), answer) == Step(config, old(Value()), op)
    {
      var ok := Purge(op.sweep);
      if !ok {
        return Failed(CleanupFailed);
      }
      if !IsTenantId(op.tenant) {
        return Failed(InvalidTenant);
      }
      if op.id !in records || records[op.id].tenant != op.tenant {
        return Failed(Unavailable);
      }
      if !op.readable || op.id !in disk {
        return Failed(NotRemoved);
      }
      var data, record := disk[op.id], records[op.id];
      var gone := Unlinking(op.id, op.unlink);
      if !gone {
        return Failed(NotRemoved);
      }
      records := records - {op.id};
      answer := if |data| > config.maxBytes then Failed(TooLarge) else Returned(data, record.filename, record.mime);
    }

    method Delete(op: Op) returns (answer: Answer)
      requires op.Delete?
      modifies this
      ensures (Value(), answer) == Step(config, old(Value()), op)
    {
      var ok := Purge(op.sweep);
      if !ok {
        return Failed(CleanupFailed);
      }
      if !IsTenantId(op.tenant) {
        return Failed(InvalidTenant);
      }
      if op.id !in records || records[op.id].tenant != op.tenant {
        return Deleted(false);
      }
      var gone := Unlinking(op.id, op.unlink);
      if !gone {
        return Failed(NotRemoved);
      }
      records := records - {op.id};
      return Deleted(true);
    }

    method Clear(op: Op) returns (answer: Answer)
      requires op.Clear?
      modifies this
      ensures (Value(), answer) == Step(config, old(Value()), op)
    {
      var i := 0;
      assert op.order[0..] == op.order;
      while i < |op.order|
        invariant 0 <= i <= |op.order| && records == old(records) && waiting == old(waiting)
        invariant Wiping(disk, op.order[i..], op.unlinks) == Wiping(old(disk), op.order, op.unlinks)
      {
        assert op.order[i..][1..] == op.order[i + 1..];
        var gone := Unlinking(op.order[i], op.unlinks(op.order[i]));
        if !gone {
          return Failed(CleanupFailed);
        }
        i := i + 1;
      }
      records := map[];
      return Done;
    }
  }

  // ----- Runs -----

  const EMPTY := Store(map[], map[], map[])

  /** The store after the first `k` operations of a run. */
  function At(c: Config, ops: seq<Op>, k: nat): Store
    requires k <= |ops|
  {
    if k == 0 then EMPTY else Step(c, At(c, ops, k - 1), ops[k - 1]).0
  }

  function AnswerTo(c: Config, ops: seq<Op>, k: nat): Answer
    requires k < |ops|
  {
    Step(c, At(c, ops, k), ops[k]).1
  }

  /** Asset ids are random tokens: no two puts draw the same one. */
  ghost predicate FreshIds(ops: seq<Op>) {
    forall i, j :: 0 <= i < j < |ops| && ops[i].WriteFile? && ops[j].WriteFile? ==> ops[i].id != ops[j].id
  }

  /** Listing the table names exactly the records. */
  ghost predicate Lists(op: Op, records: map<string, Record>) {
    !op.EnterRecord? ==>
      var order := if op.Clear? then op.order else op.sweep.order;
      forall id :: id in records <==> id in order
  }

  ghost predicate ListsRecords(c: Config, ops: seq<Op>) {
    forall k :: 0 <= k < |ops| ==> Lists(ops[k], At(c, ops, k).records)
  }

  // ----- What a purge, a deletion or a consumption may change -----

  /** Records and files only go away, and a record goes only with its file. */
  ghost predicate Shrinks(s: Store, s': Store) {
    && (forall id :: id in s'.records ==> id in s.records && s'.records[id] == s.records[id])
    && (forall id :: id in s'.disk ==> id in s.disk && s'.disk[id] == s.disk[id])
    && (forall id :: id in s.disk && id !in s.records ==> id in s'.disk)
    && (forall id :: id in s.records && id !in s'.records ==> id !in s'.disk)
    && s'.waiting == s.waiting
  }

  /** Every id still waiting in the sweep is either still recorded or, listed twice, already gone entirely. */
  lemma {:induction false} SweepingShrinks(first: Store, s: Store, ids: seq<string>, unlinks: string -> Unlink)
    requires Shrinks(first, s) && forall id :: id in ids ==> id in first.records
    ensures Shrinks(first, Sweeping(s, ids, unlinks).0)
    ensures Sweeping(s, ids, unlinks).1 ==> forall id :: id in ids ==> id !in Sweeping(s, ids, unlinks).0.records
    decreases |ids|
  {
    if ids != [] {
      var next := Unlinked(s, ids[0], unlinks(ids[0]));
      if next.Some? {
        assert ids[0] in first.records;
        assert Shrinks(first, next.value);
        SweepingShrinks(first, next.value, ids[1..], unlinks);
        SweepingOnlyRemoves(next.value, ids[1..], unlinks);
      }
    }
  }

  lemma {:induction false} SweepingOnlyRemoves(s: Store, ids: seq<string>, unlinks: string -> Unlink)
    ensures forall id :: id in Sweeping(s, ids, unlinks).0.records ==> id in s.records
    decreases |ids|
  {
    if ids != [] && Unlinked(s, ids[0], unlinks(ids[0])).Some? {
      SweepingOnlyRemoves(Unlinked(s, ids[0], unlinks(ids[0])).value, ids[1..], unlinks);
    }
  }

  lemma {:induction false} ExpiredIs(records: map<string, Record>, order: seq<string>, now: real)
    ensures forall id :: id in Expired(records, order, now)
                    <==> id in order && id in records && records[id].expiresAt <= now
  {
    if order != [] {
      ExpiredIs(records, order[1..], now);
      assert order == [order[0]] + order[1..];
    }
  }

  /** A purge that does not raise leaves only records that have not expired. */
  lemma PurgedShrinks(s: Store, op: Op)
    requires !op.Clear? && !op.EnterRecord? && Lists(op, s.records)
    ensures Shrinks(s, Purged(s, op.sweep).0)
    ensures Purged(s, op.sweep).1
            ==> forall id :: id in Purged(s, op.sweep).0.records ==> s.records[id].expiresAt > op.sweep.now
  {
    hide Sweeping, Expired, Unlinked;
    var expired := Expired(s.records, op.sweep.order, op.sweep.now);
    ExpiredIs(s.records, op.sweep.order, op.sweep.now);
    SweepingShrinks(s, s, expired, op.sweep.unlinks);
  }

  lemma {:induction false} WipingOnlyRemoves(disk: map<string, Bytes>, ids: seq<string>, unlinks: string -> Unlink)
    ensures var (disk', ok) := Wiping(disk, ids, unlinks);
            && (forall id :: id in disk' ==> id in disk && disk'[id] == disk[id])
            && (forall id :: id in disk && id !in ids ==> id in disk')
            && (ok ==> forall id :: id in ids ==> id !in disk')
    decreases |ids|
  {
    if ids != [] {
      assert ids == [ids[0]] + ids[1..];
      var next := Unlinked(Store(map[], disk, map[]), ids[0], unlinks(ids[0]));
      if next.Some? {
        WipingOnlyRemoves(next.value.disk, ids[1..], unlinks);
      }
    }
  }

  // ----- What one operation does -----

  /** A failed write whose clean-up failed too. */
  predicate LeavesTornFile(op: Op, answer: Answer) {
    op.WriteFile? && op.write.Torn? && !op.write.cleanup.Removed? && answer == Failed(WriteFailed)
  }

  /** The store after a step: what shrinking left, plus what the step of a put adds. */
  ghost predicate Effect(c: Config, s: Store, op: Op, kept: Store) {
    var (s', answer) := Step(c, s, op);
    && Shrinks(s, kept)
    && s' == (
      if op.WriteFile? && answer.Accepted? then
        kept.(disk := kept.disk[op.id := op.bytes],
              waiting := kept.waiting[op.id := Entry(op.tenant, op.filename, op.mime)])
      else if LeavesTornFile(op, answer) then kept.(disk := kept.disk[op.id := op.write.partial])
      else if op.EnterRecord? then EnterNow(c, kept, op).0
      else kept)
  }

  lemma StepEffect(c: Config, s: Store, op: Op) returns (kept: Store)
    requires Lists(op, s.records)
    ensures Effect(c, s, op, kept)
  {
    hide Sweeping, Wiping, Expired, IsTenantId, SafeName;
    if op.EnterRecord? {
      kept := s;
    } else if op.Clear? {
      WipingOnlyRemoves(s.disk, op.order, op.unlinks);
      kept := Step(c, s, op).0;
    } else {
      PurgedShrinks(s, op);
      kept := Purged(s, op.sweep).0;
      if Purged(s, op.sweep).1 {
        if op.Consume? {
          ConsumeShrinks(c, s, kept, op);
          kept := ConsumeNow(c, kept, op).0;
        } else if op.Delete? {
          DeleteShrinks(s, kept, op);
          kept := DeleteNow(kept, op).0;
        }
      }
    }
  }

  lemma ConsumeShrinks(c: Config, first: Store, s: Store, op: Op)
    requires op.Consume? && Shrinks(first, s)
    ensures Shrinks(first, ConsumeNow(c, s, op).0)
  {
    hide IsTenantId;
  }

  lemma DeleteShrinks(first: Store, s: Store, op: Op)
    requires op.Delete? && Shrinks(first, s)
    ensures Shrinks(first, DeleteNow(s, op).0)
  {
    hide IsTenantId;
  }

  /** What bytes handed out tell about the store before and after. */
  lemma ReturnedComesFromRecord(c: Config, s: Store, op: Op)
    requires Lists(op, s.records) && Step(c, s, op).1.Returned?
    ensures var (s', answer) := Step(c, s, op);
            && op.Consume? && op.id in s.records && op.id in s.disk && op.id !in s'.records && op.id !in s'.disk
            && s.records[op.id].tenant == op.tenant && op.sweep.now < s.records[op.id].expiresAt
            && answer == Returned(s.disk[op.id], s.records[op.id].filename, s.records[op.id].mime)
  {
    hide Sweeping, Wiping, Expired, IsTenantId;
    PurgedShrinks(s, op);
  }

  /** A deletion that answers leaves the tenant without the asset, and true says that it was there. */
  lemma DeletionIsTold(c: Config, s: Store, op: Op)
    requires op.Delete? && Lists(op, s.records) && Step(c, s, op).1.Deleted?
    ensures var (s', answer) := Step(c, s, op);
            && !Owns(s', op.id, op.tenant)
            && (answer.found ==> Owns(s, op.id, op.tenant) && op.id !in s'.records && op.id !in s'.disk)
            && (!answer.found && Owns(s, op.id, op.tenant) ==> op.id !in s'.records && op.id !in s'.disk)
  {
    hide Sweeping, Expired, IsTenantId;
    PurgedShrinks(s, op);
  }

  // ----- What every operation answers -----

  /** An unlink after which the file is seen to be gone. */
  predicate Removes(s: Store, id: string, unlink: Unlink) {
    unlink.Removed? || (unlink.Stays? && id !in s.disk)
  }

  /** Every expired record loses its file when it is purged. */
  ghost predicate SweepsClean(s: Store, sweep: Sweep) {
    forall id :: id in s.records && s.records[id].expiresAt <= sweep.now ==> Removes(s, id, sweep.unlinks(id))
  }

  /** What a purge leaves when all expired files can be unlinked. */
  function Unexpired(s: Store, now: real): Store {
    var expired := set id | id in s.records && s.records[id].expiresAt <= now;
    s.(records := s.records - expired, disk := s.disk - expired)
  }

  ghost function Without(s: Store, ids: seq<string>): Store {
    var gone := set id | id in ids;
    Store(s.records - gone, s.disk - gone, s.waiting)
  }

  lemma WithoutNext(s: Store, ids: seq<string>)
    requires ids != []
    ensures Without(Store(s.records - {ids[0]}, s.disk - {ids[0]}, s.waiting), ids[1..]) == Without(s, ids)
  {
    assert (set id | id in ids) == {ids[0]} + set id | id in ids[1..];
  }

  lemma {:induction false} SweepingExactly(s: Store, ids: seq<string>, unlinks: string -> Unlink)
    ensures var (s', ok) := Sweeping(s, ids, unlinks);
            && (ok <==> forall id :: id in ids ==> Removes(s, id, unlinks(id)))
            && (ok ==> s' == Without(s, ids))
    decreases |ids|
  {
    if ids == [] {
      assert Without(s, []) == s;
    } else {
      assert ids == [ids[0]] + ids[1..];
      var next := Unlinked(s, ids[0], unlinks(ids[0]));
      if next.Some? {
        SweepingExactly(next.value, ids[1..], unlinks);
        WithoutNext(s, ids);
      }
    }
  }

  /** A purge succeeds exactly when every expired file goes, and then exactly the expired records and files are gone. */
  lemma PurgesExactly(s: Store, op: Op)
    requires !op.Clear? && !op.EnterRecord? && Lists(op, s.records)
    ensures Purged(s, op.sweep).1 <==> SweepsClean(s, op.sweep)
    ensures SweepsClean(s, op.sweep) ==> Purged(s, op.sweep).0 == Unexpired(s, op.sweep.now)
  {
    hide Sweeping, Expired, Removes;
    var expired := Expired(s.records, op.sweep.order, op.sweep.now);
    ExpiredIs(s.records, op.sweep.order, op.sweep.now);
    SweepingExactly(s, expired, op.sweep.unlinks);
    assert (set id | id in expired) == set id | id in s.records && s.records[id].expiresAt <= op.sweep.now;
  }

  /** The tenant has an asset under this id that has not expired. */
  predicate Holds(s: Store, id: string, tenant: string, now: real) {
    id in s.records && s.records[id].tenant == tenant && s.records[id].expiresAt > now
  }

  /** A put, a consumption and a deletion each answer exactly what the store and their environment make of them. */
  lemma AnswersExactly(c: Config, s: Store, op: Op)
    requires op.WriteFile? || op.Consume? || op.Delete?
    requires Lists(op, s.records)
    ensures var r, left := Step(c, s, op).1, Unexpired(s, op.sweep.now);
            && (r == Failed(CleanupFailed) <==> !SweepsClean(s, op.sweep))
            && (r == Failed(InvalidTenant) <==> SweepsClean(s, op.sweep) && !IsTenantId(op.tenant))
            && (op.WriteFile? ==>
                  (r == Accepted <==>
                     SweepsClean(s, op.sweep) && IsTenantId(op.tenant) && |op.bytes| <= c.maxBytes
                     && SafeName(op.filename) && op.write.Written?))
            && (op.Consume? ==>
                  var holds := Holds(s, op.id, op.tenant, op.sweep.now);
                  && (r == Failed(Unavailable) <==>
                        SweepsClean(s, op.sweep) && IsTenantId(op.tenant) && !holds)
                  && (forall bytes, filename, mime :: r == Returned(bytes, filename, mime) <==>
                        && SweepsClean(s, op.sweep) && IsTenantId(op.tenant) && holds && op.readable
                        && op.id in left.disk && bytes == s.disk[op.id] && |bytes| <= c.maxBytes
                        && Removes(left, op.id, op.unlink)
                        && filename == s.records[op.id].filename && mime == s.records[op.id].mime))
            && (op.Delete? ==>
                  var holds := Holds(s, op.id, op.tenant, op.sweep.now);
                  && (r == Deleted(false) <==> SweepsClean(s, op.sweep) && IsTenantId(op.tenant) && !holds)
                  && (r == Deleted(true) <==>
                        SweepsClean(s, op.sweep) && IsTenantId(op.tenant) && holds && Removes(left, op.id, op.unlink)))
  {
    hide SweepsClean, IsTenantId, SafeName, Purged;
    PurgesExactly(s, op);
  }

  lemma {:induction false} WipingExactly(s: Store, ids: seq<string>, unlinks: string -> Unlink)
    ensures var (disk, ok) := Wiping(s.disk, ids, unlinks);
            && (ok <==> forall id :: id in ids ==> Removes(s, id, unlinks(id)))
            && (ok ==> disk == Without(s, ids).disk)
    decreases |ids|
  {
    if ids == [] {
      assert Without(s, []) == s;
    } else {
      assert ids == [ids[0]] + ids[1..];
      var next := Unlinked(Store(map[], s.disk, map[]), ids[0], unlinks(ids[0]));
      if next.Some? {
        WipingExactly(Store(s.records - {ids[0]}, next.value.disk, s.waiting), ids[1..], unlinks);
        WithoutNext(s, ids);
      }
    }
  }

  /** A clear succeeds exactly when every recorded file can be unlinked; then their files and all records are gone. */
  lemma ClearsExactly(c: Config, s: Store, op: Op)
    requires op.Clear? && Lists(op, s.records)
    ensures var (s', r) := Step(c, s, op);
            && (r == Done <==> forall id :: id in s.records ==> Removes(s, id, op.unlinks(id)))
            && (r == Done ==> s' == Store(map[], s.disk - s.records.Keys, s.waiting))
            && (r != Done ==> r == Failed(CleanupFailed) && s'.records == s.records)
  {
    hide Wiping, Removes;
    WipingExactly(s, op.order, op.unlinks);
    assert (set id | id in op.order) == s.records.Keys;
  }

  // ----- What every run keeps -----

  /** Step `i` wrote the file of the asset `id` in full. */
  ghost predicate WrittenBy(c: Config, ops: seq<Op>, i: nat, id: string)
    requires i < |ops|
  {
    ops[i].WriteFile? && ops[i].id == id && AnswerTo(c, ops, i).Accepted?
  }

  /** Steps `i` and `j` are the two of one put that stored the asset `id` with this record. */
  ghost predicate StoredBy(c: Config, ops: seq<Op>, i: nat, j: nat, id: string, record: Record)
    requires i < j < |ops|
  {
    && WrittenBy(c, ops, i, id) && ops[j].EnterRecord? && ops[j].id == id && AnswerTo(c, ops, j).Stored?
    && record == Record(ops[i].tenant, ops[i].filename, ops[i].mime, ops[j].recordedAt + c.ttl)
  }

  ghost predicate HandsOut(c: Config, ops: seq<Op>, h: nat, id: string)
    requires h < |ops|
  {
    ops[h].Consume? && ops[h].id == id && AnswerTo(c, ops, h).Returned?
  }

  ghost predicate TornBy(c: Config, ops: seq<Op>, i: nat, id: string)
    requires i < |ops|
  {
    LeavesTornFile(ops[i], AnswerTo(c, ops, i)) && ops[i].id == id
  }

  /** No step so far handed out bytes under this id. */
  ghost predicate NeverHandedOut(c: Config, ops: seq<Op>, k: nat, id: string)
    requires k <= |ops|
  {
    forall h: nat :: h < k ==> !HandsOut(c, ops, h, id)
  }

  /** A record is that of its put, with its bytes, and nothing was handed out under its id. */
  ghost predicate Backed(c: Config, ops: seq<Op>, k: nat, id: string, record: Record)
    requires k <= |ops|
  {
    && NeverHandedOut(c, ops, k, id)
    && exists i: nat, j: nat :: i < j < k && StoredBy(c, ops, i, j, id, record)
                             && (id in At(c, ops, k).disk ==> At(c, ops, k).disk[id] == ops[i].bytes)
  }

  /** A file written and not yet recorded is that of its put. */
  ghost predicate Awaited(c: Config, ops: seq<Op>, k: nat, id: string, e: Entry)
    requires k <= |ops|
  {
    var s := At(c, ops, k);
    && NeverHandedOut(c, ops, k, id) && id !in s.records && id in s.disk
    && exists i: nat :: i < k && WrittenBy(c, ops, i, id) && s.disk[id] == ops[i].bytes
                     && e == Entry(ops[i].tenant, ops[i].filename, ops[i].mime)
  }

  ghost predicate Torn(c: Config, ops: seq<Op>, k: nat, id: string)
    requires k <= |ops|
  {
    exists i: nat :: i < k && TornBy(c, ops, i, id)
  }

  /** What every run keeps: records and awaited files come from their puts, other files are torn ones. */
  ghost predicate Sound(c: Config, ops: seq<Op>, k: nat)
    requires k <= |ops|
  {
    var s := At(c, ops, k);
    && (forall id :: id in s.records ==> Backed(c, ops, k, id, s.records[id]))
    && (forall id :: id in s.waiting ==> Awaited(c, ops, k, id, s.waiting[id]))
    && (forall id :: id in s.disk && id !in s.records <==> Torn(c, ops, k, id) || id in s.waiting)
    && (forall id :: Torn(c, ops, k, id) ==> id !in s.waiting)
  }

  lemma AtNext(c: Config, ops: seq<Op>, k: nat)
    requires k < |ops|
    ensures (At(c, ops, k + 1), AnswerTo(c, ops, k)) == Step(c, At(c, ops, k), ops[k])
  {
    hide Step;
  }

  /** The id of a new file is new to table, directory and unfinished puts, and nothing was handed out under it. */
  lemma WriteIsFresh(c: Config, ops: seq<Op>, k: nat)
    requires k < |ops| && FreshIds(ops) && ListsRecords(c, ops) && forall i: nat :: i <= k ==> Sound(c, ops, i)
    requires ops[k].WriteFile?
    ensures var id, s := ops[k].id, At(c, ops, k);
            id !in s.records && id !in s.disk && id !in s.waiting && NeverHandedOut(c, ops, k, id)
  {
    hide At, Step;
    var id := ops[k].id;
    assert Sound(c, ops, k);
    forall h: nat | h < k ensures !HandsOut(c, ops, h, id) {
      if HandsOut(c, ops, h, id) {
        assert Sound(c, ops, h);
        ReturnedComesFromRecord(c, At(c, ops, h), ops[h]);
      }
    }
  }

  lemma HandedOutGrows(c: Config, ops: seq<Op>, k: nat, id: string)
    requires k < |ops|
    ensures NeverHandedOut(c, ops, k + 1, id) <==> NeverHandedOut(c, ops, k, id) && !HandsOut(c, ops, k, id)
  {
    hide HandsOut;
  }

  lemma TornGrows(c: Config, ops: seq<Op>, k: nat, id: string)
    requires k < |ops|
    ensures Torn(c, ops, k + 1, id) <==> Torn(c, ops, k, id) || TornBy(c, ops, k, id)
  {
    hide TornBy;
    if Torn(c, ops, k, id) {
      var j: nat :| j < k && TornBy(c, ops, j, id);
      assert j < k + 1;
    }
  }

  /** A surviving record stays backed. */
  lemma BackedStays(c: Config, ops: seq<Op>, k: nat, id: string)
    requires k < |ops| && ListsRecords(c, ops)
    requires var s, s' := At(c, ops, k), At(c, ops, k + 1);
             && id in s.records && id in s'.records && Backed(c, ops, k, id, s.records[id])
             && s'.records[id] == s.records[id] && (id in s'.disk ==> id in s.disk && s'.disk[id] == s.disk[id])
    ensures Backed(c, ops, k + 1, id, At(c, ops, k + 1).records[id])
  {
    hide At, Step, NeverHandedOut;
    AtNext(c, ops, k);
    HandedOutGrows(c, ops, k, id);
    var s := At(c, ops, k);
    if HandsOut(c, ops, k, id) {
      ReturnedComesFromRecord(c, s, ops[k]);
    }
    var i: nat, j: nat :| i < j < k && StoredBy(c, ops, i, j, id, s.records[id])
                          && (id in s.disk ==> s.disk[id] == ops[i].bytes);
    assert i < j < k + 1 && StoredBy(c, ops, i, j, id, At(c, ops, k + 1).records[id]);
  }

  /** Records that a step neither enters nor removes keep their file as it is. */
  lemma SurvivorsKeepTheirFile(c: Config, ops: seq<Op>, k: nat, id: string, kept: Store)
    requires k < |ops| && FreshIds(ops) && ListsRecords(c, ops) && forall i: nat :: i <= k ==> Sound(c, ops, i)
    requires Effect(c, At(c, ops, k), ops[k], kept) && id in At(c, ops, k + 1).records
    requires !(ops[k].EnterRecord? && ops[k].id == id && id in At(c, ops, k).waiting)
    ensures var s, s' := At(c, ops, k), At(c, ops, k + 1);
            && id in s.records && s'.records[id] == s.records[id]
            && (id in s'.disk ==> id in s.disk && s'.disk[id] == s.disk[id])
  {
    hide At, Step, Sound, LeavesTornFile;
    AtNext(c, ops, k);
    if ops[k].WriteFile? {
      WriteIsFresh(c, ops, k);
    } else {
      OnlyWritesTear(ops[k], AnswerTo(c, ops, k));
    }
  }

  lemma OnlyWritesTear(op: Op, answer: Answer)
    ensures LeavesTornFile(op, answer) ==> op.WriteFile?
  {
  }

  /** The record just entered is backed by the file its put wrote. */
  lemma BackedStarts(c: Config, ops: seq<Op>, k: nat)
    requires k < |ops| && Sound(c, ops, k) && ops[k].EnterRecord? && ops[k].id in At(c, ops, k).waiting
    ensures var id, s := ops[k].id, At(c, ops, k + 1);
            id in s.records && Backed(c, ops, k + 1, id, s.records[id])
  {
    hide At, NeverHandedOut;
    AtNext(c, ops, k);
    var id, s, s' := ops[k].id, At(c, ops, k), At(c, ops, k + 1);
    HandedOutGrows(c, ops, k, id);
    assert Awaited(c, ops, k, id, s.waiting[id]);
    var i: nat :| i < k && WrittenBy(c, ops, i, id) && s.disk[id] == ops[i].bytes
                  && s.waiting[id] == Entry(ops[i].tenant, ops[i].filename, ops[i].mime);
    assert StoredBy(c, ops, i, k, id, s'.records[id]);
  }

  /** A file that waits goes on waiting, untouched. */
  lemma AwaitedStays(c: Config, ops: seq<Op>, k: nat, id: string)
    requires k < |ops| && ListsRecords(c, ops)
    requires var s, s' := At(c, ops, k), At(c, ops, k + 1);
             && id in s.waiting && id in s'.waiting && Awaited(c, ops, k, id, s.waiting[id])
             && s'.waiting[id] == s.waiting[id] && id !in s'.records && id in s'.disk && s'.disk[id] == s.disk[id]
    ensures Awaited(c, ops, k + 1, id, At(c, ops, k + 1).waiting[id])
  {
    hide At, Step, NeverHandedOut;
    AtNext(c, ops, k);
    HandedOutGrows(c, ops, k, id);
    var s := At(c, ops, k);
    if HandsOut(c, ops, k, id) {
      ReturnedComesFromRecord(c, s, ops[k]);
    }
    var i: nat :| i < k && WrittenBy(c, ops, i, id) && s.disk[id] == ops[i].bytes
                  && s.waiting[id] == Entry(ops[i].tenant, ops[i].filename, ops[i].mime);
    assert i < k + 1 && WrittenBy(c, ops, i, id);
  }

  lemma WaitersKeepTheirFile(c: Config, ops: seq<Op>, k: nat, id: string, kept: Store)
    requires k < |ops| && FreshIds(ops) && ListsRecords(c, ops) && forall i: nat :: i <= k ==> Sound(c, ops, i)
    requires Effect(c, At(c, ops, k), ops[k], kept) && id in At(c, ops, k + 1).waiting
    requires !(ops[k].WriteFile? && ops[k].id == id && AnswerTo(c, ops, k).Accepted?)
    ensures var s, s' := At(c, ops, k), At(c, ops, k + 1);
            && id in s.waiting && s'.waiting[id] == s.waiting[id] && Awaited(c, ops, k, id, s.waiting[id])
            && id !in s'.records && id in s'.disk && s'.disk[id] == s.disk[id]
  {
    hide At, Step, Backed, LeavesTornFile, NeverHandedOut, WrittenBy;
    AtNext(c, ops, k);
    if ops[k].WriteFile? {
      WriteIsFresh(c, ops, k);
    } else {
      OnlyWritesTear(ops[k], AnswerTo(c, ops, k));
    }
    var s := At(c, ops, k);
    assert Sound(c, ops, k);
    assert id in s.waiting ==> Awaited(c, ops, k, id, s.waiting[id]);
  }

  lemma AwaitedStarts(c: Config, ops: seq<Op>, k: nat, kept: Store)
    requires k < |ops| && FreshIds(ops) && ListsRecords(c, ops) && forall i: nat :: i <= k ==> Sound(c, ops, i)
    requires Effect(c, At(c, ops, k), ops[k], kept) && ops[k].WriteFile? && AnswerTo(c, ops, k).Accepted?
    ensures var id, s := ops[k].id, At(c, ops, k + 1);
            id in s.waiting && Awaited(c, ops, k + 1, id, s.waiting[id])
  {
    hide At, Step, NeverHandedOut;
    AtNext(c, ops, k);
    WriteIsFresh(c, ops, k);
    HandedOutGrows(c, ops, k, ops[k].id);
    assert WrittenBy(c, ops, k, ops[k].id);
  }

  /** Which files have no record, after one more step. */
  lemma FilesStay(c: Config, ops: seq<Op>, k: nat, id: string, kept: Store)
    requires k < |ops| && FreshIds(ops) && ListsRecords(c, ops) && forall i: nat :: i <= k ==> Sound(c, ops, i)
    requires Effect(c, At(c, ops, k), ops[k], kept)
    ensures var s' := At(c, ops, k + 1);
            && (id in s'.disk && id !in s'.records <==> Torn(c, ops, k + 1, id) || id in s'.waiting)
            && (Torn(c, ops, k + 1, id) ==> id !in s'.waiting)
  {
    hide At, Step, Backed, Torn, NeverHandedOut;
    AtNext(c, ops, k);
    TornGrows(c, ops, k, id);
    var s := At(c, ops, k);
    assert Sound(c, ops, k);
    assert id in s.disk && id !in s.records <==> Torn(c, ops, k, id) || id in s.waiting;
    assert id in s.waiting ==> Awaited(c, ops, k, id, s.waiting[id]);
    if ops[k].WriteFile? {
      WriteIsFresh(c, ops, k);
    }
  }

  lemma StepStaysSound(c: Config, ops: seq<Op>, k: nat)
    requires k < |ops| && FreshIds(ops) && ListsRecords(c, ops) && forall i: nat :: i <= k ==> Sound(c, ops, i)
    ensures Sound(c, ops, k + 1)
  {
    hide At, Step, LeavesTornFile, Torn, Backed, Awaited;
    AtNext(c, ops, k);
    var s, s', op := At(c, ops, k), At(c, ops, k + 1), ops[k];
    var kept := StepEffect(c, s, op);
    forall id
      ensures id in s'.disk && id !in s'.records <==> Torn(c, ops, k + 1, id) || id in s'.waiting
      ensures Torn(c, ops, k + 1, id) ==> id !in s'.waiting
    {
      FilesStay(c, ops, k, id, kept);
    }
    forall id | id in s'.records ensures Backed(c, ops, k + 1, id, s'.records[id]) {
      assert Sound(c, ops, k);
      if op.EnterRecord? && id == op.id && id in s.waiting {
        BackedStarts(c, ops, k);
      } else {
        SurvivorsKeepTheirFile(c, ops, k, id, kept);
        BackedStays(c, ops, k, id);
      }
    }
    forall id | id in s'.waiting ensures Awaited(c, ops, k + 1, id, s'.waiting[id]) {
      if op.WriteFile? && id == op.id && AnswerTo(c, ops, k).Accepted? {
        AwaitedStarts(c, ops, k, kept);
      } else {
        WaitersKeepTheirFile(c, ops, k, id, kept);
        AwaitedStays(c, ops, k, id);
      }
    }
  }

  lemma {:induction false} RunsAreSound(c: Config, ops: seq<Op>, k: nat)
    requires k <= |ops| && FreshIds(ops) && ListsRecords(c, ops)
    ensures Sound(c, ops, k)
  {
    if k > 0 {
      forall i: nat | i <= k - 1 ensures Sound(c, ops, i) {
        RunsAreSound(c, ops, i);
      }
      StepStaysSound(c, ops, k - 1);
    }
  }

  // ----- Main results -----

  /** Bytes handed out are those of one earlier put, to its tenant, before expiry, and never handed out again. */
  lemma BytesAreReturnedOnce(c: Config, ops: seq<Op>, k: nat) returns (i: nat, j: nat)
    requires k < |ops| && FreshIds(ops) && ListsRecords(c, ops) && AnswerTo(c, ops, k).Returned?
    ensures ops[k].Consume? && i < j < k && WrittenBy(c, ops, i, ops[k].id)
    ensures ops[j].EnterRecord? && ops[j].id == ops[k].id && AnswerTo(c, ops, j).Stored?
    ensures ops[i].tenant == ops[k].tenant && ops[k].sweep.now < ops[j].recordedAt + c.ttl
    ensures AnswerTo(c, ops, k) == Returned(ops[i].bytes, ops[i].filename, ops[i].mime)
    ensures forall h: nat :: h < |ops| && h != k ==> !HandsOut(c, ops, h, ops[k].id)
  {
    hide At, Step, Torn;
    i, j := ReturnedIsStored(c, ops, k);
    forall h: nat | k < h < |ops| ensures !HandsOut(c, ops, h, ops[k].id) {
      if HandsOut(c, ops, h, ops[k].id) {
        assert HandsOut(c, ops, k, ops[k].id);
        var i', j' := ReturnedIsStored(c, ops, h);
      }
    }
  }

  lemma ReturnedIsStored(c: Config, ops: seq<Op>, k: nat) returns (i: nat, j: nat)
    requires k < |ops| && FreshIds(ops) && ListsRecords(c, ops) && AnswerTo(c, ops, k).Returned?
    ensures ops[k].Consume? && i < j < k && WrittenBy(c, ops, i, ops[k].id)
    ensures ops[j].EnterRecord? && ops[j].id == ops[k].id && AnswerTo(c, ops, j).Stored?
    ensures ops[i].tenant == ops[k].tenant && ops[k].sweep.now < ops[j].recordedAt + c.ttl
    ensures AnswerTo(c, ops, k) == Returned(ops[i].bytes, ops[i].filename, ops[i].mime)
    ensures forall h: nat :: h < k ==> !HandsOut(c, ops, h, ops[k].id)
  {
    hide At, Step, Torn, Awaited;
    RunsAreSound(c, ops, k);
    ReturnedComesFromRecord(c, At(c, ops, k), ops[k]);
    var s, id := At(c, ops, k), ops[k].id;
    assert Backed(c, ops, k, id, s.records[id]);
    i, j :| i < j < k && StoredBy(c, ops, i, j, id, s.records[id])
            && (id in s.disk ==> s.disk[id] == ops[i].bytes);
  }

  /** A live asset is handed out, unchanged, whenever the environment lets it be read and unlinked. */
  lemma LiveAssetIsReturned(c: Config, ops: seq<Op>, k: nat) returns (i: nat, j: nat)
    requires k < |ops| && FreshIds(ops) && ListsRecords(c, ops) && ops[k].Consume? && IsTenantId(ops[k].tenant)
    requires var s, op := At(c, ops, k), ops[k];
             && SweepsClean(s, op.sweep) && Holds(s, op.id, op.tenant, op.sweep.now)
             && op.readable && op.id in s.disk && op.unlink.Removed?
    ensures i < j < k && WrittenBy(c, ops, i, ops[k].id) && ops[j].EnterRecord? && ops[j].id == ops[k].id
    ensures AnswerTo(c, ops, k) == Returned(ops[i].bytes, ops[i].filename, ops[i].mime)
  {
    hide At, Step, Torn, Awaited, SweepsClean, IsTenantId;
    RunsAreSound(c, ops, k);
    var s, op := At(c, ops, k), ops[k];
    assert Backed(c, ops, k, op.id, s.records[op.id]);
    i, j :| i < j < k && StoredBy(c, ops, i, j, op.id, s.records[op.id])
            && (op.id in s.disk ==> s.disk[op.id] == ops[i].bytes);
    assert Lists(ops[i], At(c, ops, i).records) && Lists(op, s.records);
    AtNext(c, ops, i);
    AtNext(c, ops, k);
    AnswersExactly(c, At(c, ops, i), ops[i]);
    AnswersExactly(c, s, op);
  }

  /** A file has no record exactly when its put has not entered it yet, or failed to write it and to clean it up. */
  lemma FilesHaveRecords(c: Config, ops: seq<Op>, k: nat, id: string)
    requires k <= |ops| && FreshIds(ops) && ListsRecords(c, ops)
    ensures id in At(c, ops, k).disk && id !in At(c, ops, k).records
       <==> Torn(c, ops, k, id) || id in At(c, ops, k).waiting
  {
    RunsAreSound(c, ops, k);
  }

  /** A clear that does not raise leaves no record, and no file but those. */
  lemma ClearLeavesNothing(c: Config, ops: seq<Op>, k: nat)
    requires k < |ops| && FreshIds(ops) && ListsRecords(c, ops)
    requires ops[k].Clear? && AnswerTo(c, ops, k) == Done
    ensures var s := At(c, ops, k + 1);
            s.records == map[] && forall id :: id in s.disk <==> Torn(c, ops, k + 1, id) || id in s.waiting
  {
    hide At;
    AtNext(c, ops, k);
    RunsAreSound(c, ops, k + 1);
  }

  // ----- Runs that leave a file -----

  /** A put that writes in part, and whose clean-up raises. */
  function TornPut(id: string, partial: Bytes): Op {
    WriteFile(Sweep(0.0, [], _ => Removed), id, "t", [], None, None, Write.Torn(partial, Raises))
  }

  lemma TornPutLeavesAFile(c: Config, id: string, partial: Bytes)
    ensures var ops := [TornPut(id, partial)];
            && FreshIds(ops) && ListsRecords(c, ops) && Torn(c, ops, 1, id)
            && id in At(c, ops, 1).disk && At(c, ops, 1).records == map[]
  {
    var ops := [TornPut(id, partial)];
    assert At(c, ops, 0) == EMPTY;
    assert At(c, ops, 1) == EMPTY.(disk := map[id := partial]);
    assert AnswerTo(c, ops, 0) == Failed(WriteFailed);
    assert TornBy(c, ops, 0, id);
  }

  /** A clear between the two steps of a put. */
  function ClearDuringPut(id: string): seq<Op> {
    [WriteFile(Sweep(0.0, [], _ => Removed), id, "t", [], None, None, Written), Clear([], _ => Removed),
     EnterRecord(id, 0.0)]
  }

  /** The clear succeeds, and afterwards the put still enters its record: the asset survives. */
  lemma ClearDuringPutIsSurvived(c: Config, id: string)
    ensures var ops := ClearDuringPut(id);
            && FreshIds(ops) && ListsRecords(c, ops) && AnswerTo(c, ops, 1) == Done
            && id in At(c, ops, 2).disk && At(c, ops, 2).records == map[]
            && id in At(c, ops, 3).records && id in At(c, ops, 3).disk
  {
    var ops := ClearDuringPut(id);
    var e := Entry("t", None, None);
    assert At(c, ops, 0) == EMPTY;
    assert At(c, ops, 1) == Store(map[], map[id := []], map[id := e]);
    assert At(c, ops, 2) == At(c, ops, 1);
  }
}
