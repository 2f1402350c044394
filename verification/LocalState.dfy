/** The active and the previous snapshot file of a single-user installation, with crashes between their writes. */
module LocalState {
  import opened Common
  import opened Json

  /** JSON text, lower-casing and absolute paths (of either platform) as the host language defines them. */
  datatype Host = Host(parse: string -> Option<Json>, dump: Json -> string, lower: string -> string,
                       isAbsolute: string -> bool)

  /** Contents of the two files; nothing where a file is missing. */
  datatype Files = Files(active: Option<string>, previous: Option<string>)

  // ----- Validation -----

  const FORBIDDEN := {"api_key", "credential", "media_body", "password", "secret", "token"}

  predicate EndsWith(s: string, suffix: string) {
    |suffix| <= |s| && s[|s| - |suffix|..] == suffix
  }

  predicate FieldAllowed(h: Host, key: string, value: Json) {
    && h.lower(key) !in FORBIDDEN
    && !(value.Str? && EndsWith(h.lower(key), "_path") && h.isAbsolute(value.text))
  }

  /** `_validate_safe_values`; the field name reaches a value but not the items of a list. */
  predicate SafeValues(h: Host, value: Json, field: Option<string>)
    decreases value
  {
    && (field.Some? ==> FieldAllowed(h, field.value, value))
    && match value
       case Obj(fields) => forall key :: key in fields ==> SafeValues(h, fields[key], Some(key))
       case List(items) => forall i :: 0 <= i < |items| ==> SafeValues(h, items[i], None)
       case _ => true
  }

  predicate Valid(h: Host, value: Json) {
    value.Obj? && value.Get("version").Int? && value.Get("version").number >= 1 && SafeValues(h, value, None)
  }

  /** Somewhere inside `value`, at any depth, the field `key` has the value `nested`. */
  ghost predicate HasField(value: Json, key: string, nested: Json)
    decreases value
  {
    match value
    case Obj(fields) =>
      (key in fields && fields[key] == nested) || exists k :: k in fields && HasField(fields[k], key, nested)
    case List(items) => exists i :: 0 <= i < |items| && HasField(items[i], key, nested)
    case _ => false
  }

  /** The recursive check accepts exactly the values that hold an unwanted field at no depth. */
  lemma {:induction false} SafeMeansNoUnwantedField(h: Host, value: Json)
    ensures SafeValues(h, value, None)
       <==> forall key, nested :: HasField(value, key, nested) ==> FieldAllowed(h, key, nested)
    decreases value
  {
    hide FieldAllowed;
    match value
    case Obj(fields) =>
      forall k | k in fields
        ensures SafeValues(h, fields[k], Some(k)) <==> FieldAllowed(h, k, fields[k]) && SafeValues(h, fields[k], None)
        ensures SafeValues(h, fields[k], None)
           <==> forall key, nested :: HasField(fields[k], key, nested) ==> FieldAllowed(h, key, nested)
      {
        SafeMeansNoUnwantedField(h, fields[k]);
      }
      if SafeValues(h, value, None) {
      } else {
        var k :| k in fields && !SafeValues(h, fields[k], Some(k));
        if !FieldAllowed(h, k, fields[k]) {
          assert HasField(value, k, fields[k]);
        } else {
          var key, nested :| HasField(fields[k], key, nested) && !FieldAllowed(h, key, nested);
          assert HasField(value, key, nested);
        }
      }
    case List(items) =>
      forall i | 0 <= i < |items|
        ensures SafeValues(h, items[i], None)
           <==> forall key, nested :: HasField(items[i], key, nested) ==> FieldAllowed(h, key, nested)
      {
        SafeMeansNoUnwantedField(h, items[i]);
      }
      if !SafeValues(h, value, None) {
        var i :| 0 <= i < |items| && !SafeValues(h, items[i], None);
        var key, nested :| HasField(items[i], key, nested) && !FieldAllowed(h, key, nested);
        assert HasField(value, key, nested);
      }
    case _ =>
  }

  /** A snapshot is valid exactly when it is an object with a positive version and no unwanted field at any depth. */
  lemma ValidExactly(h: Host, value: Json)
    ensures Valid(h, value)
       <==> value.Obj? && (exists n :: value.Get("version") == Int(n) && n > 0)
            && forall key, nested :: HasField(value, key, nested) ==>
                 h.lower(key) !in {"api_key", "credential", "media_body", "password", "secret", "token"}
                 && (nested.Str? && h.isAbsolute(nested.text) ==> !EndsWith(h.lower(key), "_path"))
  {
    SafeMeansNoUnwantedField(h, value);
    if Valid(h, value) {
      assert value.Get("version") == Int(value.Get("version").number);
    }
  }

  // ----- Reading and publishing -----

  function ReadValid(h: Host, file: Option<string>): Option<Json> {
    if file.None? then None
    else
      var value := h.parse(file.value);
      if value.Some? && Valid(h, value.value) then value else None
  }

  /** `load_last_known_good`; nothing stands for the error. */
  function LastKnownGood(h: Host, f: Files): Option<Json> {
    var active := ReadValid(h, f.active);
    if active.Some? then active else ReadValid(h, f.previous)
  }

  /**
   * How far a publication gets: a crash, or a write that raises, ends it early. A write can raise after the file is
   * replaced, the second one with both files in place.
   */
  datatype Stop = BeforeWrites | BetweenWrites | AfterWrites | Completes {
    predicate TakesEffect() {
      AfterWrites? || Completes?
    }
  }

  function Published(h: Host, f: Files, snapshot: Json, stop: Stop): Files {
    if !Valid(h, snapshot) || stop.BeforeWrites? then f
    else
      var previous := ReadValid(h, f.active);
      var first := if previous.Some? then f.(previous := Some(h.dump(previous.value))) else f;
      if stop.BetweenWrites? then first else first.(active := Some(h.dump(snapshot)))
  }

  class PersonalStateStore {
    const host: Host
    var active: Option<string>
    var previous: Option<string>

    constructor (host: Host, active: Option<string>, previous: Option<string>)
      ensures this.host == host && Value() == Files(active, previous)
    {
      this.host := host;
      this.active, this.previous := active, previous;
    }

    function Value(): Files
      reads this
    {
      Files(active, previous)
    }

    /** `publish`: keep a readable active snapshot as the previous one, then replace it. */
    method Publish(snapshot: Json, stop: Stop) returns (done: bool)
      modifies this
      ensures Value() == Published(host, old(Value()), snapshot, stop)
      ensures done <==> Valid(host, snapshot) && stop.Completes?
    {
      if !Valid(host, snapshot) {
        return false;
      }
      var serialized := host.dump(snapshot);
      var current := ReadValid(host, active);
      if stop.BeforeWrites? {
        return false;
      }
      if current.Some? {
        previous := Some(host.dump(current.value));
      }
      if stop.BetweenWrites? {
        return false;
      }
      active := Some(serialized);
      return stop.Completes?;
    }

    method LoadLastKnownGood() returns (snapshot: Option<Json>)
      ensures snapshot == LastKnownGood(host, Value())
    {
      var current := ReadValid(host, active);
      if current.Some? {
        return current;
      }
      snapshot := ReadValid(host, previous);
    }
  }

  // ----- Runs -----

  /** A publication, complete or not, or the active file losing its valid content. */
  datatype Event = Publish(snapshot: Json, stop: Stop) | Corrupt(content: Option<string>)

  ghost predicate Lawful(h: Host) {
    forall value: Json :: Valid(h, value) ==> h.parse(h.dump(value)) == Some(value)
  }

  ghost predicate Corrupts(h: Host, run: seq<Event>) {
    forall k :: 0 <= k < |run| && run[k].Corrupt? ==> ReadValid(h, run[k].content).None?
  }

  function FilesAt(h: Host, run: seq<Event>, k: nat): Files
    requires k <= |run|
  {
    if k == 0 then Files(None, None)
    else
      var f := FilesAt(h, run, k - 1);
      match run[k - 1]
      case Publish(snapshot, stop) => Published(h, f, snapshot, stop)
      case Corrupt(content) => f.(active := content)
  }

  // ----- The history a run leaves, told from its events alone -----

  /** The last publication that took effect, unless the active file was corrupted after it. */
  function ActiveAt(h: Host, run: seq<Event>, k: nat): Option<Json>
    requires k <= |run|
  {
    if k == 0 || run[k - 1].Corrupt? then None
    else if Valid(h, run[k - 1].snapshot) && run[k - 1].stop.TakesEffect() then Some(run[k - 1].snapshot)
    else ActiveAt(h, run, k - 1)
  }

  predicate Replaces(h: Host, event: Event) {
    event.Publish? && Valid(h, event.snapshot) && !event.stop.BeforeWrites?
  }

  /** The snapshot that the last publication past its first write found active. */
  function ReplacedAt(h: Host, run: seq<Event>, k: nat): Option<Json>
    requires k <= |run|
  {
    if k == 0 then None
    else if Replaces(h, run[k - 1]) && ActiveAt(h, run, k - 1).Some? then ActiveAt(h, run, k - 1)
    else ReplacedAt(h, run, k - 1)
  }

  /** After any run the files read as that history: active first, then what was last replaced. */
  lemma {:induction false} FilesTellTheHistory(h: Host, run: seq<Event>, k: nat)
    requires Lawful(h) && Corrupts(h, run) && k <= |run|
    ensures ReadValid(h, FilesAt(h, run, k).active) == ActiveAt(h, run, k)
    ensures ReadValid(h, FilesAt(h, run, k).previous) == ReplacedAt(h, run, k)
    ensures ActiveAt(h, run, k).Some? ==> Valid(h, ActiveAt(h, run, k).value)
  {
    hide Valid;
    if k > 0 {
      FilesTellTheHistory(h, run, k - 1);
    }
  }

  /** Whatever happened before, a publication stopped anywhere leaves the old last-known-good or the new snapshot. */
  lemma CrashesLoseNothing(h: Host, run: seq<Event>, k: nat)
    requires Lawful(h) && Corrupts(h, run) && k < |run| && run[k].Publish?
    ensures var before, after := LastKnownGood(h, FilesAt(h, run, k)), LastKnownGood(h, FilesAt(h, run, k + 1));
            after == (if Valid(h, run[k].snapshot) && run[k].stop.TakesEffect() then Some(run[k].snapshot)
                      else before)
  {
    hide Valid;
    FilesTellTheHistory(h, run, k);
    FilesTellTheHistory(h, run, k + 1);
  }

  /**
   * With the active file corrupted, loading returns the snapshot last replaced. Right after a publication that is
   * the snapshot it replaced, if there was a readable one, else the last one replaced before; after a crash between
   * the two writes it is the active snapshot itself.
   */
  lemma CorruptionFallsBack(h: Host, run: seq<Event>, k: nat)
    requires Lawful(h) && Corrupts(h, run) && k < |run| && run[k].Corrupt?
    ensures LastKnownGood(h, FilesAt(h, run, k + 1)) == ReplacedAt(h, run, k)
    ensures k > 0 && Replaces(h, run[k - 1]) && ActiveAt(h, run, k - 1).Some?
            ==> LastKnownGood(h, FilesAt(h, run, k + 1)) == ActiveAt(h, run, k - 1)
    ensures k > 0 && Replaces(h, run[k - 1]) && run[k - 1].stop.BetweenWrites? && ActiveAt(h, run, k).Some?
            ==> LastKnownGood(h, FilesAt(h, run, k + 1)) == ActiveAt(h, run, k)
  {
    hide Valid;
    FilesTellTheHistory(h, run, k);
    FilesTellTheHistory(h, run, k + 1);
  }
}
