/** The custom provider entry that is applied to, and removed from, a configuration file under an ownership marker. */
module ConfigManager {
  import opened Common
  import opened Contracts
  import opened Json

  type Files = map<string, string>

  /**
   * What the manager takes from its surroundings: JSON text in canonical form, SHA-256, the endpoint check, the text
   * of a JSON value, and paths; `sibling` places a name in the marker's directory.
   */
  datatype Host = Host(
    parse: string -> Option<Json>, canonical: Json -> string, digest: string -> string, endpointAllowed: string -> bool,
    show: Json -> string, configPath: string, markerPath: string, markerName: string, sibling: string -> Option<string>)

  datatype Request = Request(provider: string, endpoint: string, model: string, credentialEnv: string, tenant: string)

  datatype Error =
    | IdentifierInvalid | CredentialReferenceInvalid | EndpointInvalid | ConfigUnreadable | ConfigInvalid
    | UnownedProviderPresent | AlreadyOwned | MarkerMissing | MarkerInvalid | OwnedConfigChanged
    | BackupMissing | BackupInvalid | NameInvalid

  datatype Outcome = Applied | Unchanged(provider: string) | Removed(provider: string) | Refused(error: Error)

  // ----- Values -----

  predicate IsEnvName(s: string) {
    && 1 <= |s| <= 128 && ('A' <= s[0] <= 'Z' || s[0] == '_')
    && forall k :: 1 <= k < |s| ==> 'A' <= s[k] <= 'Z' || '0' <= s[k] <= '9' || s[k] == '_'
  }

  function RequestError(h: Host, r: Request): Option<Error> {
    if !Matches(r.provider, "._:-") || !Matches(r.model, "._:-") || !Matches(r.tenant, "._:-") then
      Some(IdentifierInvalid)
    else if !IsEnvName(r.credentialEnv) then Some(CredentialReferenceInvalid)
    else if !h.endpointAllowed(r.endpoint) then Some(EndpointInvalid)
    else None
  }

  function Lookup(files: Files, path: string): Option<string> {
    if path in files then Some(files[path]) else None
  }

  /** The configuration with its provider table, an empty one where there is none. */
  function ReadConfig(h: Host, content: Option<string>): Result<map<string, Json>, Error> {
    if content.None? then Ok(map["providers" := Obj(map[])])
    else
      match h.parse(content.value)
      case None => Err(ConfigUnreadable)
      case Some(value) =>
        if !value.Obj? then Err(ConfigInvalid)
        else
          var config := if "providers" in value.fields then value.fields else value.fields["providers" := Obj(map[])];
          if config["providers"].Obj? then Ok(config) else Err(ConfigInvalid)
  }

  function ProviderEntry(r: Request): Json {
    Obj(map["adapter" := Str("openai-responses"), "baseUrl" := Str(r.endpoint),
            "apiKey" := Str("env:" + r.credentialEnv), "defaultModel" := Str(r.model),
            "allowPrivateNetwork" := Bool(true), "headers" := Obj(map["X-Media-Bridge-Tenant" := Str(r.tenant)])])
  }

  predicate IsConfig(config: map<string, Json>) {
    "providers" in config && config["providers"].Obj?
  }

  function Managed(config: map<string, Json>, r: Request): Json
    requires IsConfig(config)
  {
    var providers := Obj(config["providers"].fields[r.provider := ProviderEntry(r)]);
    Obj(config["defaultProvider" := Str(r.provider)]["providers" := providers])
  }

  function BackupName(h: Host, config: map<string, Json>): string {
    var digest := h.digest(h.canonical(Obj(config)));
    h.markerName + "." + (if |digest| < 16 then digest else digest[..16]) + ".backup.json"
  }

  /** The marker. Its nullable digest of the preimage is missing exactly when the preimage is. */
  function Marker(h: Host, r: Request, config: map<string, Json>, preimage: Option<string>): Json
    requires IsConfig(config)
  {
    Obj(map["schema" := Int(1), "provider" := Str(r.provider),
            "preimage_digest" := if preimage.Some? then Str(h.digest(preimage.value)) else Null,
            "preimage_exists" := Bool(preimage.Some?),
            "managed_digest" := Str(h.digest(h.canonical(Managed(config, r)))),
            "backup_name" := Str(BackupName(h, config))])
  }

  /** Equal to 1 as the host language compares. */
  predicate IsOne(value: Json) {
    value == Int(1) || value == Bool(true) || value == Float(ONE)
  }

  function BackupNameIn(h: Host, marker: Json): string
    requires marker.Obj?
  {
    if "backup_name" !in marker.fields then ""
    else if marker.fields["backup_name"].Str? then marker.fields["backup_name"].text
    else h.show(marker.fields["backup_name"])
  }

  function ReadMarker(h: Host, files: Files): Result<Json, Error> {
    if h.markerPath !in files then Err(MarkerMissing)
    else
      match h.parse(files[h.markerPath])
      case None => Err(ConfigUnreadable)
      case Some(marker) =>
        if marker.Obj? && IsOne(marker.Get("schema")) && marker.Get("provider").Str? then Ok(marker)
        else Err(MarkerInvalid)
  }

  predicate Truthy(value: Json) {
    match value
    case Null => false
    case Bool(b) => b
    case Int(n) => n != 0
    case Float(x) => !IsZero(x)
    case Str(s) => s != ""
    case List(items) => items != []
    case Obj(fields) => fields.Keys != {}
  }

  // ----- Apply and remove -----

  function Apply(h: Host, files: Files, r: Request): (Files, Outcome) {
    var bad, original := RequestError(h, r), Lookup(files, h.configPath);
    var read := ReadConfig(h, original);
    if bad.Some? then (files, Refused(bad.value))
    else if read.Err? then (files, Refused(read.error))
    else if r.provider in read.value["providers"].fields && h.markerPath !in files then
      (files, Refused(UnownedProviderPresent))
    else if h.markerPath in files then
      match ReadMarker(h, files)
      case Err(error) => (files, Refused(error))
      case Ok(marker) =>
        if original.Some? && marker.Get("managed_digest") == Str(h.digest(original.value)) then
          (files, Unchanged(r.provider))
        else (files, Refused(AlreadyOwned))
    else
      match h.sibling(BackupName(h, read.value))
      case None => (files, Refused(NameInvalid))
      case Some(backup) =>
        var kept := if original.Some? then files[backup := original.value] else files;
        (kept[h.configPath := h.canonical(Managed(read.value, r))]
             [h.markerPath := h.canonical(Marker(h, r, read.value, original))], Applied)
  }

  /**
   * How far an application gets once its checks have passed. A crash or a write that raises ends it early; a write
   * can raise after the file is replaced, the last one with all files in place.
   */
  datatype ApplyStop = BeforeBackup | BeforeConfig | BeforeMarker | AfterMarker | Completes

  /** The files after an application that stops there; no outcome stands for the stop. */
  function ApplyUpTo(h: Host, files: Files, r: Request, stop: ApplyStop): (Files, Option<Outcome>) {
    var (full, outcome) := Apply(h, files, r);
    if outcome != Applied then (files, Some(outcome))
    else
      var original := Lookup(files, h.configPath);
      var read := ReadConfig(h, original);
      var backup := h.sibling(BackupName(h, read.value)).value;
      var kept := if original.Some? then files[backup := original.value] else files;
      match stop
      case BeforeBackup => (files, None)
      case BeforeConfig => (kept, None)
      case BeforeMarker => (kept[h.configPath := h.canonical(Managed(read.value, r))], None)
      case AfterMarker => (full, None)
      case Completes => (full, Some(Applied))
  }

  /** The preimage that the marker promises: its bytes, or its absence. */
  function Preimage(h: Host, files: Files, marker: Json, backup: string): Result<Option<string>, Error>
    requires marker.Obj?
  {
    if !Truthy(marker.Get("preimage_exists")) then Ok(None)
    else if backup !in files then Err(BackupMissing)
    else if marker.Get("preimage_digest") != Str(h.digest(files[backup])) then Err(BackupInvalid)
    else Ok(Some(files[backup]))
  }

  /** The checks of a removal: the marker's provider, the preimage and the backup. */
  function Removable(h: Host, files: Files): Result<(string, Option<string>, string), Error> {
    match ReadMarker(h, files)
    case Err(error) => Err(error)
    case Ok(marker) =>
      var current := Lookup(files, h.configPath);
      if current.None? || marker.Get("managed_digest") != Str(h.digest(current.value)) then Err(OwnedConfigChanged)
      else
        match h.sibling(BackupNameIn(h, marker))
        case None => Err(NameInvalid)
        case Some(backup) =>
          match Preimage(h, files, marker, backup)
          case Err(error) => Err(error)
          case Ok(preimage) => Ok((marker.Get("provider").text, preimage, backup))
  }

  function Restored(h: Host, files: Files, preimage: Option<string>): Files {
    if preimage.Some? then files[h.configPath := preimage.value] else files - {h.configPath}
  }

  function Remove(h: Host, files: Files): (Files, Outcome) {
    match Removable(h, files)
    case Err(error) => (files, Refused(error))
    case Ok((provider, preimage, backup)) =>
      (Restored(h, files, preimage) - {h.markerPath} - {backup}, Removed(provider))
  }

  /** How far a removal gets once its checks have passed. */
  datatype RemoveStop = BeforeRestoring | BeforeUnmarking | BeforeCleaning | Finishes

  function RemoveUpTo(h: Host, files: Files, stop: RemoveStop): (Files, Option<Outcome>) {
    match Removable(h, files)
    case Err(error) => (files, Some(Refused(error)))
    case Ok((provider, preimage, backup)) =>
      match stop
      case BeforeRestoring => (files, None)
      case BeforeUnmarking => (Restored(h, files, preimage), None)
      case BeforeCleaning => (Restored(h, files, preimage) - {h.markerPath}, None)
      case Finishes => (Remove(h, files).0, Some(Removed(provider)))
  }

  class OpenCodexConfigManager {
    const host: Host
    var files: Files

    constructor (host: Host, files: Files)
      ensures this.host == host && this.files == files
    {
      this.host, this.files := host, files;
    }

    /** `apply`: after every check, backup, configuration and marker, in this order, as far as `stop` lets it. */
    method ApplyProvider(r: Request, stop: ApplyStop) returns (outcome: Option<Outcome>)
      modifies this
      ensures (files, outcome) == ApplyUpTo(host, old(files), r, stop)
    {
      var bad := RequestError(host, r);
      if bad.Some? {
        return Some(Refused(bad.value));
      }
      var original := Lookup(files, host.configPath);
      var read := ReadConfig(host, original);
      if read.Err? {
        return Some(Refused(read.error));
      }
      var config := read.value;
      if r.provider in config["providers"].fields && host.markerPath !in files {
        return Some(Refused(UnownedProviderPresent));
      }
      if host.markerPath in files {
        var marker := ReadMarker(host, files);
        if marker.Err? {
          return Some(Refused(marker.error));
        }
        if original.Some? && marker.value.Get("managed_digest") == Str(host.digest(original.value)) {
          return Some(Unchanged(r.provider));
        }
        return Some(Refused(AlreadyOwned));
      }
      var backup := host.sibling(BackupName(host, config));
      if backup.None? {
        return Some(Refused(NameInvalid));
      }
      if stop.BeforeBackup? {
        return None;
      }
      if original.Some? {
        files := files[backup.value := original.value];
      }
      if stop.BeforeConfig? {
        return None;
      }
      files := files[host.configPath := host.canonical(Managed(config, r))];
      if stop.BeforeMarker? {
        return None;
      }
      files := files[host.markerPath := host.canonical(Marker(host, r, config, original))];
      return if stop.AfterMarker? then None else Some(Applied);
    }

    /** `remove`: after every check, configuration, marker and backup, in this order, as far as `stop` lets it. */
    method RemoveProvider(stop: RemoveStop) returns (outcome: Option<Outcome>)
      modifies this
      ensures (files, outcome) == RemoveUpTo(host, old(files), stop)
    {
      var marker := ReadMarker(host, files);
      if marker.Err? {
        return Some(Refused(marker.error));
      }
      var current := Lookup(files, host.configPath);
      if current.None? || marker.value.Get("managed_digest") != Str(host.digest(current.value)) {
        return Some(Refused(OwnedConfigChanged));
      }
      var backup := host.sibling(BackupNameIn(host, marker.value));
      if backup.None? {
        return Some(Refused(NameInvalid));
      }
      var preimage := Preimage(host, files, marker.value, backup.value);
      if preimage.Err? {
        return Some(Refused(preimage.error));
      }
      if stop.BeforeRestoring? {
        return None;
      }
      if preimage.value.Some? {
        files := files[host.configPath := preimage.value.value];
      } else {
        files := files - {host.configPath};
      }
      if stop.BeforeUnmarking? {
        return None;
      }
      files := files - {host.markerPath};
      if stop.BeforeCleaning? {
        return None;
      }
      files := files - {backup.value};
      return Some(Removed(marker.value.Get("provider").text));
    }
  }

  /** Backups of two configurations share a name exactly when the first 16 digits of their digests agree. */
  lemma BackupNamesTellApart(h: Host, a: map<string, Json>, b: map<string, Json>)
    requires |h.digest(h.canonical(Obj(a)))| == |h.digest(h.canonical(Obj(b)))| >= 16
    ensures h.markerName + "." <= BackupName(h, a)
    ensures BackupName(h, a) == BackupName(h, b)
       <==> h.digest(h.canonical(Obj(a)))[..16] == h.digest(h.canonical(Obj(b)))[..16]
  {
    var first, second := h.digest(h.canonical(Obj(a)))[..16], h.digest(h.canonical(Obj(b)))[..16];
    var front := h.markerName + ".";
    assert BackupName(h, a)[|front|..|front| + 16] == first && BackupName(h, b)[|front|..|front| + 16] == second;
  }

  // ----- Which removals take effect -----

  const EMPTY_VALUES :=
    {Null, Bool(false), Int(0), Float(0), Float(MINUS_ZERO), Str(""), List([]), Obj(map[])}

  /** The marker's name for the backup: a text as it is, any other value as it is shown, nothing where it is missing. */
  predicate IsNamed(h: Host, marker: Json, name: string) {
    && marker.Obj?
    && (if "backup_name" !in marker.fields then name == ""
        else match marker.fields["backup_name"] case Str(text) => name == text case value => name == h.show(value))
  }

  /** The marker on file, its backup file, and the bytes it promises to bring back; nothing stands for no file. */
  ghost predicate IsRemoval(h: Host, files: Files, marker: Json, backup: string, preimage: Option<string>) {
    && h.markerPath in files && h.parse(files[h.markerPath]) == Some(marker)
    && marker.Obj? && marker.Get("schema") in {Int(1), Bool(true), Float(ONE)} && marker.Get("provider").Str?
    && h.configPath in files && marker.Get("managed_digest") == Str(h.digest(files[h.configPath]))
    && (exists name: string :: IsNamed(h, marker, name) && h.sibling(name) == Some(backup))
    && (preimage.None? <==> marker.Get("preimage_exists") in EMPTY_VALUES)
    && (preimage.Some? ==>
          && backup in files && files[backup] == preimage.value
          && marker.Get("preimage_digest") == Str(h.digest(preimage.value)))
  }

  lemma EmptyValues(value: Json)
    ensures Truthy(value) <==> value !in EMPTY_VALUES
  {
    if value.Obj? {
      assert value.fields.Keys == {} <==> value.fields == map[];
    }
  }

  lemma RemovalIsRemovable(h: Host, files: Files, marker: Json, backup: string, preimage: Option<string>)
    requires IsRemoval(h, files, marker, backup, preimage)
    ensures Removable(h, files) == Ok((marker.Get("provider").text, preimage, backup))
  {
    hide Truthy;
    EmptyValues(marker.Get("preimage_exists"));
    var name: string :| IsNamed(h, marker, name) && h.sibling(name) == Some(backup);
    assert name == BackupNameIn(h, marker);
    assert ReadMarker(h, files) == Ok(marker);
    assert Preimage(h, files, marker, backup) == Ok(preimage);
  }

  lemma RemovableIsRemoval(h: Host, files: Files) returns (marker: Json)
    requires Removable(h, files).Ok?
    ensures var (provider, preimage, backup) := Removable(h, files).value;
            IsRemoval(h, files, marker, backup, preimage) && marker.Get("provider").text == provider
  {
    hide Truthy;
    marker := h.parse(files[h.markerPath]).value;
    assert ReadMarker(h, files) == Ok(marker);
    EmptyValues(marker.Get("preimage_exists"));
    assert IsNamed(h, marker, BackupNameIn(h, marker));
  }

  /**
   * A removal takes effect exactly under a sound marker for the bytes of the configuration whose preimage is still
   * there; any other is refused and touches no file.
   */
  lemma RemovesExactly(h: Host, files: Files)
    ensures var (after, outcome) := Remove(h, files);
            && (outcome.Removed? <==> exists marker, backup, preimage :: IsRemoval(h, files, marker, backup, preimage))
            && (!outcome.Removed? ==> after == files && outcome.Refused?)
  {
    hide IsRemoval;
    if Removable(h, files).Ok? {
      var marker := RemovableIsRemoval(h, files);
    }
    if marker, backup, preimage :| IsRemoval(h, files, marker, backup, preimage) {
      RemovalIsRemovable(h, files, marker, backup, preimage);
    }
  }

  /** What takes effect brings the preimage back, drops marker and backup, and touches no other file. */
  lemma RemovalRestores(h: Host, files: Files, marker: Json, backup: string, preimage: Option<string>)
    requires IsRemoval(h, files, marker, backup, preimage)
    ensures var (after, outcome) := Remove(h, files);
            && outcome == Removed(marker.Get("provider").text)
            && after.Keys == files.Keys - {h.markerPath, backup}
                             - (if preimage.None? then {h.configPath} else {})
            && forall path :: path in after ==>
                 after[path] == if path == h.configPath && preimage.Some? then preimage.value else files[path]
  {
    hide Removable;
    RemovalIsRemovable(h, files, marker, backup, preimage);
  }

  // ----- Runs -----

  /** The user edits only the configuration file. */
  datatype Event =
    | Applying(request: Request, until: ApplyStop)
    | Removing(to: RemoveStop)
    | Editing(content: Option<string>)

  ghost predicate Lawful(h: Host) {
    && (forall value: Json :: value.Obj? ==> h.parse(h.canonical(value)) == Some(value))
    && (forall a, b :: h.digest(a) == h.digest(b) ==> a == b)
    && h.configPath != h.markerPath
    && forall config: map<string, Json> :: BackupIsApart(h, config)
  }

  /** Backup names are valid file names, and no backup is the configuration or the marker. */
  ghost predicate BackupIsApart(h: Host, config: map<string, Json>) {
    var backup := h.sibling(BackupName(h, config));
    backup.Some? && backup.value != h.configPath && backup.value != h.markerPath
  }

  function Edited(h: Host, files: Files, content: Option<string>): Files {
    if content.Some? then files[h.configPath := content.value] else files - {h.configPath}
  }

  function Step(h: Host, files: Files, event: Event): (Files, Option<Outcome>) {
    match event
    case Applying(r, stop) => ApplyUpTo(h, files, r, stop)
    case Removing(stop) => RemoveUpTo(h, files, stop)
    case Editing(content) => (Edited(h, files, content), None)
  }

  function FilesAt(h: Host, start: Files, run: seq<Event>, k: nat): Files
    requires k <= |run|
  {
    if k == 0 then start else Step(h, FilesAt(h, start, run, k - 1), run[k - 1]).0
  }

  function OutcomeAt(h: Host, start: Files, run: seq<Event>, k: nat): Option<Outcome>
    requires k < |run|
  {
    Step(h, FilesAt(h, start, run, k), run[k]).1
  }

  /** An application past its checks that gets as far as writing the marker, whether it then raises or not. */
  predicate Marks(h: Host, files: Files, event: Event) {
    && event.Applying? && Apply(h, files, event.request).1 == Applied
    && (event.until.AfterMarker? || event.until.Completes?)
  }

  /** A removal past its checks that gets as far as unlinking the marker. */
  predicate Unmarks(h: Host, files: Files, event: Event) {
    event.Removing? && Removable(h, files).Ok? && (event.to.BeforeCleaning? || event.to.Finishes?)
  }

  /** The last application that left its marker and was not unmarked since: what was asked, and the file it found. */
  function OwnedAt(h: Host, start: Files, run: seq<Event>, k: nat): Option<(Request, Option<string>)>
    requires k <= |run|
  {
    if k == 0 then None
    else if Marks(h, FilesAt(h, start, run, k - 1), run[k - 1]) then
      Some((run[k - 1].request, Lookup(FilesAt(h, start, run, k - 1), h.configPath)))
    else if Unmarks(h, FilesAt(h, start, run, k - 1), run[k - 1]) then None
    else OwnedAt(h, start, run, k - 1)
  }

  /** The marker and the backup are those of this application. */
  ghost predicate Owns(h: Host, files: Files, r: Request, preimage: Option<string>) {
    var read := ReadConfig(h, preimage);
    && read.Ok?
    && Lookup(files, h.markerPath) == Some(h.canonical(Marker(h, r, read.value, preimage)))
    && var backup := h.sibling(BackupName(h, read.value));
    && backup.Some?
    && (preimage.Some? ==> Lookup(files, backup.value) == preimage)
  }

  /** The configuration that an application writes over a preimage. */
  function ManagedText(h: Host, r: Request, preimage: Option<string>): string
    requires ReadConfig(h, preimage).Ok?
  {
    h.canonical(Managed(ReadConfig(h, preimage).value, r))
  }

  /** Before anything is owned there is no marker; afterwards marker and backup stay those of the owner. */
  ghost predicate Kept(h: Host, files: Files, owner: Option<(Request, Option<string>)>) {
    match owner
    case None => h.markerPath !in files
    case Some((r, preimage)) => Owns(h, files, r, preimage)
  }

  /** An application adds one provider and makes it the default; every other setting and provider stays. */
  lemma ManagedKeepsTheRest(config: map<string, Json>, r: Request)
    requires IsConfig(config)
    ensures var managed := Managed(config, r).fields;
            && managed.Keys == config.Keys + {"defaultProvider"}
            && (forall key :: key in config && key != "defaultProvider" && key != "providers" ==>
                  managed[key] == config[key])
            && managed["defaultProvider"] == Str(r.provider) && managed["providers"].Obj?
            && var before, after := config["providers"].fields, managed["providers"].fields;
            && after.Keys == before.Keys + {r.provider}
            && (forall name :: name in before && name != r.provider ==> after[name] == before[name])
            && after[r.provider].Get("baseUrl") == Str(r.endpoint)
            && after[r.provider].Get("defaultModel") == Str(r.model)
            && after[r.provider].Get("apiKey") == Str("env:" + r.credentialEnv)
  {
    assert |"defaultProvider"| == 15 && |"providers"| == 9 && |"adapter"| == 7 && |"baseUrl"| == 7 && |"apiKey"| == 6;
    assert "adapter"[0] == 'a' && "baseUrl"[0] == 'b' && |"defaultModel"| == 12 && |"allowPrivateNetwork"| == 19;
    assert |"headers"| == 7 && "headers"[0] == 'h';
  }

  // ----- Reading back what was written -----

  lemma OwnMarkerReads(h: Host, files: Files, r: Request, preimage: Option<string>)
    requires Lawful(h) && Owns(h, files, r, preimage)
    ensures var config := ReadConfig(h, preimage).value;
            && ReadMarker(h, files) == Ok(Marker(h, r, config, preimage))
            && var marker := Marker(h, r, config, preimage);
            && marker.Get("managed_digest") == Str(h.digest(ManagedText(h, r, preimage)))
            && BackupNameIn(h, marker) == BackupName(h, config)
            && marker.Get("provider") == Str(r.provider)
            && marker.Get("preimage_exists") == Bool(preimage.Some?)
            && (preimage.Some? ==> marker.Get("preimage_digest") == Str(h.digest(preimage.value)))
  {
    hide ReadConfig, Managed, BackupName, ProviderEntry;
  }

  /** An application takes effect exactly when nothing is owned, the request is valid, and the preimage is a
      configuration without the provider; it writes only configuration, marker and backup. */
  lemma ApplyTakesEffect(h: Host, files: Files, r: Request)
    requires Lawful(h) && h.markerPath !in files
    ensures var preimage := Lookup(files, h.configPath);
            var read := ReadConfig(h, preimage);
            var (files', outcome) := Apply(h, files, r);
            && (outcome == Applied <==> RequestError(h, r).None? && read.Ok?
                                        && r.provider !in read.value["providers"].fields)
            && (outcome == Applied ==>
                  && Owns(h, files', r, preimage)
                  && Lookup(files', h.configPath) == Some(ManagedText(h, r, preimage))
                  && forall path :: path != h.configPath && path != h.markerPath
                                    && Some(path) != h.sibling(BackupName(h, read.value))
                       ==> Lookup(files', path) == Lookup(files, path))
            && (outcome != Applied ==> files' == files && outcome.Refused?)
  {
    hide RequestError, ReadConfig, Managed, BackupName, Marker;
    var read := ReadConfig(h, Lookup(files, h.configPath));
    if read.Ok? {
      assert BackupIsApart(h, read.value);
    }
  }

  /** What is owned is removed exactly when the configuration is the one applied, byte for byte. */
  lemma RemoveRestores(h: Host, files: Files, r: Request, preimage: Option<string>)
    requires Lawful(h) && Owns(h, files, r, preimage)
    ensures var (files', outcome) := Remove(h, files);
            var backup := h.sibling(BackupName(h, ReadConfig(h, preimage).value)).value;
            if Lookup(files, h.configPath) == Some(ManagedText(h, r, preimage)) then
              && outcome == Removed(r.provider) && Removable(h, files) == Ok((r.provider, preimage, backup))
              && Lookup(files', h.configPath) == preimage
              && h.markerPath !in files' && backup !in files'
              && forall path :: path != h.configPath && path != h.markerPath && path != backup
                   ==> Lookup(files', path) == Lookup(files, path)
            else
              && files' == files && outcome == Refused(OwnedConfigChanged)
              && Removable(h, files) == Err(OwnedConfigChanged)
  {
    hide ReadConfig, Managed, BackupName, Marker, ReadMarker, Owns, BackupNameIn, ManagedText;
    OwnedFiles(h, files, r, preimage);
    OwnMarkerReads(h, files, r, preimage);
    assert BackupIsApart(h, ReadConfig(h, preimage).value);
  }

  lemma OwnedFiles(h: Host, files: Files, r: Request, preimage: Option<string>)
    requires Owns(h, files, r, preimage)
    ensures ReadConfig(h, preimage).Ok? && h.markerPath in files
    ensures var backup := h.sibling(BackupName(h, ReadConfig(h, preimage).value));
            backup.Some? && (preimage.Some? ==> Lookup(files, backup.value) == preimage)
  {
    hide ReadConfig, BackupName, Marker;
  }

  /** While something is owned, applying changes nothing; it reports success exactly when the file is as applied. */
  lemma ReapplyChangesNothing(h: Host, files: Files, owner: Request, preimage: Option<string>, r: Request)
    requires Lawful(h) && Owns(h, files, owner, preimage)
    ensures var (files', outcome) := Apply(h, files, r);
            && files' == files && (outcome.Unchanged? || outcome.Refused?)
            && (outcome == Unchanged(r.provider)
                <==> RequestError(h, r).None? && Lookup(files, h.configPath) == Some(ManagedText(h, owner, preimage)))
  {
    hide RequestError, ReadConfig, Managed, BackupName, Marker, ReadMarker, Owns, ManagedText;
    OwnedFiles(h, files, owner, preimage);
    OwnMarkerReads(h, files, owner, preimage);
    if Lookup(files, h.configPath) == Some(ManagedText(h, owner, preimage)) {
      ManagedTextReads(h, owner, preimage);
    }
  }

  lemma ManagedTextReads(h: Host, r: Request, preimage: Option<string>)
    requires Lawful(h) && ReadConfig(h, preimage).Ok?
    ensures ReadConfig(h, Some(ManagedText(h, r, preimage))).Ok?
  {
    var managed := Managed(ReadConfig(h, preimage).value, r);
    assert h.parse(h.canonical(managed)) == Some(managed);
    assert managed.fields["providers"].Obj?;
  }

  lemma EditKeepsOwnership(h: Host, files: Files, owner: Option<(Request, Option<string>)>, content: Option<string>)
    requires Lawful(h) && Kept(h, files, owner)
    ensures Kept(h, Edited(h, files, content), owner)
  {
    if owner.Some? {
      hide ReadConfig, BackupName, Marker;
      assert BackupIsApart(h, ReadConfig(h, owner.value.1).value);
    }
  }

  /** An application that stops before its marker leaves none; one that raises after it owns the files. */
  lemma ApplyingKeeps(h: Host, files: Files, owner: Option<(Request, Option<string>)>, r: Request, stop: ApplyStop)
    requires Lawful(h) && Kept(h, files, owner)
    ensures Kept(h, ApplyUpTo(h, files, r, stop).0,
                 if Marks(h, files, Applying(r, stop)) then Some((r, Lookup(files, h.configPath))) else owner)
  {
    hide RequestError, ReadConfig, Managed, BackupName, Marker, ReadMarker, Owns, ManagedText;
    if owner.None? {
      ApplyTakesEffect(h, files, r);
      var read := ReadConfig(h, Lookup(files, h.configPath));
      if read.Ok? {
        assert BackupIsApart(h, read.value);
      }
    } else {
      ReapplyChangesNothing(h, files, owner.value.0, owner.value.1, r);
    }
  }

  /** A removal that stops before the marker leaves marker and backup; one that stops later leaves no marker. */
  lemma RemovingKeeps(h: Host, files: Files, owner: Option<(Request, Option<string>)>, stop: RemoveStop)
    requires Lawful(h) && Kept(h, files, owner)
    ensures Kept(h, RemoveUpTo(h, files, stop).0, if Unmarks(h, files, Removing(stop)) then None else owner)
  {
    hide RequestError, ReadConfig, Managed, BackupName, Marker, ReadMarker, Owns, ManagedText, Removable, Remove;
    if owner.None? {
      NothingToRemove(h, files);
    } else {
      var (r, preimage) := owner.value;
      OwnedFiles(h, files, r, preimage);
      RemoveRestores(h, files, r, preimage);
      if Removable(h, files).Ok? {
        EditKeepsOwnership(h, files, owner, preimage);
      }
    }
  }

  lemma {:induction false} RunsKeepOwnership(h: Host, start: Files, run: seq<Event>, k: nat)
    requires Lawful(h) && h.markerPath !in start && k <= |run|
    ensures Kept(h, FilesAt(h, start, run, k), OwnedAt(h, start, run, k))
  {
    hide ApplyUpTo, RemoveUpTo, Marks, Unmarks, Kept, Edited, Lawful;
    if k == 0 {
      NothingKept(h, start);
    } else {
      RunsKeepOwnership(h, start, run, k - 1);
      var files, owner := FilesAt(h, start, run, k - 1), OwnedAt(h, start, run, k - 1);
      match run[k - 1]
      case Applying(r, stop) =>
        ApplyingKeeps(h, files, owner, r, stop);
        MarkingEvents(h, files, run[k - 1]);
      case Removing(stop) =>
        RemovingKeeps(h, files, owner, stop);
        MarkingEvents(h, files, run[k - 1]);
      case Editing(content) =>
        EditKeepsOwnership(h, files, owner, content);
        MarkingEvents(h, files, run[k - 1]);
    }
  }

  lemma NothingKept(h: Host, files: Files)
    requires h.markerPath !in files
    ensures Kept(h, files, None)
  {
  }

  lemma MarkingEvents(h: Host, files: Files, event: Event)
    ensures (Marks(h, files, event) ==> event.Applying?) && (Unmarks(h, files, event) ==> event.Removing?)
  {
  }

  lemma NothingToRemove(h: Host, files: Files)
    requires h.markerPath !in files
    ensures Removable(h, files) == Err(MarkerMissing) && Remove(h, files) == (files, Refused(MarkerMissing))
  {
  }

  /**
   * Over every run of applications, removals and edits that starts without a marker, each stopped anywhere: a removal
   * takes effect exactly when the configuration is, byte for byte, what the last application that left its marker
   * wrote; then the file that application found, or its absence, is back, and marker and backup are gone. Otherwise
   * every file stays as it is.
   */
  lemma RemovalUndoesTheLastApplication(h: Host, start: Files, run: seq<Event>, k: nat)
    requires Lawful(h) && h.markerPath !in start && k < |run| && run[k] == Removing(Finishes)
    ensures var files, files' := FilesAt(h, start, run, k), FilesAt(h, start, run, k + 1);
            match OwnedAt(h, start, run, k)
            case None => files' == files && OutcomeAt(h, start, run, k) == Some(Refused(MarkerMissing))
            case Some((r, preimage)) =>
              && ReadConfig(h, preimage).Ok?
              && var backup := h.sibling(BackupName(h, ReadConfig(h, preimage).value));
              && backup.Some?
              && if Lookup(files, h.configPath) == Some(ManagedText(h, r, preimage)) then
                   && OutcomeAt(h, start, run, k) == Some(Removed(r.provider))
                   && Lookup(files', h.configPath) == preimage
                   && h.markerPath !in files' && backup.value !in files'
                 else files' == files && OutcomeAt(h, start, run, k) == Some(Refused(OwnedConfigChanged))
  {
    hide Apply, Remove, Owns, RequestError, ReadConfig, Marker, BackupName, ManagedText, Edited, Lawful, Removable;
    RunsKeepOwnership(h, start, run, k);
    var files, owner := FilesAt(h, start, run, k), OwnedAt(h, start, run, k);
    if owner.None? {
      NothingToRemove(h, files);
    } else {
      OwnedFiles(h, files, owner.value.0, owner.value.1);
      RemoveRestores(h, files, owner.value.0, owner.value.1);
    }
  }

  // ----- What a stop leaves -----

  /** Stopped before the configuration is written, an application can simply be made again, with the same result. */
  lemma EarlyStopIsHarmless(h: Host, files: Files, r: Request, stop: ApplyStop)
    requires Lawful(h) && h.markerPath !in files && Apply(h, files, r).1 == Applied
    requires stop.BeforeBackup? || stop.BeforeConfig?
    ensures var stopped := ApplyUpTo(h, files, r, stop).0;
            && Lookup(stopped, h.configPath) == Lookup(files, h.configPath) && h.markerPath !in stopped
            && Apply(h, stopped, r) == Apply(h, files, r)
  {
    hide RequestError, ReadConfig, Managed, BackupName, Marker;
    var original := Lookup(files, h.configPath);
    var read := ReadConfig(h, original);
    assert BackupIsApart(h, read.value);
    var backup := h.sibling(BackupName(h, read.value)).value;
    if original.Some? {
      var kept := files[backup := original.value];
      assert kept[backup := original.value] == kept;
    }
  }

  lemma ProviderIsManaged(h: Host, r: Request, preimage: Option<string>)
    requires Lawful(h) && ReadConfig(h, preimage).Ok?
    ensures var read := ReadConfig(h, Some(ManagedText(h, r, preimage)));
            read.Ok? && r.provider in read.value["providers"].fields
  {
    var managed := Managed(ReadConfig(h, preimage).value, r);
    assert h.parse(h.canonical(managed)) == Some(managed);
    assert managed.fields["providers"].Obj? && r.provider in managed.fields["providers"].fields;
  }

  /**
   * Stopped between configuration and marker, an application leaves a configuration that nothing owns: it cannot be
   * removed, and the same provider cannot be applied again, until the configuration is edited.
   */
  lemma StopBeforeMarkerOrphans(h: Host, files: Files, r: Request, again: Request)
    requires Lawful(h) && h.markerPath !in files && Apply(h, files, r).1 == Applied
    requires RequestError(h, again).None? && again.provider == r.provider
    ensures var stopped := ApplyUpTo(h, files, r, BeforeMarker).0;
            && Remove(h, stopped) == (stopped, Refused(MarkerMissing))
            && Apply(h, stopped, again) == (stopped, Refused(UnownedProviderPresent))
  {
    hide RequestError, ReadConfig, Managed, BackupName, Marker, Remove, ManagedText;
    ApplyTakesEffect(h, files, r);
    var original := Lookup(files, h.configPath);
    var read := ReadConfig(h, original);
    assert BackupIsApart(h, read.value);
    var stopped := ApplyUpTo(h, files, r, BeforeMarker).0;
    NothingToRemove(h, stopped);
    ProviderIsManaged(h, r, original);
    ManagedTextIs(h, r, original);
    assert Lookup(stopped, h.configPath) == Some(ManagedText(h, r, original));
  }

  lemma ManagedTextIs(h: Host, r: Request, preimage: Option<string>)
    requires ReadConfig(h, preimage).Ok?
    ensures ManagedText(h, r, preimage) == h.canonical(Managed(ReadConfig(h, preimage).value, r))
  {
  }

  /**
   * Stopped between restoring and unlinking the marker, a removal leaves the configuration restored and still marked:
   * every later removal and every later application is refused, until the configuration is edited back.
   */
  lemma StopBeforeUnmarkingBlocks(h: Host, files: Files, r: Request, preimage: Option<string>, again: Request)
    requires Lawful(h) && Owns(h, files, r, preimage)
    requires Lookup(files, h.configPath) == Some(ManagedText(h, r, preimage))
    requires r.provider !in ReadConfig(h, preimage).value["providers"].fields
    ensures var stopped := RemoveUpTo(h, files, BeforeUnmarking).0;
            && Lookup(stopped, h.configPath) == preimage && Owns(h, stopped, r, preimage)
            && Remove(h, stopped) == (stopped, Refused(OwnedConfigChanged))
            && Apply(h, stopped, again).0 == stopped && Apply(h, stopped, again).1.Refused?
            && Remove(h, Edited(h, stopped, Some(ManagedText(h, r, preimage)))).1 == Removed(r.provider)
  {
    hide RequestError, ReadConfig, Managed, BackupName, Marker, ReadMarker, Owns, ManagedText, Removable, Apply, Remove;
    OwnedFiles(h, files, r, preimage);
    RemoveRestores(h, files, r, preimage);
    var stopped := RemoveUpTo(h, files, BeforeUnmarking).0;
    assert stopped == Restored(h, files, preimage) == Edited(h, files, preimage);
    EditKeepsOwnership(h, files, Some((r, preimage)), preimage);
    ProviderIsManaged(h, r, preimage);
    assert preimage != Some(ManagedText(h, r, preimage));
    RemoveRestores(h, stopped, r, preimage);
    ReapplyChangesNothing(h, stopped, r, preimage, again);
    OnlyOneUnchanged(h, stopped, again);
    EditKeepsOwnership(h, stopped, Some((r, preimage)), Some(ManagedText(h, r, preimage)));
    RemoveRestores(h, Edited(h, stopped, Some(ManagedText(h, r, preimage))), r, preimage);
  }

  lemma OnlyOneUnchanged(h: Host, files: Files, r: Request)
    ensures Apply(h, files, r).1.Unchanged? ==> Apply(h, files, r).1 == Unchanged(r.provider)
  {
    hide RequestError, ReadConfig, ReadMarker;
  }

  /** Stopped after the marker, a removal has done its work; only the backup is left behind. */
  lemma StopBeforeCleaningLeavesTheBackup(h: Host, files: Files, r: Request, preimage: Option<string>)
    requires Lawful(h) && Owns(h, files, r, preimage)
    requires Lookup(files, h.configPath) == Some(ManagedText(h, r, preimage))
    ensures var stopped := RemoveUpTo(h, files, BeforeCleaning).0;
            && Lookup(stopped, h.configPath) == preimage && h.markerPath !in stopped
            && Remove(h, files).0 == stopped - {h.sibling(BackupName(h, ReadConfig(h, preimage).value)).value}
  {
    hide ReadConfig, BackupName, Owns, ManagedText, Removable;
    OwnedFiles(h, files, r, preimage);
    RemoveRestores(h, files, r, preimage);
    assert BackupIsApart(h, ReadConfig(h, preimage).value);
  }

  /** Applied to files without the provider and removed untouched, everything is as before, unless a file already
      lay at the backup path: that one is lost. */
  lemma ApplyThenRemove(h: Host, files: Files, r: Request)
    requires Lawful(h) && h.markerPath !in files && Apply(h, files, r).1 == Applied
    ensures var (files', outcome) := Remove(h, Apply(h, files, r).0);
            && outcome == Removed(r.provider)
            && ReadConfig(h, Lookup(files, h.configPath)).Ok?
            && var backup := h.sibling(BackupName(h, ReadConfig(h, Lookup(files, h.configPath)).value));
            && backup.Some? && files' == files - {backup.value}
            && (files' == files <==> backup.value !in files)
  {
    hide Apply, Remove, Owns, RequestError, ReadConfig, Marker, BackupName, ManagedText, Edited;
    var preimage, files1 := Lookup(files, h.configPath), Apply(h, files, r).0;
    ApplyTakesEffect(h, files, r);
    OwnedFiles(h, files1, r, preimage);
    RemoveRestores(h, files1, r, preimage);
    var backup := h.sibling(BackupName(h, ReadConfig(h, preimage).value)).value;
    assert BackupIsApart(h, ReadConfig(h, preimage).value);
    var files2 := Remove(h, files1).0;
    forall path ensures Lookup(files2, path) == Lookup(files - {backup}, path) {
    }
    SameFiles(files2, files - {backup});
    if backup !in files {
      SameFiles(files, files - {backup});
    }
  }

  lemma SameFiles(a: Files, b: Files)
    requires forall path :: Lookup(a, path) == Lookup(b, path)
    ensures a == b
  {
    forall path ensures path in a <==> path in b {
      assert Lookup(a, path) == Lookup(b, path);
    }
    forall path | path in a ensures a[path] == b[path] {
      assert Lookup(a, path) == Lookup(b, path);
    }
  }
}
