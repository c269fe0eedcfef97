/** The on-disk cache of project facts: the envelope written on save, the
    chain of checks applied on load, and the rewriting of absolute contract
    paths into project-relative ones. JSON text, hashing and the conversion
    between facts and JSON values are parameters. */
module Artifacts {
  import opened Common
  import opened Dicts
  import opened Keys
  import opened Model

  /** The schema version written into, and demanded of, every cache file. */
  const CacheSchemaVersion: string := "1.1.0"

  /** Name of the cache file inside the artifacts directory. */
  const CacheFileName: string := "project_facts.json"

  /** A parsed JSON value. Numbers are integers; objects are maps. */
  datatype Json =
    | JNull
    | JBool(b: bool)
    | JNum(n: int)
    | JStr(s: string)
    | JArr(items: seq<Json>)
    | JObj(fields: map<string, Json>)

  /** The conversions the cache relies on: facts to and from JSON values
      (the validation may fail with a message), canonical JSON text with
      sorted keys, the content hash, and the text of a non-scalar value. */
  datatype Codec = Codec(
    toJson: ProjectFacts -> Json,
    fromJson: Json -> Result<ProjectFacts, string>,
    canonical: Json -> string,
    hash: string -> string,
    show: Json -> string)

  /** The checksum of a data value: the hash of its canonical text. */
  function Checksum(codec: Codec, data: Json): string {
    codec.hash(codec.canonical(data))
  }

  // ---------------------------------------------------------------------
  // save_project_facts
  // ---------------------------------------------------------------------

  /** The type tag that marks a current-format cache file. */
  const TypeTag: Json := JObj(map["is_list" := JBool(false), "model_name" := JStr("ProjectFacts")])

  /** The object written to the cache file: type tag, schema version, the
      checksum of the data, and the data. */
  function Envelope(codec: Codec, facts: ProjectFacts): (r: Json)
    ensures r.JObj? && r.fields.Keys == {"_pydantic_type", "_cache_version", "_checksum", "data"}
    ensures r.fields["data"] == codec.toJson(facts)
    ensures r.fields["_checksum"] == JStr(Checksum(codec, r.fields["data"]))
    ensures r.fields["_cache_version"] == JStr(CacheSchemaVersion)
  {
    var data := codec.toJson(facts);
    JObj(map[
      "_pydantic_type" := TypeTag,
      "_cache_version" := JStr(CacheSchemaVersion),
      "_checksum" := JStr(Checksum(codec, data)),
      "data" := data])
  }

  // ---------------------------------------------------------------------
  // _normalize_paths
  // ---------------------------------------------------------------------

  /** Path operations of the host: whether a path is absolute, and the path
      relative to a directory (`None` where the host cannot relate them). */
  datatype PathOps = PathOps(isAbs: string -> bool, relPath: (string, string) -> Option<string>)

  /** A relative path the host produces is never absolute. */
  ghost predicate RelativeResults(ops: PathOps) {
    forall p, d :: ops.relPath(p, d).Some? ==> !ops.isAbs(ops.relPath(p, d).value)
  }

  /** An absolute path becomes relative to the project directory when the
      host can relate the two; any other path stays as it is. */
  function NormalizePath(ops: PathOps, path: string, projectDir: string): (r: string)
    ensures !ops.isAbs(path) ==> r == path
  {
    if ops.isAbs(path) then
      match ops.relPath(path, projectDir)
      case Some(rel) => rel
      case None => path
    else path
  }

  function NormalizeContract(ops: PathOps, projectDir: string, c: ContractModel): ContractModel {
    c.(path := NormalizePath(ops, c.path, projectDir))
  }

  /** Every contract's `path` normalised; nothing else changes. */
  function NormalizePaths(ops: PathOps, facts: ProjectFacts): (r: ProjectFacts)
    ensures r.contracts.order == facts.contracts.order
    ensures r.projectDir == facts.projectDir
    ensures r.detectorResults == facts.detectorResults
    ensures r.availableDetectors == facts.availableDetectors
    ensures forall k :: k in r.contracts.entries <==> k in facts.contracts.entries
  {
    facts.(contracts := MapValues(facts.contracts, c => NormalizeContract(ops, facts.projectDir, c)))
  }

  /** Normalisation touches only paths, and only absolute ones: every other
      field of every contract stays, relative paths stay, and absolute paths
      become what the host relates them to. */
  lemma NormalizePathsEffect(ops: PathOps, facts: ProjectFacts, k: ContractKey)
    requires k in facts.contracts.entries
    ensures (
      var c := facts.contracts.entries[k];
      var d := NormalizePaths(ops, facts).contracts.entries[k];
      && d == c.(path := d.path)
      && (!ops.isAbs(c.path) ==> d.path == c.path)
      && (ops.isAbs(c.path) && ops.relPath(c.path, facts.projectDir).Some? ==>
            d.path == ops.relPath(c.path, facts.projectDir).value))
  {
  }

  /** A path already normalised is left alone. */
  lemma NormalizePathIdempotent(ops: PathOps, path: string, projectDir: string)
    requires RelativeResults(ops)
    ensures NormalizePath(ops, NormalizePath(ops, path, projectDir), projectDir) == NormalizePath(ops, path, projectDir)
  {
    if ops.isAbs(path) && ops.relPath(path, projectDir).Some? {
      assert !ops.isAbs(ops.relPath(path, projectDir).value);
    }
  }

  /** Normalising twice is normalising once. */
  lemma NormalizePathsIdempotent(ops: PathOps, facts: ProjectFacts)
    requires RelativeResults(ops)
    ensures NormalizePaths(ops, NormalizePaths(ops, facts)) == NormalizePaths(ops, facts)
  {
    var f := (c: ContractModel) => NormalizeContract(ops, facts.projectDir, c);
    forall k | k in facts.contracts.entries
      ensures f(f(facts.contracts.entries[k])) == f(facts.contracts.entries[k])
    {
      NormalizePathIdempotent(ops, facts.contracts.entries[k].path, facts.projectDir);
    }
    MapValuesTwice(facts.contracts, f);
  }

  // ---------------------------------------------------------------------
  // load_project_facts
  // ---------------------------------------------------------------------

  /** What the artifacts directory holds: no cache file, a file that is not
      JSON (with the parser's complaint), or a parsed JSON value. */
  datatype CacheFile = Missing | NotJson(detail: string) | Parsed(value: Json)

  /** Python `str()` of a JSON value read from the file. */
  function Shown(codec: Codec, v: Option<Json>): string {
    match v
    case None => "None"
    case Some(JNull) => "None"
    case Some(JBool(b)) => if b then "True" else "False"
    case Some(JNum(n)) => if n < 0 then "-" + Decimal(-n) else Decimal(n)
    case Some(JStr(s)) => s
    case Some(other) => codec.show(other)
  }

  /** Why a cache file was refused. */
  datatype Corruption =
    | InvalidJson(detail: string)
    | NotAnObject
    | VersionMismatch(found: Option<Json>)
    | MissingData
    | ChecksumMismatch
    | InvalidData(detail: string)
    | LegacyFormat
  {
    function Message(codec: Codec): string {
      match this
      case InvalidJson(detail) => "Cache file is not valid JSON: " + detail
      case NotAnObject => "Cache file has invalid structure: expected dict"
      case VersionMismatch(found) =>
        "Cache version mismatch: found '" + Shown(codec, found) + "', expected '" + CacheSchemaVersion + "'. "
        + "Re-run analysis to regenerate cache."
      case MissingData => "Cache file missing 'data' field"
      case ChecksumMismatch =>
        "Cache integrity check failed: checksum mismatch. "
        + "The cache file may have been corrupted. Re-run analysis to regenerate."
      case InvalidData(detail) => "Failed to parse cache data: " + detail
      case LegacyFormat =>
        "Legacy cache format detected without version info. Re-run analysis to regenerate cache."
    }
  }

  datatype LoadError = FileNotFound(path: string) | CacheCorruption(reason: Corruption)

  /** Path of the cache file inside `artifactsDir`. */
  function CacheFilePath(artifactsDir: string): string {
    artifactsDir + "/" + CacheFileName
  }

  /** `d.get(key)`: the value, or `None` when the key is absent or the value is JSON null. */
  function Get(fields: map<string, Json>, key: string): (r: Option<Json>)
    ensures r.Some? <==> key in fields && fields[key] != JNull
    ensures r.Some? ==> r.value == fields[key]
  {
    if key in fields && fields[key] != JNull then Some(fields[key]) else None
  }

  /** The checks applied to a parsed cache object, in order: the type tag
      must be present (otherwise the legacy format is refused), the version
      must match, the data must be present, and a checksum, when present,
      must match the data. Yields the data on success. */
  function CheckEnvelope(codec: Codec, fields: map<string, Json>): (r: Result<Json, Corruption>)
  {
    if "_pydantic_type" !in fields then Err(LegacyFormat)
    else if Get(fields, "_cache_version") != Some(JStr(CacheSchemaVersion)) then
      Err(VersionMismatch(Get(fields, "_cache_version")))
    else if Get(fields, "data").None? then Err(MissingData)
    else if Get(fields, "_checksum").Some? && Get(fields, "_checksum") != Some(JStr(Checksum(codec, fields["data"]))) then
      Err(ChecksumMismatch)
    else Ok(fields["data"])
  }

  /** Reads the cache: a missing file, unparseable text, a non-object, or a
      failed envelope check is an error; otherwise the data is validated
      into facts whose absolute paths are then normalised. */
  function LoadProjectFacts(codec: Codec, ops: PathOps, artifactsDir: string, file: CacheFile): (r: Result<ProjectFacts, LoadError>)
    ensures file.Missing? <==> r == Err(FileNotFound(CacheFilePath(artifactsDir)))
  {
    match file
    case Missing => Err(FileNotFound(CacheFilePath(artifactsDir)))
    case NotJson(detail) => Err(CacheCorruption(InvalidJson(detail)))
    case Parsed(value) =>
      if !value.JObj? then Err(CacheCorruption(NotAnObject))
      else
        match CheckEnvelope(codec, value.fields)
        case Err(why) => Err(CacheCorruption(why))
        case Ok(data) =>
          match codec.fromJson(data)
          case Err(detail) => Err(CacheCorruption(InvalidData(detail)))
          case Ok(facts) => Ok(NormalizePaths(ops, facts))
  }

  /** Whether the cache file exists. */
  predicate ArtifactsExist(file: CacheFile) {
    !file.Missing?
  }

  /** Loading reports a missing file exactly when there is no cache file. */
  lemma LoadMissingExactly(codec: Codec, ops: PathOps, artifactsDir: string, file: CacheFile)
    ensures !ArtifactsExist(file) <==> (
      LoadProjectFacts(codec, ops, artifactsDir, file).Err?
      && LoadProjectFacts(codec, ops, artifactsDir, file).error.FileNotFound?)
  {
  }

  /** A cache loads exactly when the file holds an object with the type tag,
      the current version, non-null data whose checksum, if any, matches, and
      data that validates; what loads is the validated facts, normalised. */
  lemma LoadAccepts(codec: Codec, ops: PathOps, artifactsDir: string, file: CacheFile)
    ensures LoadProjectFacts(codec, ops, artifactsDir, file).Ok? <==>
      && file.Parsed? && file.value.JObj?
      && "_pydantic_type" in file.value.fields
      && Get(file.value.fields, "_cache_version") == Some(JStr(CacheSchemaVersion))
      && Get(file.value.fields, "data").Some?
      && (Get(file.value.fields, "_checksum").None?
          || Get(file.value.fields, "_checksum") == Some(JStr(Checksum(codec, file.value.fields["data"]))))
      && codec.fromJson(file.value.fields["data"]).Ok?
    ensures LoadProjectFacts(codec, ops, artifactsDir, file).Ok? ==>
      LoadProjectFacts(codec, ops, artifactsDir, file).value
        == NormalizePaths(ops, codec.fromJson(file.value.fields["data"]).value)
  {
  }

  /** An object without the type tag is refused as the legacy format,
      whatever else it holds. */
  lemma LegacyRejected(codec: Codec, ops: PathOps, artifactsDir: string, fields: map<string, Json>)
    requires "_pydantic_type" !in fields
    ensures LoadProjectFacts(codec, ops, artifactsDir, Parsed(JObj(fields))) == Err(CacheCorruption(LegacyFormat))
  {
  }

  /** A tagged object of another version is refused, whatever else it holds. */
  lemma OtherVersionRejected(codec: Codec, ops: PathOps, artifactsDir: string, fields: map<string, Json>, version: string)
    requires "_pydantic_type" in fields && "_cache_version" in fields
    requires fields["_cache_version"] == JStr(version) && version != CacheSchemaVersion
    ensures LoadProjectFacts(codec, ops, artifactsDir, Parsed(JObj(fields)))
      == Err(CacheCorruption(VersionMismatch(Some(JStr(version)))))
  {
  }

  /** What was saved loads back: the facts, with absolute paths normalised,
      provided converting the facts to JSON and back is the identity. */
  lemma SaveLoadRoundTrip(codec: Codec, ops: PathOps, artifactsDir: string, facts: ProjectFacts)
    requires codec.toJson(facts) != JNull
    requires codec.fromJson(codec.toJson(facts)) == Ok(facts)
    ensures LoadProjectFacts(codec, ops, artifactsDir, Parsed(Envelope(codec, facts))) == Ok(NormalizePaths(ops, facts))
  {
    var f := Envelope(codec, facts).fields;
    assert Get(f, "_cache_version") == Some(JStr(CacheSchemaVersion));
    assert CheckEnvelope(codec, f) == Ok(codec.toJson(facts));
  }

  /** Facts whose contract paths are all relative load back unchanged. */
  lemma SaveLoadRelative(codec: Codec, ops: PathOps, artifactsDir: string, facts: ProjectFacts)
    requires codec.toJson(facts) != JNull
    requires codec.fromJson(codec.toJson(facts)) == Ok(facts)
    requires forall k :: k in facts.contracts.entries ==> !ops.isAbs(facts.contracts.entries[k].path)
    ensures LoadProjectFacts(codec, ops, artifactsDir, Parsed(Envelope(codec, facts))) == Ok(facts)
  {
    SaveLoadRoundTrip(codec, ops, artifactsDir, facts);
    var n := NormalizePaths(ops, facts);
    assert n.contracts.entries == facts.contracts.entries;
    assert n.contracts == facts.contracts;
  }

  /** Saved data replaced by different data is caught by the checksum, as
      long as the hash tells the two apart. */
  lemma TamperedDataRejected(codec: Codec, ops: PathOps, artifactsDir: string, facts: ProjectFacts, forged: Json)
    requires forged != JNull
    requires Checksum(codec, forged) != Checksum(codec, codec.toJson(facts))
    ensures LoadProjectFacts(codec, ops, artifactsDir, Parsed(JObj(Envelope(codec, facts).fields["data" := forged])))
      == Err(CacheCorruption(ChecksumMismatch))
  {
    var f := Envelope(codec, facts).fields["data" := forged];
    assert Get(f, "_cache_version") == Some(JStr(CacheSchemaVersion));
    assert Get(f, "_checksum") == Some(JStr(Checksum(codec, codec.toJson(facts))));
  }

  /** The checksum is optional: an envelope without one loads all the same. */
  lemma ChecksumOptional(codec: Codec, ops: PathOps, artifactsDir: string, facts: ProjectFacts)
    requires codec.toJson(facts) != JNull
    requires codec.fromJson(codec.toJson(facts)) == Ok(facts)
    ensures LoadProjectFacts(codec, ops, artifactsDir, Parsed(JObj(Envelope(codec, facts).fields - {"_checksum"})))
      == Ok(NormalizePaths(ops, facts))
  {
    var f := Envelope(codec, facts).fields - {"_checksum"};
    assert Get(f, "_cache_version") == Some(JStr(CacheSchemaVersion));
    assert Get(f, "_checksum") == None;
  }
}
