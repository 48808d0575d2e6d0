/**
 * The configuration helpers of XIVAuras: the serialization binder that gives each plugin
 * type a stable name, the two read-only JSON converters that widen a legacy scalar into an
 * array, the export / import pipeline (JSON, Deflate, Base64) and the loading of the config
 * file with its backup on failure.
 *
 * Reflection, the JSON library, the Deflate and Base64 codecs and the file system are not
 * modelled inside: what they report comes in as values and functions, and every library
 * call that can throw yields `None` (or a `...Threw` case) where it would throw.
 */
module ConfigHelpers {
  import opened Wrappers
  import opened Primitives

  // ---------------------------------------------------------------------------------------
  // Types as the binder and the converters see them
  // ---------------------------------------------------------------------------------------

  /** The plugin classes the binder lists in `_configTypes`. */
  datatype ConfigClass =
    | AuraBar | AuraGroup | AuraIcon | AuraLabel | AuraListItem | AuraListConfig
    | BarStyleConfig | CooldownTrigger | ConfigColor | FontConfig | FontData
    | IconStyleConfig | LabelStyleConfig | StatusTrigger | TriggerConfig | TriggerData
    | TriggerOptions | VisibilityConfig | XIVAurasConfig

  /** A CLR type: a plugin class, `uint`, a one-dimensional array type, or any other type. */
  datatype ClrType =
    | ConfigClassType(kind: ConfigClass)
    | UInt32Type
    | ArrayType(element: ClrType)
    | OtherType(id: nat)

  /** What reflection reports of a type: Type.FullName and Type.Assembly.FullName, either possibly null. */
  datatype Reflection = Reflection(
    fullName: ClrType -> Option<string>,
    assemblyName: ClrType -> Option<string>)

  /** `_configTypes`, in its declared order. */
  const ConfigTypes: seq<ClrType> := [
    ConfigClassType(AuraBar), ConfigClassType(AuraGroup), ConfigClassType(AuraIcon),
    ConfigClassType(AuraLabel), ConfigClassType(AuraListItem), ConfigClassType(AuraListConfig),
    ConfigClassType(BarStyleConfig), ConfigClassType(CooldownTrigger), ConfigClassType(ConfigColor),
    ConfigClassType(FontConfig), ConfigClassType(FontData), ConfigClassType(IconStyleConfig),
    ConfigClassType(LabelStyleConfig), ConfigClassType(StatusTrigger), ConfigClassType(TriggerConfig),
    ConfigClassType(TriggerData), ConfigClassType(TriggerOptions), ConfigClassType(VisibilityConfig),
    ConfigClassType(XIVAurasConfig)
  ]

  /**
   * No type is listed twice and no two listed types share a non-null full name. Without this
   * the constructor's Dictionary.Add calls would throw; the CLR guarantees it for the types of
   * one assembly.
   */
  ghost predicate UniqueFullNames(types: seq<ClrType>, fullName: ClrType -> Option<string>) {
    forall i, j ::
      0 <= i < |types| && 0 <= j < |types| && fullName(types[i]).Some? && fullName(types[i]) == fullName(types[j])
      ==> i == j
  }

  /** The two dictionaries of the binder. */
  datatype Registry = Registry(typeToName: map<ClrType, string>, nameToType: map<string, ClrType>)

  /** The dictionaries after the constructor's loop has visited `types`, in order. */
  ghost function Register(types: seq<ClrType>, fullName: ClrType -> Option<string>): Registry
    decreases |types|
  {
    if types == [] then Registry(map[], map[])
    else
      var reg := Register(types[..|types| - 1], fullName);
      var t := types[|types| - 1];
      match fullName(t)
      case None => reg
      case Some(n) => Registry(reg.typeToName[t := n], reg.nameToType[n := t])
  }

  /** The dictionaries are the name function restricted to the listed types, and each other's inverse. */
  ghost predicate RegistryInverse(reg: Registry, types: seq<ClrType>, fullName: ClrType -> Option<string>) {
    && (forall t :: t in reg.typeToName <==> t in types && fullName(t).Some?)
    && (forall t :: t in reg.typeToName ==> fullName(t) == Some(reg.typeToName[t]))
    && (forall t :: t in reg.typeToName ==>
          reg.typeToName[t] in reg.nameToType && reg.nameToType[reg.typeToName[t]] == t)
    && (forall n :: n in reg.nameToType ==>
          reg.nameToType[n] in reg.typeToName && reg.typeToName[reg.nameToType[n]] == n)
  }

  lemma UniqueFullNamesPrefix(types: seq<ClrType>, fullName: ClrType -> Option<string>, k: nat)
    requires k <= |types| && UniqueFullNames(types, fullName)
    ensures UniqueFullNames(types[..k], fullName)
  {
    forall i, j | 0 <= i < k && 0 <= j < k && fullName(types[..k][i]).Some? &&
      fullName(types[..k][i]) == fullName(types[..k][j])
      ensures i == j
    {
      assert types[..k][i] == types[i] && types[..k][j] == types[j];
    }
  }

  /**
   * When the loop reaches a type with a full name, neither the type nor its name is a key
   * yet, so neither Dictionary.Add throws.
   */
  lemma RegisterAddsFreshKeys(types: seq<ClrType>, fullName: ClrType -> Option<string>)
    requires |types| > 0 && UniqueFullNames(types, fullName)
    requires fullName(types[|types| - 1]).Some?
    ensures var reg := Register(types[..|types| - 1], fullName);
      types[|types| - 1] !in reg.typeToName && fullName(types[|types| - 1]).value !in reg.nameToType
    decreases |types|, 0
  {
    var last := |types| - 1;
    var prefix := types[..last];
    var t := types[last];
    var reg := Register(prefix, fullName);
    UniqueFullNamesPrefix(types, fullName, last);
    RegisterIsInverse(prefix, fullName);
    forall i | 0 <= i < last ensures fullName(prefix[i]) != fullName(t) && prefix[i] != t {
      assert prefix[i] == types[i];
    }
    assert t !in prefix;
    assert fullName(t).value !in reg.nameToType by {
      forall n | n in reg.nameToType ensures n != fullName(t).value {
        var u := reg.nameToType[n];
        assert u in prefix && fullName(u) == Some(n);
      }
    }
  }

  /** The constructor builds two dictionaries that agree with the full names and invert each other. */
  lemma {:induction false} RegisterIsInverse(types: seq<ClrType>, fullName: ClrType -> Option<string>)
    requires UniqueFullNames(types, fullName)
    ensures RegistryInverse(Register(types, fullName), types, fullName)
    decreases |types|, 1
  {
    if types != [] {
      var last := |types| - 1;
      var prefix := types[..last];
      var t := types[last];
      UniqueFullNamesPrefix(types, fullName, last);
      RegisterIsInverse(prefix, fullName);
      assert types == prefix + [t];
      if fullName(t).Some? {
        RegisterAddsFreshKeys(types, fullName);
      }
    }
  }

  /** The loader of Type.GetType(name, throwOnError: true): it gives the type, or throws. */
  datatype TypeLoadError = TypeLoadError(qualifiedName: string)

  /** The string BindToType hands to the loader: "{typeName}, {assemblyName}", null parts rendered empty. */
  function AssemblyQualifiedName(typeName: Option<string>, assemblyName: Option<string>): string {
    typeName.GetOr("") + ", " + assemblyName.GetOr("")
  }

  /** Type.GetType with throwOnError set: `None` from the loader means it throws. */
  function LoadType(loader: string -> Option<ClrType>, qualifiedName: string): Result<ClrType, TypeLoadError> {
    match loader(qualifiedName)
    case Some(t) => Success(t)
    case None => Failure(TypeLoadError(qualifiedName))
  }

  /** The names BindToName reports: `assemblyName` and `typeName`. */
  datatype TypeBinding = TypeBinding(assemblyName: Option<string>, typeName: Option<string>)

  /**
   * XIVAurasSerializationBinder: maps the listed plugin types to their full names without an
   * assembly name, so that saved documents do not depend on the assembly that wrote them.
   */
  class XIVAurasSerializationBinder {
    const reflection: Reflection
    var typeToName: map<ClrType, string>
    var nameToType: map<string, ClrType>

    ghost predicate Valid()
      reads this
    {
      && UniqueFullNames(ConfigTypes, reflection.fullName)
      && Registry(typeToName, nameToType) == Register(ConfigTypes, reflection.fullName)
    }

    /** A type the binder knows: listed in `_configTypes` and with a non-null full name. */
    predicate IsRegistered(t: ClrType) {
      t in ConfigTypes && reflection.fullName(t).Some?
    }

    /** The full name of some registered type. */
    ghost predicate IsRegisteredName(n: Option<string>) {
      exists t :: IsRegistered(t) && reflection.fullName(t) == n
    }

    /** The constructor: one pass over `_configTypes`, adding each named type to both dictionaries. */
    constructor (reflection: Reflection)
      requires UniqueFullNames(ConfigTypes, reflection.fullName)
      ensures Valid() && this.reflection == reflection
      ensures RegistryInverse(Registry(typeToName, nameToType), ConfigTypes, reflection.fullName)
    {
      this.reflection := reflection;
      typeToName := map[];
      nameToType := map[];
      new;
      var i := 0;
      while i < |ConfigTypes|
        invariant 0 <= i <= |ConfigTypes|
        invariant Registry(typeToName, nameToType) == Register(ConfigTypes[..i], reflection.fullName)
      {
        var t := ConfigTypes[i];
        assert ConfigTypes[..i + 1][..i] == ConfigTypes[..i];
        match reflection.fullName(t) {
          case Some(n) =>
            UniqueFullNamesPrefix(ConfigTypes, reflection.fullName, i + 1);
            RegisterAddsFreshKeys(ConfigTypes[..i + 1], reflection.fullName);
            assert t !in typeToName && n !in nameToType;  // neither Dictionary.Add throws
            typeToName := typeToName[t := n];
            nameToType := nameToType[n := t];
          case None =>
        }
        i := i + 1;
      }
      assert ConfigTypes[..i] == ConfigTypes;
      RegisterIsInverse(ConfigTypes, reflection.fullName);
    }

    /**
     * BindToName: a registered type is written under its full name with no assembly name;
     * any other type under its own assembly and full name.
     */
    function BindToName(t: ClrType): (r: TypeBinding)
      reads this
      requires Valid()
      ensures IsRegistered(t) ==> r.assemblyName == None && r.typeName == reflection.fullName(t)
      ensures !IsRegistered(t) ==>
        r.assemblyName == reflection.assemblyName(t) && r.typeName == reflection.fullName(t)
    {
      RegisterIsInverse(ConfigTypes, reflection.fullName);
      if t in typeToName then TypeBinding(None, Some(typeToName[t]))
      else TypeBinding(reflection.assemblyName(t), reflection.fullName(t))
    }

    /**
     * BindToType: a registered full name resolves to its type whatever the assembly name;
     * any other name goes to the loader, whose failure is the result (no substitution).
     */
    function BindToType(assemblyName: Option<string>, typeName: Option<string>,
                        loader: string -> Option<ClrType>): (r: Result<ClrType, TypeLoadError>)
      reads this
      requires Valid()
      ensures forall t :: IsRegistered(t) && reflection.fullName(t) == typeName ==> r == Success(t)
      ensures !IsRegisteredName(typeName) ==>
        r == LoadType(loader, AssemblyQualifiedName(typeName, assemblyName))
    {
      RegisterIsInverse(ConfigTypes, reflection.fullName);
      if typeName.Some? && typeName.value in nameToType then Success(nameToType[typeName.value])
      else LoadType(loader, AssemblyQualifiedName(typeName, assemblyName))
    }

    /** Writing a registered type's name and reading it back gives the type, for every assembly name. */
    lemma BindRoundTrip(t: ClrType, anyAssembly: Option<string>, loader: string -> Option<ClrType>)
      requires Valid() && IsRegistered(t)
      ensures BindToType(anyAssembly, BindToName(t).typeName, loader) == Success(t)
    {
    }

    /**
     * A name outside the registry that the loader cannot resolve fails: it is never replaced by
     * a registered type.
     */
    lemma UnknownNameFailsClosed(assemblyName: Option<string>, typeName: Option<string>,
                                 loader: string -> Option<ClrType>)
      requires Valid() && !IsRegisteredName(typeName)
      requires loader(AssemblyQualifiedName(typeName, assemblyName)).None?
      ensures BindToType(assemblyName, typeName, loader).Failure?
    {
    }
  }

  // ---------------------------------------------------------------------------------------
  // The read-only JSON converters
  // ---------------------------------------------------------------------------------------

  /** The JSON token the reader stands on when ReadJson is called. */
  datatype JsonToken =
    | IntegerToken | FloatToken | StringToken | BooleanToken | NullToken
    | StartArrayToken | StartObjectToken

  /**
   * What the inner serializer.Deserialize(reader, typeof(T)) followed by the cast to `T?` did:
   * threw, gave null, or gave a value with its runtime type.
   */
  datatype ScalarRead<V> = ReadThrew | ReadNull | ReadValue(value: V, runtimeType: ClrType)

  /**
   * What ReadJson returns: `Delegated` is serializer.Deserialize(reader, objectType), the
   * standard deserialization (whose exceptions are not caught); `Converted` an array built here.
   */
  datatype ConverterResult<V> = Delegated | Converted(items: seq<V>)

  /**
   * ComboIdConverter.ReadJson: a legacy integer read into a `uint[]` becomes the combo ids
   * of that action (SpellHelpers.GetComboIds, `None` where it throws); any failure gives an
   * empty array; every other token or target type goes to the standard deserialization.
   */
  function ComboIdReadJson(objectType: ClrType, token: JsonToken, read: ScalarRead<uint32>,
                           getComboIds: uint32 -> Option<seq<uint32>>): (r: ConverterResult<uint32>)
    ensures r.Delegated? <==> objectType != ArrayType(UInt32Type) || token != IntegerToken
    ensures r.Converted? && r.items != [] ==>
      read.ReadValue? && read.runtimeType == UInt32Type && getComboIds(read.value) == Some(r.items)
    ensures r.Converted? && read.ReadValue? && read.runtimeType == UInt32Type && getComboIds(read.value).Some?
      ==> r.items == getComboIds(read.value).value
  {
    if objectType != ArrayType(UInt32Type) || token != IntegerToken then Delegated
    else
      match read
      case ReadValue(v, runtimeType) =>
        if runtimeType != UInt32Type then Converted([])  // the cast to uint? throws
        else (
          match getComboIds(v)
          case Some(ids) => Converted(ids)
          case None => Converted([]))
      case _ => Converted([])
  }

  /**
   * ArrayConvertor<T>.ReadJson, as written: into a `T[]` target it reads a single `T` and
   * wraps it; a null, a value of another runtime type or an exception gives an empty array;
   * every other target type goes to the standard deserialization.
   */
  function ArrayReadJson<V>(elementType: ClrType, objectType: ClrType, read: ScalarRead<V>): (r: ConverterResult<V>)
    ensures r.Delegated? <==> objectType != ArrayType(elementType)
    ensures r.Converted? ==> |r.items| <= 1
    ensures r.Converted? && |r.items| == 1 <==>
      objectType == ArrayType(elementType) && read.ReadValue? && read.runtimeType == elementType
    ensures r.Converted? && |r.items| == 1 ==> r.items[0] == read.value
  {
    if objectType != ArrayType(elementType) then Delegated
    else
      match read
      case ReadValue(v, runtimeType) => if runtimeType == elementType then Converted([v]) else Converted([])
      case _ => Converted([])
  }

  /**
   * As written, ArrayConvertor<T> does not look at the token: a value already stored in the
   * array shape is read as a single `T`, the deserializer rejects an array token for a scalar
   * type, and the converter returns an empty array in place of the stored elements.
   */
  lemma ArrayConvertorDropsArrays<V>(elementType: ClrType)
    ensures ArrayReadJson<V>(elementType, ArrayType(elementType), ReadThrew) == Converted([])
  {
  }

  /**
   * ArrayConvertor<T>.ReadJson with the token check ComboIdConverter has: an array token goes
   * to the standard array deserialization, and only the legacy scalar shape is widened.
   */
  function ArrayReadJsonChecked<V>(elementType: ClrType, objectType: ClrType, token: JsonToken,
                                   read: ScalarRead<V>): (r: ConverterResult<V>)
    ensures token == StartArrayToken ==> r == Delegated
    ensures token != StartArrayToken ==> r == ArrayReadJson(elementType, objectType, read)
  {
    if objectType != ArrayType(elementType) || token == StartArrayToken then Delegated
    else ArrayReadJson(elementType, objectType, read)
  }

  /**
   * The value stored in array form, at an array token whose scalar read throws: as written the
   * converter empties it, the corrected one hands it to the standard array deserialization.
   */
  lemma ArrayTokenDelegatedOnlyWhenChecked<V>(elementType: ClrType)
    ensures ArrayReadJson<V>(elementType, ArrayType(elementType), ReadThrew) == Converted([])
    ensures ArrayReadJsonChecked<V>(elementType, ArrayType(elementType), StartArrayToken, ReadThrew) == Delegated
  {
  }

  // ---------------------------------------------------------------------------------------
  // Export and import strings
  // ---------------------------------------------------------------------------------------

  /** What JsonConvert.DeserializeObject<T> did: threw, produced null, or produced a value. */
  datatype Parsed<T> = ParseThrew | ParsedNull | ParsedValue(value: T)

  /**
   * The library stages of the pipeline, none of them modelled inside; `None` where the call
   * throws. `deflate` is the UTF-8 StreamWriter over a DeflateStream, `inflate` its reverse.
   */
  datatype Codec<!T> = Codec(
    serialize: T -> Option<string>,
    deserialize: string -> Parsed<T>,
    deflate: string -> Option<seq<byte>>,
    inflate: seq<byte> -> Option<string>,
    toBase64: seq<byte> -> string,
    fromBase64: string -> Option<seq<byte>>)

  /**
   * What the round trip assumes of the stages: each decoder inverts its encoder, a Deflate
   * stream is never empty, and Base64 of a non-empty array is a non-empty string.
   */
  ghost predicate CodecLaws<T(!new)>(c: Codec<T>) {
    && (forall x :: c.serialize(x).Some? ==> c.deserialize(c.serialize(x).value) == ParsedValue(x))
    && (forall j :: c.deflate(j).Some? ==> |c.deflate(j).value| > 0 && c.inflate(c.deflate(j).value) == Some(j))
    && (forall b :: c.fromBase64(c.toBase64(b)) == Some(b))
    && (forall b :: |b| > 0 ==> |c.toBase64(b)| > 0)
  }

  /** GetExportString: JSON, then Deflate, then Base64; null (`None`) when a stage throws. */
  function GetExportString<T>(c: Codec<T>, toExport: T): (r: Option<string>)
    ensures r.Some? <==> c.serialize(toExport).Some? && c.deflate(c.serialize(toExport).value).Some?
    ensures r.Some? ==> r.value == c.toBase64(c.deflate(c.serialize(toExport).value).value)
  {
    match c.serialize(toExport)
    case None => None
    case Some(json) =>
      match c.deflate(json)
      case None => None
      case Some(bytes) => Some(c.toBase64(bytes))
  }

  /**
   * GetFromImportString: the default (`None`) for an empty string, without running any
   * stage; otherwise Base64, then inflate, then JSON, and the default when any stage throws
   * or the document is null.
   */
  function GetFromImportString<T>(c: Codec<T>, importString: string): (r: Option<T>)
    ensures importString == "" ==> r == None
    ensures c.fromBase64(importString).None? ==> r == None
    ensures r.Some? ==>
      && importString != ""
      && c.fromBase64(importString).Some?
      && c.inflate(c.fromBase64(importString).value).Some?
      && c.deserialize(c.inflate(c.fromBase64(importString).value).value) == ParsedValue(r.value)
    ensures (importString != "" && c.fromBase64(importString).Some?
             && c.inflate(c.fromBase64(importString).value).Some?
             && c.deserialize(c.inflate(c.fromBase64(importString).value).value).ParsedValue?) ==>
      r == Some(c.deserialize(c.inflate(c.fromBase64(importString).value).value).value)
  {
    if importString == "" then None
    else
      match c.fromBase64(importString)
      case None => None
      case Some(bytes) =>
        match c.inflate(bytes)
        case None => None
        case Some(json) =>
          match c.deserialize(json)
          case ParsedValue(v) => Some(v)
          case _ => None
  }

  /** Importing an exported string gives back the exported value: import undoes export stage by stage. */
  lemma ExportImportRoundTrip<T(!new)>(c: Codec<T>, x: T)
    requires CodecLaws(c)
    requires GetExportString(c, x).Some?
    ensures GetFromImportString(c, GetExportString(c, x).value) == Some(x)
  {
    var json := c.serialize(x).value;
    var bytes := c.deflate(json).value;
    assert |bytes| > 0;
    assert c.fromBase64(c.toBase64(bytes)) == Some(bytes);
  }

  // ---------------------------------------------------------------------------------------
  // Loading the config file
  // ---------------------------------------------------------------------------------------

  /**
   * The file system as the loader sees it: the text of each file, the paths whose reading
   * throws, and the paths where no file may be created.
   */
  datatype FileSystem = FileSystem(files: map<string, string>, unreadable: set<string>, unwritable: set<string>)

  /**
   * File.Copy(source, destination) without overwrite; `None` where it throws: the source is
   * missing, the destination exists, or no file may be created there. A file whose text
   * ReadAllText cannot read may still be copied.
   */
  function CopyFile(fs: FileSystem, source: string, destination: string): Option<FileSystem> {
    if source in fs.files && destination !in fs.files && destination !in fs.unwritable
    then Some(fs.(files := fs.files[destination := fs.files[source]]))
    else None
  }

  /** `$"{path}.bak"`. */
  function BackupPath(path: string): string {
    path + ".bak"
  }

  /** The config LoadConfig returns and the file system it leaves. */
  datatype Loaded<C> = Loaded(config: C, fs: FileSystem)

  /** Reading the existing file, or deserializing its text, throws: the catch arm runs. */
  predicate LoadThrows<C>(fs: FileSystem, path: string, deserialize: string -> Parsed<C>) {
    path in fs.files && (path in fs.unreadable || deserialize(fs.files[path]).ParseThrew?)
  }

  /**
   * LoadConfig: the deserialized config, or a fresh one (`freshConfig` is `new XIVAurasConfig()`)
   * when the file is missing, holds null or cannot be read. When reading or deserializing
   * throws, the file is copied to `path + ".bak"` if that copy succeeds; a failed copy is
   * swallowed. No existing file is ever changed.
   */
  function LoadConfig<C>(fs: FileSystem, path: string, deserialize: string -> Parsed<C>, freshConfig: C): (r: Loaded<C>)
    ensures r.config == freshConfig ||
      (path in fs.files && path !in fs.unreadable && deserialize(fs.files[path]) == ParsedValue(r.config))
    ensures path in fs.files && path !in fs.unreadable && deserialize(fs.files[path]).ParsedValue? ==>
      r == Loaded(deserialize(fs.files[path]).value, fs)
    ensures !LoadThrows(fs, path, deserialize) ==> r.fs == fs
    ensures LoadThrows(fs, path, deserialize) ==> r.config == freshConfig
    ensures r.fs.unreadable == fs.unreadable && r.fs.unwritable == fs.unwritable
    ensures forall p :: p in fs.files ==> p in r.fs.files && r.fs.files[p] == fs.files[p]
    ensures forall p :: p in r.fs.files && p !in fs.files ==>
      p == BackupPath(path) && LoadThrows(fs, path, deserialize) && r.fs.files[p] == fs.files[path]
    ensures LoadThrows(fs, path, deserialize) && BackupPath(path) !in fs.files && BackupPath(path) !in fs.unwritable ==>
      r.fs == fs.(files := fs.files[BackupPath(path) := fs.files[path]])
    ensures LoadThrows(fs, path, deserialize) && (BackupPath(path) in fs.files || BackupPath(path) in fs.unwritable) ==>
      r.fs == fs
  {
    if path !in fs.files then Loaded(freshConfig, fs)
    else if path in fs.unreadable then Loaded(freshConfig, BackUp(fs, path))
    else
      match deserialize(fs.files[path])
      case ParsedValue(config) => Loaded(config, fs)
      case ParsedNull => Loaded(freshConfig, fs)
      case ParseThrew => Loaded(freshConfig, BackUp(fs, path))
  }

  /** The catch arm: copy the file aside when it exists and the copy works, else leave everything. */
  function BackUp(fs: FileSystem, path: string): FileSystem {
    if path in fs.files then CopyFile(fs, path, BackupPath(path)).GetOr(fs) else fs
  }

  /** A config file that does not deserialize gives a freshConfig config and a backup holding its text. */
  lemma CorruptFileRecovery<C>(fs: FileSystem, path: string, deserialize: string -> Parsed<C>, freshConfig: C)
    requires path in fs.files && path !in fs.unreadable
    requires deserialize(fs.files[path]) == ParseThrew
    requires BackupPath(path) !in fs.files && BackupPath(path) !in fs.unwritable
    ensures LoadConfig(fs, path, deserialize, freshConfig) ==
      Loaded(freshConfig, fs.(files := fs.files[BackupPath(path) := fs.files[path]]))
  {
  }

  /** A file whose text cannot be read gives a fresh config, and it is still copied to the backup. */
  lemma UnreadableFileRecovery<C>(fs: FileSystem, path: string, deserialize: string -> Parsed<C>, freshConfig: C)
    requires path in fs.files && path in fs.unreadable
    requires BackupPath(path) !in fs.files && BackupPath(path) !in fs.unwritable
    ensures LoadConfig(fs, path, deserialize, freshConfig) ==
      Loaded(freshConfig, fs.(files := fs.files[BackupPath(path) := fs.files[path]]))
  {
  }

  /** A backup copy that throws (the backup exists, or cannot be created) is swallowed: nothing on disk changes. */
  lemma FailedBackupChangesNothing<C>(fs: FileSystem, path: string, deserialize: string -> Parsed<C>, freshConfig: C)
    requires LoadThrows(fs, path, deserialize)
    requires BackupPath(path) in fs.files || BackupPath(path) in fs.unwritable
    ensures LoadConfig(fs, path, deserialize, freshConfig) == Loaded(freshConfig, fs)
  {
  }

  /**
   * Loading again leaves the file system as the first load left it: a backup, once made, is
   * never replaced by a later failing load.
   */
  lemma {:induction false} LoadConfigFileEffectIdempotent<C>(fs: FileSystem, path: string,
                                                             deserialize: string -> Parsed<C>, freshConfig: C)
    ensures var once := LoadConfig(fs, path, deserialize, freshConfig);
      LoadConfig(once.fs, path, deserialize, freshConfig) == once
  {
    var once := LoadConfig(fs, path, deserialize, freshConfig);
    assert BackupPath(path) != path by {
      assert |BackupPath(path)| == |path| + 4;
    }
    if LoadThrows(fs, path, deserialize) && once.fs != fs {
      assert BackupPath(path) in once.fs.files;
      assert once.fs.files[path] == fs.files[path];
    }
  }
}
