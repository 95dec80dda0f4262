/** The plugin object `cocosRollupHelper` returns (src/index.ts:47-210):
    its options, the state its closure keeps between hooks, and the hooks
    `config`, `configResolved`, `generateBundle` and `writeBundle`. */
module Plugin {
  import opened Wrappers
  import opened Json
  import opened Paths
  import opened Descriptor
  import opened Emit

  /** `build.manifest` of the user's Vite configuration: absent, a boolean,
      or the name of the manifest file. */
  datatype ManifestSetting = Unset | Flag(on: bool) | Named(fileName: string)

  /** JavaScript truthiness of a manifest setting. */
  predicate Truthy(m: ManifestSetting) {
    match m
    case Unset => false
    case Flag(on) => on
    case Named(fileName) => fileName != ""
  }

  /** The manifest setting the build runs with after `config`
      (src/index.ts:61-67): a falsy setting is forced to `true`, a truthy one
      is kept, so the bundler always writes a manifest. */
  function ForcedManifest(origin: ManifestSetting): (m: ManifestSetting)
    ensures Truthy(m)
    ensures m == origin <==> Truthy(origin)
    ensures !Truthy(origin) ==> m == Flag(true)
  {
    if Truthy(origin) then origin else Flag(true)
  }

  /** `config.build`, which `config` updates in place. */
  class BuildOptions {
    var manifest: ManifestSetting
    var outDir: Option<string>

    constructor(manifest: ManifestSetting, outDir: Option<string>)
      ensures this.manifest == manifest && this.outDir == outDir
    {
      this.manifest := manifest;
      this.outDir := outDir;
    }
  }

  /** The user's Vite configuration, of which only `build` is modelled. */
  class UserConfig {
    var build: BuildOptions?

    constructor(build: BuildOptions?)
      ensures this.build == build
    {
      this.build := build;
    }
  }

  datatype PathOptions = PathOptions(packagePath: string, i18nPath: string, staticPath: string)
  datatype ZipOptions = ZipOptions(fileName: Option<string>)
  datatype HelperOptions = HelperOptions(path: PathOptions, zip: Option<ZipOptions>)

  /** `defaultOptions` (src/index.ts:26-32): no archive unless `zip` is given. */
  const DefaultOptions := HelperOptions(PathOptions("package.json", "i18n", "static"), None)

  /** `generateBundle` (src/index.ts:75-142): the i18n assets, then the static
      ones, then `package.json` with the descriptor's text as read. A failure
      of the i18n step stops the hook before the static step runs. */
  function GenerateBundle(options: HelperOptions,
                          i18n: Option<seq<SourceFile<string>>>,
                          staticDirName: string, staticListing: Listing<seq<byte>>,
                          packageFile: Option<Source>): (r: Result<seq<Asset>>)
    ensures EmitI18n(options.path.i18nPath, i18n).Failure? ==> r == EmitI18n(options.path.i18nPath, i18n)
    ensures r.Success? <==> EmitI18n(options.path.i18nPath, i18n).Success?
                            && EmitStatic(staticDirName, staticListing).Success? && packageFile.Some?
    ensures r.Success? ==> r.value != [] && r.value[|r.value| - 1] == Asset("package.json", packageFile.value)
    ensures r.Success? ==> |r.value| == |EmitI18n(options.path.i18nPath, i18n).value|
                                        + |EmitStatic(staticDirName, staticListing).value| + 1
    ensures r.Success? ==> forall a :: a in r.value <==>
              || a == Asset("package.json", packageFile.value)
              || a in EmitI18n(options.path.i18nPath, i18n).value
              || a in EmitStatic(staticDirName, staticListing).value
  {
    match EmitI18n(options.path.i18nPath, i18n)
    case Failure(e) => Failure(e)
    case Success(i18nAssets) =>
      match EmitStatic(staticDirName, staticListing)
      case Failure(e) => Failure(e)
      case Success(staticAssets) =>
        match packageFile
        case None => Failure(ReadFailure(options.path.packagePath))
        case Some(source) =>
          var descriptor := Asset("package.json", source);
          AppendedLast(i18nAssets, staticAssets, descriptor);
          Success(i18nAssets + staticAssets + [descriptor])
  }

  /** `x + y + [e]` ends with `e`, has one element more than `x` and `y`
      together, and holds exactly the elements of `x`, of `y` and `e`. */
  lemma AppendedLast<T>(x: seq<T>, y: seq<T>, e: T)
    ensures var s := x + y + [e];
            && s != [] && s[|s| - 1] == e && |s| == |x| + |y| + 1
            && forall a :: a in s <==> a in x || a in y || a == e
  {
  }

  /** Without a static directory, and with an empty localization tree, the
      hook emits `package.json` alone. */
  lemma EmptyTreesEmitOnlyPackage(options: HelperOptions, staticDirName: string, source: Source)
    ensures GenerateBundle(options, Some([]), staticDirName, Missing, Some(source))
            == Success([Asset("package.json", source)])
  {
    assert EmitI18n(options.path.i18nPath, Some([])) == Success([]);
    assert [] + [] + [Asset("package.json", source)] == [Asset("package.json", source)];
  }

  /** Without a static directory, every asset is a localization module under
      `i18n/` or the descriptor. */
  lemma {:induction false} NoStaticDirectoryNoStaticAssets(options: HelperOptions,
      i18n: Option<seq<SourceFile<string>>>, staticDirName: string, packageFile: Option<Source>)
    requires GenerateBundle(options, i18n, staticDirName, Missing, packageFile).Success?
    ensures forall a :: a in GenerateBundle(options, i18n, staticDirName, Missing, packageFile).value ==>
              a.fileName == "package.json" || (|a.fileName| >= 5 && a.fileName[..5] == "i18n/")
  {
    var assets := GenerateBundle(options, i18n, staticDirName, Missing, packageFile).value;
    var i18nAssets := EmitI18n(options.path.i18nPath, i18n).value;
    assert EmitStatic(staticDirName, Missing).value == [];
    forall a | a in assets
      ensures a.fileName == "package.json" || (|a.fileName| >= 5 && a.fileName[..5] == "i18n/")
    {
      if a in i18nAssets {
        var i :| 0 <= i < |i18nAssets| && i18nAssets[i] == a;
        assert I18nAssetOf(i18n.value[i], a);
        I18nAssetNameInDirectory(i18n.value[i].path);
      } else {
        assert a == Asset("package.json", packageFile.value);
      }
    }
  }

  /** The output directory as `writeBundle` finds it: every file of the
      bundle, by its name relative to the directory. */
  class OutputDir {
    var files: map<string, Source>

    constructor(files: map<string, Source>)
      ensures this.files == files
    {
      this.files := files;
    }
  }

  /** Reading and rewriting the descriptor (src/index.ts:146-169): the
      original descriptor and its rewritten form, or the reason the hook
      throws first (a missing entry, text that does not parse, a manifest
      value that is not an entry). */
  function PrepareRewrite(files: map<string, Source>): (r: Result<(Json, Json)>)
    ensures r.Success? <==>
              && "package.json" in files && files["package.json"].Document?
              && "manifest.json" in files && files["manifest.json"].Document?
              && ManifestEntries(files["manifest.json"].doc).Some?
    ensures "package.json" !in files ==> r == Failure(MissingArtifact("package.json"))
    ensures r.Success? ==> r.value.0 == files["package.json"].doc
    ensures r.Success? ==> SameShape(r.value.0, r.value.1)
    ensures r.Success? ==> r.value.1 == Rewrite(ManifestEntries(files["manifest.json"].doc).value, r.value.0)
    ensures r.Success? && ManifestEntries(files["manifest.json"].doc) == Some([]) ==> r.value.1 == r.value.0
  {
    if "package.json" !in files then Failure(MissingArtifact("package.json"))
    else if !files["package.json"].Document? then Failure(NotJson("package.json"))
    else if "manifest.json" !in files then Failure(MissingArtifact("manifest.json"))
    else if !files["manifest.json"].Document? then Failure(NotJson("manifest.json"))
    else match ManifestEntries(files["manifest.json"].doc)
      case None => Failure(MalformedManifest)
      case Some(entries) =>
        var doc := files["package.json"].doc;
        RewriteEmptyManifest(doc);
        Success((doc, Rewrite(entries, doc)))
  }

  /** The output directory after the rewrite (src/index.ts:156-178):
      `package.json` holds the rewritten descriptor, `manifest.json` is gone
      exactly when the original manifest setting was falsy, and every other
      file is as it was. */
  function Written(files: map<string, Source>, rewritten: Json, origin: ManifestSetting): (w: map<string, Source>)
    requires "manifest.json" in files
    ensures "package.json" in w && w["package.json"] == Document(rewritten)
    ensures "manifest.json" in w <==> Truthy(origin)
    ensures Truthy(origin) ==> w["manifest.json"] == files["manifest.json"]
    ensures forall k :: k != "package.json" && k != "manifest.json" ==>
              (k in w <==> k in files) && (k in files ==> w[k] == files[k])
  {
    var updated := files["package.json" := Document(rewritten)];
    if Truthy(origin) then updated else updated - {"manifest.json"}
  }

  /** The archive `writeBundle` asks for (src/index.ts:179-182): none without
      a `zip` option; a non-empty `zip.fileName` as given; otherwise the last
      segment of the descriptor's `name` plus `.zip`, which throws when
      `name` is not a string. */
  function ArchiveName(zip: Option<ZipOptions>, descriptor: Json): (r: Result<Option<string>>)
    ensures zip.None? <==> r == Success(None)
    ensures zip.Some? && zip.value.fileName.Some? && zip.value.fileName.value != "" ==>
              r == Success(zip.value.fileName)
    ensures zip.Some? && (zip.value.fileName.None? || zip.value.fileName.value == "") ==>
              && (r.Success? <==> Lookup(descriptor, "name").Some? && Lookup(descriptor, "name").value.JString?)
              && (r.Success? ==> r.value == Some(DefaultArchiveName(Lookup(descriptor, "name").value.s)))
  {
    match zip
    case None => Success(None)
    case Some(z) =>
      if z.fileName.Some? && z.fileName.value != "" then Success(z.fileName)
      else match Lookup(descriptor, "name")
        case Some(JString(name)) => Success(Some(DefaultArchiveName(name)))
        case _ => Failure(MissingName)
  }

  /** The plugin instance: its options and the two variables of its closure. */
  class CocosHelper {
    const options: HelperOptions
    var root: Option<string>              // `configResolved`, kept for its `root`
    var originManifest: ManifestSetting   // `build.manifest` as the user set it

    constructor(options: HelperOptions)
      ensures this.options == options && root == None && originManifest == Flag(false)
    {
      this.options := options;
      root := None;
      originManifest := Flag(false);
    }

    /** `config` (src/index.ts:60-69): remembers the user's manifest setting
        and forces a falsy one to `true`, in the `build` object itself when
        there is one. */
    method Config(config: UserConfig) returns (r: UserConfig)
      modifies this`originManifest, config, config.build
      ensures r == config
      ensures originManifest == old(if config.build == null then Unset else config.build.manifest)
      ensures config.build != null && config.build.manifest == ForcedManifest(originManifest)
      ensures old(config.build) != null ==> config.build == old(config.build)
                                            && config.build.outDir == old(config.build.outDir)
      ensures old(config.build) == null ==> fresh(config.build) && config.build.outDir == None
    {
      originManifest := if config.build == null then Unset else config.build.manifest;
      if !Truthy(originManifest) {
        if config.build == null {
          config.build := new BuildOptions(Flag(true), None);
        } else {
          config.build.manifest := Flag(true);
        }
      }
      r := config;
    }

    /** `configResolved` (src/index.ts:71-73). */
    method ConfigResolved(resolvedRoot: string)
      modifies this`root
      ensures root == Some(resolvedRoot)
    {
      root := Some(resolvedRoot);
    }

    /** `writeBundle` (src/index.ts:144-208): rewrites `package.json`,
        removes `manifest.json` when the user had not asked for it, and
        returns the name of the archive to write, if any. A failure before
        the rewrite leaves the directory alone; a failure to name the
        archive comes after the rewrite and the removal, which stay. */
    method WriteBundle(out: OutputDir) returns (r: Result<Option<string>>)
      modifies out
      ensures PrepareRewrite(old(out.files)).Failure? ==>
                r == Failure(PrepareRewrite(old(out.files)).error) && out.files == old(out.files)
      ensures PrepareRewrite(old(out.files)).Success? ==>
                && out.files == Written(old(out.files), PrepareRewrite(old(out.files)).value.1, originManifest)
                && r == ArchiveName(options.zip, PrepareRewrite(old(out.files)).value.0)
    {
      var prepared := PrepareRewrite(out.files);
      if prepared.Failure? {
        return Failure(prepared.error);
      }
      var (descriptor, rewritten) := prepared.value;
      out.files := out.files["package.json" := Document(rewritten)];
      if !Truthy(originManifest) {
        out.files := out.files - {"manifest.json"};
      }
      r := ArchiveName(options.zip, descriptor);
    }
  }
}
