# vite-plugin-cocos-helper, modelled in Dafny

`vite-plugin-cocos-helper` is a Vite plugin. It packages a Cocos Creator
editor extension after the build. In `generateBundle` it emits every
localization file under the name `i18n/<stem>.js`. A file whose name ends
with `.json` is wrapped into a CommonJS module (`module.exports = ` in front
of its text); any other file's text is emitted unchanged under that `.js`
name. It also copies every static file into the output. It also emits the extension's `package.json`.
In `writeBundle` it rewrites each string of `package.json` that ends with a
source path from Vite's `manifest.json` to the built file's path. It then
deletes `manifest.json` if the user had not asked for one, and chooses the
name of the zip archive when a `zip` option is given.

The model is split into these modules:

- `Wrappers` (wrappers.dfy): `Option`, `Result`, and the `Error` cases a hook can reject with.
- `Text` (text.dfy): the JavaScript string operations the plugin uses, on
  `seq<char>`: `endsWith`, `indexOf` and `replace` with a string pattern.
- `Paths` (paths.dfy): `slash`, the last `/`-segment, the `/\.\w+$/`
  extension strip, and the i18n, static and archive file names.
- `Json` (json.dfy): the parsed JSON value, the property read, and the
  "same shape" relation.
- `Descriptor` (descriptor.dfy): manifest entries, the `find` of the first
  matching entry, the replacer on one string, and the replacer over the whole
  descriptor, with their lemmas.
- `Emit` (emit.dfy): the emission of the i18n and static trees, planned as a
  function from the listed files, and what reading each one returned, to the
  list of `(fileName, source)` assets.
- `Plugin` (plugin.dfy): the options, `generateBundle` as a plan, and the
  class `CocosHelper`. That class holds the closure's state (`configResolved`,
  `originManifest`) and the `config`, `configResolved` and `writeBundle`
  hooks. `config` updates the user's `build` object in place. `writeBundle`
  updates an `OutputDir` object whose `files` map stands for the output
  directory.

The model follows the code where it differs from the plugin's described
intent:

- A missing localization directory makes `generateBundle` reject, because
  the recursive listing rejects and nothing checks first. A missing static
  directory is checked and emits nothing, but a static path that exists and
  whose listing rejects (a regular file, say) makes the hook reject.
- Static files are flattened to their last segment under the static
  directory's name. Their relative subpath is not kept, so two files with the
  same name collide (`Paths.StaticAssetNameFlattens`).
- The replacer replaces the first occurrence of the matching `src`, which
  need not be the suffix that matched (`Descriptor.RewriteHitsFirstOccurrence`).
- Running the rewrite twice is not idempotent in general
  (`Descriptor.RewriteStringNotIdempotent`). It is idempotent under the two
  conditions stated in `Descriptor.RewriteIdempotent`.

## Model

| member | source | states |
|---|---|---|
| `Text.EndsWithCharwise` | src/index.ts:88 | `endsWith`: the suffix is no longer than the string, and the string's last characters are the suffix's, one by one and in order |
| `Text.IndexOf` | src/index.ts:162 | the result is an occurrence of the pattern with no earlier one; `None` means there is no occurrence at all |
| `Text.ReplaceFirst` | src/index.ts:162 | without an occurrence the string is unchanged; otherwise exactly the first occurrence is replaced and the rest is kept |
| `Paths.Slash` | src/index.ts:36-38 | same length, no backslash left, every backslash becomes `/`, every other character stays in place |
| `Paths.SlashIdempotent` | src/index.ts:36-38 | applying `slash` twice gives the same as applying it once |
| `Paths.LastSegment` | src/index.ts:94-96 | `split('/').pop()`: the segment has no `/`, ends the path, and is the whole path or follows a `/`; a path without `/` is its own segment |
| `Paths.LastSegmentUnique` | src/index.ts:122 | any suffix with those three properties is the last segment |
| `Paths.LastSegmentAfterSlash` | src/index.ts:122 | the last segment of `dir/seg` is `seg` when `seg` has no `/` |
| `Paths.WordRunStart` | src/index.ts:97 | the start of the maximal run of word characters that ends the string |
| `Paths.StripExtension` | src/index.ts:97 | the result is a prefix; where `/\.\w+$/` matches at `p` it is the text before `p`, and where it matches nowhere it is the whole string |
| `Paths.StripExtensionOfStem` | src/index.ts:97 | stripping `stem.ext`, with `ext` made of word characters, gives `stem` |
| `Paths.I18nAssetName` | src/index.ts:94-97 | the name is `i18n/` + stem + `.js`, where the stem has no `/` and is the last segment without its extension, or the whole segment when it has none |
| `Paths.I18nAssetNameInDirectory` | src/index.ts:94-97 | every localization asset name starts with `i18n/` and ends with `.js` |
| `Paths.I18nAssetNameOfFile` | src/index.ts:94-97 | `dir/stem.ext` is emitted as `i18n/stem.js`, whatever the directory |
| `Paths.StaticAssetName` | src/index.ts:122 | the name is the directory name, `/`, then a suffix of the file path with no `/` that is the whole path or follows a `/` |
| `Paths.StaticAssetNameFlattens` | src/index.ts:122 | a file `base` in any subdirectory is emitted as `dirName/base`, so subdirectories are lost |
| `Paths.DefaultArchiveName` | src/index.ts:180-182 | the name ends with `.zip` and its stem has no `/`, ends the package name, and is the whole name or follows a `/`, so it is the name's last segment |
| `Paths.DefaultArchiveNameOfPlainPackage` | src/index.ts:182 | an unscoped package `name` gives the archive `name.zip` |
| `Paths.DefaultArchiveNameOfScopedPackage` | src/index.ts:182 | package `scope/name` gives the archive `name.zip` |
| `Json.Lookup` | src/index.ts:182 | a property read: `None` for a value that is not an object and for an object without the key; otherwise the value of the last member with that key |
| `Json.LookupMember` | src/index.ts:182 | `None` exactly when no member has the key; otherwise the value of a member with that key after which no member repeats the key |
| `Descriptor.EntryOf` | src/index.ts:151-154 | a manifest value is an entry exactly when its `src` and `file` are strings, and the entry holds those two strings |
| `Descriptor.EntriesOf` | src/index.ts:151-154 | one entry per member, in order, each read from that member's value; `None` when some value is not an entry |
| `Descriptor.ManifestEntries` | src/index.ts:149-154 | `Object.values` of the manifest object, in order, each read as an entry; `None` for a non-object or a value without string `src` and `file` |
| `Descriptor.FindMatch` | src/index.ts:160 | the first entry, in manifest order, whose `src` ends the string; `None` when no entry's does |
| `Descriptor.RewriteString` | src/index.ts:159-164 | a string no `src` ends is unchanged; otherwise the first occurrence of the first matching entry's `src` becomes its `file` |
| `Descriptor.RewriteAt` | src/index.ts:162 | the same rewrite stated for one given match and its first occurrence |
| `Descriptor.RewriteSuffixOnly` | src/index.ts:159-164 | when the matching `src` occurs only as the suffix, the result is the untouched prefix followed by `file` |
| `Descriptor.RewriteHitsFirstOccurrence` | src/index.ts:162 | when the first entry's `src` starts and ends `src + mid + src`, the leading copy is replaced and the matched suffix is kept |
| `Descriptor.RewriteEmptySource` | src/index.ts:160-162 | an entry with an empty `src` matches every string and puts its `file` in front |
| `Descriptor.RewriteStringStable` | src/index.ts:159-164 | with no chaining between entries and a suffix-only match, a second rewrite changes nothing |
| `Descriptor.RewriteLength` | src/index.ts:160-162 | a string rewritten through its first matching entry changes length by that entry's `file` length minus its `src` length, whichever occurrence is replaced |
| `Descriptor.RewriteWholeSource` | src/index.ts:160-162 | the first entry's own `src` is rewritten to exactly its `file` |
| `Descriptor.RewriteStringNotIdempotent` | src/index.ts:159-164 | when the first entry's `file` is longer than its `src` and ends with it (`src -> pre + src`), the rewritten `src` is changed again on a second pass |
| `Descriptor.Rewrite` | src/index.ts:156-169 | the replacer over the whole descriptor keeps keys and their order, array lengths, and every number, boolean and null |
| `Descriptor.RewriteEmptyManifest` | src/index.ts:156-169 | with an empty manifest the rewrite is the identity |
| `Descriptor.RewriteIdempotent` | src/index.ts:156-169 | under the same two conditions, on every string of the descriptor, rewriting twice equals rewriting once |
| `Emit.ReadAll` | src/index.ts:86-101 | succeeds exactly when every read succeeds, with the contents in order; otherwise fails with the path of a failed read |
| `Emit.I18nContent` | src/index.ts:87-91 | the text read always ends the result; the result equals it exactly when the file name does not end with `.json`, and otherwise `module.exports = ` is what precedes it |
| `Emit.EmitI18n` | src/index.ts:77-102 | a failed listing rejects; an empty one emits nothing; otherwise one asset per file named by `I18nAssetName`, whose text gets `module.exports = ` in front exactly when the file name ends with `.json` and is unchanged otherwise |
| `Emit.EmitStatic` | src/index.ts:106-127 | a missing directory or an empty listing emits nothing; a listing that rejects rejects; otherwise one asset per file named by `StaticAssetName`, with the bytes read unchanged |
| `Emit.StaticAssetsFlat` | src/index.ts:118-124 | every static asset lies directly in the static directory and carries the bytes of one of the files |
| `Plugin.ForcedManifest` | src/index.ts:61-67 | the setting after `config` is always truthy, and equals the user's setting exactly when that was truthy; a falsy one becomes `true` |
| `Plugin.GenerateBundle` | src/index.ts:75-142 | an i18n failure is the hook's failure; success exactly when both trees and the descriptor read succeed; the descriptor asset comes last; there is one asset per i18n asset, per static asset and for the descriptor, and the assets are exactly those |
| `Plugin.EmptyTreesEmitOnlyPackage` | src/index.ts:85 | an empty localization tree and no static directory emit `package.json` alone |
| `Plugin.NoStaticDirectoryNoStaticAssets` | src/index.ts:112 | without a static directory every asset is under `i18n/` or is `package.json` |
| `Plugin.PrepareRewrite` | src/index.ts:146-169 | succeeds exactly when both files are present, parse, and the manifest's values are entries; the rewritten descriptor is `Rewrite` of the original under the manifest's entries, so it has the original's shape, and equals it for an empty manifest |
| `Plugin.Written` | src/index.ts:156-178 | `package.json` holds the rewritten descriptor; `manifest.json` stays, unmodified, exactly when the user's setting was truthy; every other file is untouched |
| `Plugin.ArchiveName` | src/index.ts:179-182 | no archive without `zip`; a non-empty `zip.fileName` is used as given; otherwise the default name from a string `name`, and a rejection when `name` is not a string |
| `Plugin.CocosHelper.constructor` | src/index.ts:50-51 | the closure starts with no resolved config and `originManifest` false |
| `Plugin.CocosHelper.Config` | src/index.ts:60-69 | records the user's `build.manifest`; afterwards `build` exists and its manifest is the forced setting; an existing `build` object is updated in place and keeps its other fields |
| `Plugin.CocosHelper.ConfigResolved` | src/index.ts:71-73 | records the resolved root |
| `Plugin.CocosHelper.WriteBundle` | src/index.ts:144-208 | a failure before the rewrite leaves the output unchanged; otherwise the output becomes `Written(...)` and the result is `ArchiveName(...)`, whose failure leaves the written output in place |

## Left out

- File-system I/O is not modelled: `readFile`, `writeFile`, `unlink`, `existsSync` and `recursive-readdir`. Listings and read results are inputs: an `Option` for the localization listing (`None` when it rejected, which includes an absent directory), a `Listing` for the static tree (`Missing`, `Unreadable` or the files listed), and an `Option` per file for a read that rejected. The output directory is the `files` map of `OutputDir`.
- `Emit.ReadAll`: `Promise.all` reports whichever read rejects first in time. The model reports the first failed file in listing order. The order of `emitFile` calls within one tree is taken as listing order, and that order has no meaning.
- The zip archive is not modelled: `archiver`, zlib level 9, stream piping, the `close`/`error` events and the `console.log`. Only the archive's name and the "only with a `zip` option" guard remain.
- `resolvePath`, `normalizePath` and `os.platform()` are not modelled, because they depend on `path.join`, `path.relative`, `path.posix.normalize` and the host. The static directory's name (`path.relative(root, staticDir)`) is a parameter. The resolved `root` is recorded but not used.
- The text of JSON is not modelled: `JSON.parse`, `JSON.stringify` and the 2-space indentation. A file whose text parses is held as `Document(value)`. Any other text, and any bytes, read as "does not parse".
- The `$&` and `$1` replacement patterns of `String.prototype.replace` are not modelled. `file` is inserted literally.
- The lodash `merge` of the user's options with the defaults is not modelled. Options arrive already merged.
- `Descriptor.ManifestEntries`: a manifest value without string `src` and `file` is rejected as malformed. The code would instead compare against the text `undefined`, or throw for a `null` value. `Object.values` ordering of integer-like keys is also not modelled: the manifest's member order is used.
- Rollup keeps `manifest.json` in its in-memory bundle object and only deletes it on disk. The model keeps one map, the output directory, for both.
- Rollup's handling of two emitted assets with the same `fileName` is not modelled.
- UTF-8 decoding of localization and descriptor files is not modelled. Their contents are given as decoded strings.
- The build configuration files and the demo extension's editor code have no logic to model.
