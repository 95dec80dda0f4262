/** The path and file-name computations of the plugin (src/index.ts). */
module Paths {
  import opened Text

  /** `slash`: every backslash becomes a forward slash. */
  function Slash(p: string): (r: string)
    ensures |r| == |p|
    ensures '\\' !in r
    ensures forall i :: 0 <= i < |p| && p[i] != '\\' ==> r[i] == p[i]
    ensures forall i :: 0 <= i < |p| && p[i] == '\\' ==> r[i] == '/'
  {
    if p == [] then [] else [if p[0] == '\\' then '/' else p[0]] + Slash(p[1..])
  }

  lemma {:induction false} SlashIdempotent(p: string)
    ensures Slash(Slash(p)) == Slash(p)
  {
    var once := Slash(p);
    assert forall i :: 0 <= i < |once| ==> Slash(once)[i] == once[i];
  }

  /** `seg` is the last `/`-separated segment of `s`: it has no `/`, ends
      `s`, and is either the whole of `s` or preceded by a `/`. */
  predicate IsLastSegment(s: string, seg: string) {
    && '/' !in seg
    && EndsWith(s, seg)
    && (seg == s || s[|s| - |seg| - 1] == '/')
  }

  /** `s.split('/').pop()`: the last `/`-separated segment of `s`. */
  function LastSegment(s: string): (seg: string)
    ensures IsLastSegment(s, seg)
  {
    if s == [] || s[|s| - 1] == '/' then []
    else
      var prev := LastSegment(s[..|s| - 1]);
      LastSegmentStep(s, prev);
      prev + [s[|s| - 1]]
  }

  /** Extending the last segment of `s` without its final character by that
      character, when it is not a `/`, gives the last segment of `s`. */
  lemma LastSegmentStep(s: string, prev: string)
    requires s != [] && s[|s| - 1] != '/'
    requires IsLastSegment(s[..|s| - 1], prev)
    ensures IsLastSegment(s, prev + [s[|s| - 1]])
  {
    var init, c := s[..|s| - 1], s[|s| - 1];
    assert s == init + [c];
    assert s[|s| - |prev| - 1..] == init[|init| - |prev|..] + [c];
  }

  /** `IsLastSegment` pins the last segment down: no other suffix of `s` is
      free of `/` and either the whole of `s` or preceded by a `/`. */
  lemma LastSegmentUnique(s: string, seg: string)
    requires IsLastSegment(s, seg)
    ensures LastSegment(s) == seg
  {
  }

  /** The characters `\w` matches in a JavaScript regular expression without the `u` flag. */
  predicate IsWordChar(c: char) {
    ('a' <= c <= 'z') || ('A' <= c <= 'Z') || ('0' <= c <= '9') || c == '_'
  }

  /** The pattern `/\.\w+$/` matches `s` at position `p`: a dot followed by
      one or more word characters up to the end of `s`. */
  predicate ExtensionAt(s: string, p: int) {
    0 <= p < |s| - 1 && s[p] == '.' && forall j :: p < j < |s| ==> IsWordChar(s[j])
  }

  /** The start of the longest run of word characters that ends `s`. */
  function WordRunStart(s: string): (k: nat)
    ensures k <= |s|
    ensures forall j :: k <= j < |s| ==> IsWordChar(s[j])
    ensures k == 0 || !IsWordChar(s[k - 1])
  {
    if s == [] || !IsWordChar(s[|s| - 1]) then |s| else WordRunStart(s[..|s| - 1])
  }

  /** `s.replace(/\.\w+$/, '')`: a trailing `.` + word characters is cut off;
      a segment without one is kept whole. */
  function StripExtension(s: string): (r: string)
    ensures r <= s
    ensures forall p :: ExtensionAt(s, p) ==> r == s[..p]
    ensures (forall p :: !ExtensionAt(s, p)) ==> r == s
  {
    var k := WordRunStart(s);
    if 0 < k < |s| && s[k - 1] == '.' then
      assert ExtensionAt(s, k - 1);
      s[..k - 1]
    else
      assert forall p :: ExtensionAt(s, p) ==> p == k - 1 by {
        forall p | ExtensionAt(s, p) ensures p == k - 1 {
        }
      }
      s
  }

  /** `stem` is what the i18n emitter keeps of segment `seg`: `seg` without
      its extension, or all of `seg` when it has none. */
  ghost predicate StemOf(seg: string, stem: string) {
    && ((forall p :: !ExtensionAt(seg, p)) ==> stem == seg)
    && (forall p :: ExtensionAt(seg, p) ==> stem == seg[..p])
  }

  /** The `fileName` of the asset emitted for localization file `file`
      (src/index.ts:94-97): `i18n/` + the stem of its last segment + `.js`. */
  function I18nAssetName(file: string): (name: string)
    ensures exists stem :: StemOf(LastSegment(file), stem) && '/' !in stem && name == "i18n/" + stem + ".js"
  {
    var seg := LastSegment(file);
    var stem := StripExtension(seg);
    assert '/' !in stem by {
      forall i | 0 <= i < |stem| ensures stem[i] != '/' { assert stem[i] == seg[i]; }
    }
    assert StemOf(seg, stem);
    "i18n/" + stem + ".js"
  }

  /** Every localization asset lies in `i18n/` and is a `.js` file. */
  lemma I18nAssetNameInDirectory(file: string)
    ensures |I18nAssetName(file)| >= 8
    ensures I18nAssetName(file)[..5] == "i18n/" && EndsWith(I18nAssetName(file), ".js")
  {
    var stem := StripExtension(LastSegment(file));
    var name := I18nAssetName(file);
    assert name == "i18n/" + stem + ".js";
    assert name[..5] == "i18n/";
    assert name[|name| - 3..] == ".js";
  }

  /** The `fileName` of the asset emitted for static file `file`
      (src/index.ts:122): the static directory's name, a `/`, and the last
      segment of `file` alone, so every subdirectory is flattened away. */
  function StaticAssetName(dirName: string, file: string): (name: string)
    ensures |name| > |dirName| && name[..|dirName|] == dirName && name[|dirName|] == '/'
    ensures '/' !in name[|dirName| + 1..]
    ensures EndsWith(file, name[|dirName| + 1..])
    ensures name[|dirName| + 1..] == file || file[|file| - (|name| - |dirName| - 1) - 1] == '/'
  {
    var name := dirName + "/" + LastSegment(file);
    assert name[|dirName| + 1..] == LastSegment(file);
    name
  }

  /** The last segment of `dir/seg` is `seg` when `seg` has no `/`. */
  lemma LastSegmentAfterSlash(dir: string, seg: string)
    requires '/' !in seg
    ensures LastSegment(dir + "/" + seg) == seg
  {
    var file := dir + "/" + seg;
    assert file[|file| - |seg|..] == seg;
    assert file[|file| - |seg| - 1] == '/';
    LastSegmentUnique(file, seg);
  }

  /** Stripping the extension of `stem.ext`, where `ext` is made of word
      characters, gives back `stem`. */
  lemma {:induction false} StripExtensionOfStem(stem: string, ext: string)
    requires ext != [] && forall j :: 0 <= j < |ext| ==> IsWordChar(ext[j])
    ensures StripExtension(stem + "." + ext) == stem
  {
    var seg := stem + "." + ext;
    forall j | |stem| < j < |seg| ensures IsWordChar(seg[j]) {
      assert seg[j] == ext[j - |stem| - 1];
    }
    assert ExtensionAt(seg, |stem|);
    assert seg[..|stem|] == stem;
  }

  /** Flattening loses the subdirectory: a file named `base` is emitted
      under the same name from whichever subdirectory it comes. */
  lemma StaticAssetNameFlattens(dirName: string, sub: string, base: string)
    requires '/' !in base
    ensures StaticAssetName(dirName, sub + "/" + base) == dirName + "/" + base
  {
    LastSegmentAfterSlash(sub, base);
  }

  /** The archive name used when no `zip.fileName` is given
      (src/index.ts:180-182): the last `/`-segment of the package name plus `.zip`. */
  function DefaultArchiveName(packageName: string): (name: string)
    ensures EndsWith(name, ".zip")
    ensures '/' !in name[..|name| - 4]
    ensures EndsWith(packageName, name[..|name| - 4])
    ensures name[..|name| - 4] == packageName || packageName[|packageName| - (|name| - 4) - 1] == '/'
  {
    var name := LastSegment(packageName) + ".zip";
    assert name[..|name| - 4] == LastSegment(packageName);
    name
  }

  /** A scoped package name `@scope/name` gives the archive `name.zip`. */
  lemma DefaultArchiveNameOfScopedPackage(scope: string, name: string)
    requires '/' !in name
    ensures DefaultArchiveName(scope + "/" + name) == name + ".zip"
  {
    LastSegmentAfterSlash(scope, name);
  }

  /** An unscoped package name gives the archive named after it. */
  lemma DefaultArchiveNameOfPlainPackage(name: string)
    requires '/' !in name
    ensures DefaultArchiveName(name) == name + ".zip"
  {
    assert name[|name| - |name|..] == name;
    LastSegmentUnique(name, name);
  }

  /** A localization file `dir/stem.ext`, with `ext` made of word characters,
      is emitted as `i18n/stem.js`, whatever `dir` is. */
  lemma {:induction false} I18nAssetNameOfFile(dir: string, stem: string, ext: string)
    requires '/' !in stem && '/' !in ext
    requires ext != [] && forall j :: 0 <= j < |ext| ==> IsWordChar(ext[j])
    ensures I18nAssetName(dir + "/" + stem + "." + ext) == "i18n/" + stem + ".js"
  {
    var seg := stem + "." + ext;
    assert '/' !in seg;
    var file := dir + "/" + seg;
    assert file == dir + "/" + stem + "." + ext;
    LastSegmentAfterSlash(dir, seg);
    StripExtensionOfStem(stem, ext);
  }
}
