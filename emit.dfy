/** The assets `generateBundle` emits from the localization and static trees
    (src/index.ts:77-129), as a plan: from the files a tree holds, and what
    reading each returned, to the list of `(fileName, source)` assets. */
module Emit {
  import opened Wrappers
  import opened Text
  import opened Json
  import opened Paths

  newtype byte = x: int | 0 <= x < 256

  /** The source of an emitted asset or of a file in the output directory:
      text, raw bytes, or text that `JSON.parse` accepts, held as its value. */
  datatype Source = Text(text: string) | Bytes(data: seq<byte>) | Document(doc: Json)

  datatype Asset = Asset(fileName: string, source: Source)

  /** A file found by the recursive listing of a tree, with what reading it
      gave: `None` when `fs.promises.readFile` rejected. */
  datatype SourceFile<T> = SourceFile(path: string, content: Option<T>)

  /** What listing a tree gave: its directory does not exist, its recursive
      listing rejected, or the files it holds. */
  datatype Listing<T> = Missing | Unreadable | Listed(files: seq<SourceFile<T>>)

  /** The contents of all `files`, or the failure of a read: one rejected
      read rejects the whole `Promise.all`. */
  function ReadAll<T>(files: seq<SourceFile<T>>): (r: Result<seq<T>>)
    ensures r.Success? <==> forall i :: 0 <= i < |files| ==> files[i].content.Some?
    ensures r.Success? ==> |r.value| == |files|
                           && forall i :: 0 <= i < |files| ==> files[i].content == Some(r.value[i])
    ensures r.Failure? ==> exists i :: 0 <= i < |files| && files[i].content.None?
                                      && r.error == ReadFailure(files[i].path)
  {
    if files == [] then Success([])
    else match (files[0].content, ReadAll(files[1..]))
      case (None, _) => Failure(ReadFailure(files[0].path))
      case (Some(c), Failure(e)) => Failure(e)
      case (Some(c), Success(rest)) => Success([c] + rest)
  }

  /** The i18n content transform (src/index.ts:87-91): a `.json` file
      becomes a CommonJS module exporting its content; any other file's
      text is kept as it is. */
  function I18nContent(file: string, content: string): (c: string)
    ensures EndsWith(c, content)
    ensures c == content <==> !EndsWith(file, ".json")
    ensures c != content ==> c[..|c| - |content|] == "module.exports = "
  {
    if EndsWith(file, ".json") then
      var c := "module.exports = " + content;
      assert c[|c| - |content|..] == content;
      c
    else
      assert content[|content| - |content|..] == content;
      content
  }

  /** Asset `a` is what `emitI18n` makes of the file `f`: named `i18n/<stem>.js`,
      with the text read, behind `module.exports = ` for a `.json` file. */
  predicate I18nAssetOf(f: SourceFile<string>, a: Asset) {
    && a.fileName == I18nAssetName(f.path)
    && f.content.Some?
    && (EndsWith(f.path, ".json") ==> a.source == Text("module.exports = " + f.content.value))
    && (!EndsWith(f.path, ".json") ==> a.source == Text(f.content.value))
  }

  /** Asset `a` is what `emitStatic` makes of the file `f`: named
      `<dirName>/<last segment>`, with the bytes read. */
  predicate StaticAssetOf(dirName: string, f: SourceFile<seq<byte>>, a: Asset) {
    && a.fileName == StaticAssetName(dirName, f.path)
    && f.content.Some?
    && a.source == Bytes(f.content.value)
  }

  /** `emitI18n`: `None` stands for a listing that rejected (the directory is
      not checked first, so a missing one rejects); an empty listing emits
      nothing; otherwise one text asset per file, named `i18n/<stem>.js`. */
  function EmitI18n(dir: string, listing: Option<seq<SourceFile<string>>>): (r: Result<seq<Asset>>)
    ensures listing.None? ==> r == Failure(DirectoryUnreadable(dir))
    ensures listing.Some? ==> (r.Success? <==> forall i :: 0 <= i < |listing.value| ==> listing.value[i].content.Some?)
    ensures listing == Some([]) ==> r == Success([])
    ensures r.Success? ==> |r.value| == |listing.value|
    ensures r.Success? ==> forall i :: 0 <= i < |r.value| ==> I18nAssetOf(listing.value[i], r.value[i])
  {
    match listing
    case None => Failure(DirectoryUnreadable(dir))
    case Some(files) =>
      match ReadAll(files)
      case Failure(e) => Failure(e)
      case Success(contents) =>
        Success(seq(|files|, i requires 0 <= i < |files| =>
          Asset(I18nAssetName(files[i].path), Text(I18nContent(files[i].path, contents[i])))))
  }

  /** `emitStatic`: a directory that does not exist emits nothing (it is
      checked first); one whose listing rejects rejects; otherwise one
      byte-for-byte asset per file, named `<dirName>/<last segment>`. */
  function EmitStatic(dirName: string, listing: Listing<seq<byte>>): (r: Result<seq<Asset>>)
    ensures listing.Missing? ==> r == Success([])
    ensures listing.Unreadable? ==> r == Failure(DirectoryUnreadable(dirName))
    ensures listing.Listed? ==> (r.Success? <==> forall i :: 0 <= i < |listing.files| ==> listing.files[i].content.Some?)
    ensures listing == Listed([]) ==> r == Success([])
    ensures r.Success? && listing.Listed? ==> |r.value| == |listing.files|
    ensures r.Success? && listing.Listed? ==> forall i :: 0 <= i < |r.value| ==>
              StaticAssetOf(dirName, listing.files[i], r.value[i])
  {
    match listing
    case Missing => Success([])
    case Unreadable => Failure(DirectoryUnreadable(dirName))
    case Listed(files) =>
      match ReadAll(files)
      case Failure(e) => Failure(e)
      case Success(contents) =>
        Success(seq(|files|, i requires 0 <= i < |files| =>
          Asset(StaticAssetName(dirName, files[i].path), Bytes(contents[i]))))
  }

  /** Every static asset lies directly inside `dirName`: no subdirectory of
      the static tree survives, and the bytes are those read. */
  lemma {:induction false} StaticAssetsFlat(dirName: string, files: seq<SourceFile<seq<byte>>>)
    requires EmitStatic(dirName, Listed(files)).Success?
    ensures forall a :: a in EmitStatic(dirName, Listed(files)).value ==>
              && |a.fileName| > |dirName| && a.fileName[..|dirName|] == dirName
              && a.fileName[|dirName|] == '/' && '/' !in a.fileName[|dirName| + 1..]
              && exists f :: f in files && f.content == Some(a.source.data)
  {
    var assets := EmitStatic(dirName, Listed(files)).value;
    forall a | a in assets
      ensures && |a.fileName| > |dirName| && a.fileName[..|dirName|] == dirName
              && a.fileName[|dirName|] == '/' && '/' !in a.fileName[|dirName| + 1..]
              && exists f :: f in files && f.content == Some(a.source.data)
    {
      var i :| 0 <= i < |assets| && assets[i] == a;
      assert StaticAssetOf(dirName, files[i], a);
      assert files[i] in files;
    }
  }
}
