/** The rewrite of `package.json` in `writeBundle` (src/index.ts:146-169):
    every string value of the descriptor that ends with some manifest
    entry's `src` has that `src` replaced by the entry's built `file`. */
module Descriptor {
  import opened Wrappers
  import opened Text
  import opened Json

  /** One value of the bundler's manifest: the source path an output was
      built from, and the output file it became. */
  datatype Entry = Entry(src: string, file: string)

  /** The manifest value `j` read as an entry: it needs string `src` and `file`. */
  function EntryOf(j: Json): (r: Option<Entry>)
    ensures r.Some? <==> && Lookup(j, "src").Some? && Lookup(j, "src").value.JString?
                         && Lookup(j, "file").Some? && Lookup(j, "file").value.JString?
    ensures r.Some? ==> Lookup(j, "src") == Some(JString(r.value.src))
                        && Lookup(j, "file") == Some(JString(r.value.file))
  {
    match (Lookup(j, "src"), Lookup(j, "file"))
    case (Some(JString(src)), Some(JString(file))) => Some(Entry(src, file))
    case _ => None
  }

  function EntriesOf(members: seq<Member>): (r: Option<seq<Entry>>)
    ensures r.Some? ==> |r.value| == |members|
                        && forall i :: 0 <= i < |members| ==> EntryOf(members[i].value) == Some(r.value[i])
    ensures r.None? ==> exists i :: 0 <= i < |members| && EntryOf(members[i].value).None?
  {
    if members == [] then Some([])
    else match (EntryOf(members[0].value), EntriesOf(members[1..]))
      case (Some(e), Some(rest)) => Some([e] + rest)
      case (None, _) => None
      case (_, None) => None
  }

  /** `Object.values(manifestJSON)`, in the manifest's own order, each value
      read as an entry; `None` when the manifest is not an object or one of
      its values is not an entry. */
  function ManifestEntries(manifest: Json): (r: Option<seq<Entry>>)
    ensures r.Some? ==> manifest.JObject? && |r.value| == |manifest.members|
    ensures r.Some? ==> forall i :: 0 <= i < |r.value| ==> EntryOf(manifest.members[i].value) == Some(r.value[i])
    ensures r.None? ==> !manifest.JObject? || exists i :: 0 <= i < |manifest.members| && EntryOf(manifest.members[i].value).None?
  {
    if manifest.JObject? then EntriesOf(manifest.members) else None
  }

  /** `i` is the entry `files.find(file => v.endsWith(file.src))` picks: the
      first entry, in manifest order, whose `src` ends `v`. */
  predicate FirstMatch(manifest: seq<Entry>, v: string, i: int) {
    && 0 <= i < |manifest|
    && EndsWith(v, manifest[i].src)
    && forall k :: 0 <= k < i ==> !EndsWith(v, manifest[k].src)
  }

  function FindMatch(manifest: seq<Entry>, v: string): (r: Option<nat>)
    ensures r.Some? ==> FirstMatch(manifest, v, r.value)
    ensures r.None? ==> forall k :: 0 <= k < |manifest| ==> !EndsWith(v, manifest[k].src)
  {
    if manifest == [] then None
    else if EndsWith(v, manifest[0].src) then Some(0)
    else match FindMatch(manifest[1..], v)
      case None => None
      case Some(i) => Some(i + 1)
  }

  /** The replacer applied to a string value: unchanged without a matching
      entry; otherwise the FIRST occurrence of the matching entry's `src`
      (which need not be the suffix that matched) becomes its `file`. */
  function RewriteString(manifest: seq<Entry>, v: string): (w: string)
    ensures (forall k :: 0 <= k < |manifest| ==> !EndsWith(v, manifest[k].src)) ==> w == v
    ensures forall i, k :: FirstMatch(manifest, v, i) && FirstOccurrence(v, manifest[i].src, k) ==>
              w == v[..k] + manifest[i].file + v[k + |manifest[i].src|..]
  {
    match FindMatch(manifest, v)
    case None => v
    case Some(i) =>
      assert forall i' :: FirstMatch(manifest, v, i') ==> i' == i;
      ReplaceFirst(v, manifest[i].src, manifest[i].file)
  }

  /** The replacer applied to the whole descriptor, as `JSON.stringify` runs
      it: on the root and on every value below it, never on keys. It keeps
      the descriptor's shape: the same keys in the same order, the same array
      lengths, and unchanged numbers, booleans and nulls. */
  function Rewrite(manifest: seq<Entry>, j: Json): (r: Json)
    ensures SameShape(j, r)
    decreases j
  {
    match j
    case JString(s) => JString(RewriteString(manifest, s))
    case JArray(items) =>
      JArray(seq(|items|, i requires 0 <= i < |items| => Rewrite(manifest, items[i])))
    case JObject(ms) =>
      JObject(seq(|ms|, i requires 0 <= i < |ms| => Member(ms[i].key, Rewrite(manifest, ms[i].value))))
    case _ => j
  }

  // ---------------------------------------------------------------------
  // One string value

  /** The contract of `RewriteString`, for one match `i` and its first occurrence `k`. */
  lemma RewriteAt(manifest: seq<Entry>, v: string, i: nat, k: nat)
    requires FirstMatch(manifest, v, i) && FirstOccurrence(v, manifest[i].src, k)
    ensures RewriteString(manifest, v) == v[..k] + manifest[i].file + v[k + |manifest[i].src|..]
  {
  }

  /** When `src` occurs in `v` only as the suffix that matched, the rewrite
      keeps the prefix before it untouched and ends with the entry's `file`. */
  lemma {:induction false} RewriteSuffixOnly(manifest: seq<Entry>, v: string, i: nat)
    requires FirstMatch(manifest, v, i)
    requires forall k :: OccursAt(v, manifest[i].src, k) ==> k == |v| - |manifest[i].src|
    ensures RewriteString(manifest, v) == v[..|v| - |manifest[i].src|] + manifest[i].file
    ensures EndsWith(RewriteString(manifest, v), manifest[i].file)
  {
    var src, file := manifest[i].src, manifest[i].file;
    var p := |v| - |src|;
    assert FirstOccurrence(v, src, p) by {
      assert v[p..p + |src|] == v[p..];
    }
    RewriteAt(manifest, v, i, p);
    assert v[p + |src|..] == [];
    assert v[..p] + file + [] == v[..p] + file;
    EndsWithConcat(v[..p], file);
  }

  /** A matched string changes length by the difference between the entry's
      `file` and its `src`: one occurrence is replaced, whichever it is. */
  lemma {:induction false} RewriteLength(manifest: seq<Entry>, v: string, i: nat)
    requires FirstMatch(manifest, v, i)
    ensures |RewriteString(manifest, v)| == |v| - |manifest[i].src| + |manifest[i].file|
  {
    var src := manifest[i].src;
    assert OccursAt(v, src, |v| - |src|) by {
      assert v[|v| - |src|..|v|] == v[|v| - |src|..];
    }
    var k := IndexOf(v, src).value;
    RewriteAt(manifest, v, i, k);
  }

  /** The first entry's own `src` is rewritten to its `file`. */
  lemma {:induction false} RewriteWholeSource(manifest: seq<Entry>)
    requires |manifest| > 0
    ensures RewriteString(manifest, manifest[0].src) == manifest[0].file
  {
    var src := manifest[0].src;
    assert FirstMatch(manifest, src, 0) by {
      assert src[|src| - |src|..] == src;
    }
    assert FirstOccurrence(src, src, 0) by {
      assert src[0..|src|] == src;
    }
    RewriteAt(manifest, src, 0, 0);
    assert src[..0] == [] && src[|src|..] == [];
  }

  /** The replacement hits the first occurrence of `src`: when the first
      entry's `src` both starts and ends `src + mid + src`, the leading copy is
      replaced and the matching suffix is left as it was. */
  lemma {:induction false} RewriteHitsFirstOccurrence(manifest: seq<Entry>, mid: string)
    requires |manifest| > 0
    ensures var e := manifest[0];
            RewriteString(manifest, e.src + mid + e.src) == e.file + mid + e.src
  {
    var src := manifest[0].src;
    var tail := mid + src;
    var v := src + tail;
    assert v == src + mid + src;
    assert FirstMatch(manifest, v, 0) by {
      EndsWithConcat(src + mid, src);
    }
    FirstOccurrenceAtStart(src, tail);
    assert v[|src|..] == tail;
    RewriteAt(manifest, v, 0, 0);
  }

  /** An entry with an empty `src` matches every string, and `file` is then
      inserted at the front. */
  lemma {:induction false} RewriteEmptySource(file: string, rest: seq<Entry>, v: string)
    ensures RewriteString([Entry("", file)] + rest, v) == file + v
  {
    var manifest := [Entry("", file)] + rest;
    assert FirstMatch(manifest, v, 0) by {
      assert v[|v|..] == [];
    }
    assert FirstOccurrence(v, "", 0) by {
      assert v[0..0] == [];
    }
    assert v[0..] == v;
    RewriteAt(manifest, v, 0, 0);
  }

  /** No entry's `file` can be matched by any entry's `src`: each `src` is at
      most as long as each `file` and never ends one. */
  ghost predicate NoChaining(manifest: seq<Entry>) {
    forall a, b :: 0 <= a < |manifest| && 0 <= b < |manifest| ==>
      |manifest[b].src| <= |manifest[a].file| && !EndsWith(manifest[a].file, manifest[b].src)
  }

  /** The `src` of the entry that matches `v`, if any, occurs in `v` only as its suffix. */
  ghost predicate SuffixOnly(manifest: seq<Entry>, v: string) {
    forall i, k :: FirstMatch(manifest, v, i) && OccursAt(v, manifest[i].src, k) ==> k == |v| - |manifest[i].src|
  }

  /** Under those two conditions a rewritten string is rewritten no further. */
  lemma {:induction false} RewriteStringStable(manifest: seq<Entry>, v: string)
    requires NoChaining(manifest) && SuffixOnly(manifest, v)
    ensures RewriteString(manifest, RewriteString(manifest, v)) == RewriteString(manifest, v)
  {
    match FindMatch(manifest, v)
    case None =>
    case Some(i) =>
      var w := RewriteString(manifest, v);
      var file := manifest[i].file;
      var prefix := v[..|v| - |manifest[i].src|];
      assert w == prefix + file by {
        RewriteSuffixOnly(manifest, v, i);
      }
      forall b | 0 <= b < |manifest| ensures !EndsWith(w, manifest[b].src) {
        EndsWithAppended(prefix, file, manifest[b].src);
      }
  }

  /** Without those conditions the rewrite is not idempotent: when the
      first entry's `file` is longer than its `src` and ends with it (as
      `src -> pre + src` does), the string `src` grows on every pass. */
  lemma {:induction false} RewriteStringNotIdempotent(manifest: seq<Entry>)
    requires |manifest| > 0
    requires |manifest[0].src| < |manifest[0].file| && EndsWith(manifest[0].file, manifest[0].src)
    ensures var once := RewriteString(manifest, manifest[0].src);
            RewriteString(manifest, once) != once
  {
    RewriteWholeSource(manifest);
    RewriteLength(manifest, manifest[0].file, 0);
  }

  // ---------------------------------------------------------------------
  // The whole descriptor

  /** With an empty manifest the rewrite changes nothing. */
  lemma {:induction false} RewriteEmptyManifest(j: Json)
    ensures Rewrite([], j) == j
    decreases j
  {
    match j
    case JArray(items) =>
      forall i | 0 <= i < |items| ensures Rewrite([], items[i]) == items[i] {
        RewriteEmptyManifest(items[i]);
      }
      assert Rewrite([], j).items == items;
    case JObject(ms) =>
      forall i | 0 <= i < |ms| ensures Rewrite([], ms[i].value) == ms[i].value {
        RewriteEmptyManifest(ms[i].value);
      }
      assert Rewrite([], j).members == ms;
    case _ =>
  }

  /** Every string value of `j` satisfies `SuffixOnly`. */
  ghost predicate SuffixOnlyStrings(manifest: seq<Entry>, j: Json)
    decreases j
  {
    match j
    case JString(s) => SuffixOnly(manifest, s)
    case JArray(items) => forall i :: 0 <= i < |items| ==> SuffixOnlyStrings(manifest, items[i])
    case JObject(ms) => forall i :: 0 <= i < |ms| ==> SuffixOnlyStrings(manifest, ms[i].value)
    case _ => true
  }

  /** Running the rewrite a second time changes nothing, provided no entry's
      `file` is matched by an entry's `src` and every matched `src` occurs
      only as its string's suffix. */
  lemma {:induction false} RewriteIdempotent(manifest: seq<Entry>, j: Json)
    requires NoChaining(manifest) && SuffixOnlyStrings(manifest, j)
    ensures Rewrite(manifest, Rewrite(manifest, j)) == Rewrite(manifest, j)
    decreases j
  {
    var once := Rewrite(manifest, j);
    match j
    case JString(s) =>
      RewriteStringStable(manifest, s);
    case JArray(items) =>
      forall i | 0 <= i < |items|
        ensures Rewrite(manifest, once.items[i]) == once.items[i]
      {
        RewriteIdempotent(manifest, items[i]);
      }
      assert Rewrite(manifest, once).items == once.items;
    case JObject(ms) =>
      forall i | 0 <= i < |ms|
        ensures Rewrite(manifest, once.members[i].value) == once.members[i].value
      {
        RewriteIdempotent(manifest, ms[i].value);
      }
      assert Rewrite(manifest, once).members == once.members;
    case _ =>
  }
}
