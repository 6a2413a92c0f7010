/**
 * The static manifest of engine files and the pure helpers over it
 * (lib/config/ffmpeg-config.js).
 */
module FFmpegConfig {
  import opened Outcomes

  /** The declared kind of a manifest file: JavaScript text or a WebAssembly binary. */
  datatype FileType = Js | Wasm

  /** One manifest entry. */
  datatype FileEntry = FileEntry(key: string, url: string, size: nat, fileType: FileType, description: string)

  const FFMPEG_VERSION: string := "0.12.6"
  const FFMPEG_CDN_BASE: string := "https://unpkg.com/@ffmpeg/core@" + FFMPEG_VERSION + "/dist/umd"
  const FFMPEG_CDN_FALLBACK: string := "https://cdn.jsdelivr.net/npm/@ffmpeg/core@" + FFMPEG_VERSION + "/dist/umd"

  const CORE_KEY: string := "ffmpeg-core.js"
  const WASM_KEY: string := "ffmpeg-core.wasm"
  /** The optional entry: single-threaded builds of the engine ship no worker script. */
  const WORKER_KEY: string := "ffmpeg-core.worker.js"

  const CORE: FileEntry := FileEntry(CORE_KEY, FFMPEG_CDN_BASE + "/" + CORE_KEY, 500 * 1024, Js,
                                     "FFmpeg.wasm Core JavaScript")
  const WASM: FileEntry := FileEntry(WASM_KEY, FFMPEG_CDN_BASE + "/" + WASM_KEY, 8 * 1024 * 1024, Wasm,
                                     "FFmpeg.wasm Core - WebAssembly binary")
  const WORKER: FileEntry := FileEntry(WORKER_KEY, FFMPEG_CDN_BASE + "/" + WORKER_KEY, 50 * 1024, Js,
                                       "FFmpeg Worker Script")

  /** The manifest, in the order `Object.values(FFMPEG_FILES)` yields it. */
  const FFMPEG_FILES: seq<FileEntry> := [CORE, WASM, WORKER]

  /** The keys of a list of entries are pairwise distinct. */
  predicate DistinctKeys(es: seq<FileEntry>) {
    forall i, j :: 0 <= i < j < |es| ==> es[i].key != es[j].key
  }

  /** The URL of a file on the primary CDN or on the fallback CDN. */
  function GetFileUrl(fileName: string, useFallback: bool): (url: string)
    ensures var base := if useFallback then FFMPEG_CDN_FALLBACK else FFMPEG_CDN_BASE;
            |url| == |base| + 1 + |fileName| && url[..|base|] == base && url[|base|] == '/'
            && url[|base| + 1..] == fileName
  {
    (if useFallback then FFMPEG_CDN_FALLBACK else FFMPEG_CDN_BASE) + "/" + fileName
  }

  /** Distinct (name, mirror) pairs give distinct URLs: in particular a fallback URL is never a primary one. */
  lemma GetFileUrlInjective(a: string, fa: bool, b: string, fb: bool)
    requires GetFileUrl(a, fa) == GetFileUrl(b, fb)
    ensures a == b && fa == fb
  {
  }

  /** The sum of the declared sizes of a list of entries. */
  function SumSizes(es: seq<FileEntry>): nat
  {
    if es == [] then 0 else es[0].size + SumSizes(es[1..])
  }

  /** Sizes add up over a split of the list. */
  lemma {:induction false} SumSizesAppend(xs: seq<FileEntry>, ys: seq<FileEntry>)
    ensures SumSizes(xs + ys) == SumSizes(xs) + SumSizes(ys)
  {
    if xs != [] {
      assert (xs + ys)[1..] == xs[1..] + ys;
      SumSizesAppend(xs[1..], ys);
    } else {
      assert xs + ys == ys;
    }
  }

  /** The sizes of the first k entries plus that of entry k make the sizes of the first k + 1. */
  lemma SumSizesPrefix(es: seq<FileEntry>, k: nat)
    requires k < |es|
    ensures SumSizes(es[..k + 1]) == SumSizes(es[..k]) + es[k].size
  {
    assert es[..k + 1] == es[..k] + [es[k]];
    SumSizesAppend(es[..k], [es[k]]);
  }

  /** A prefix never weighs more than the whole list. */
  lemma SumSizesPrefixBound(es: seq<FileEntry>, k: nat)
    requires k <= |es|
    ensures SumSizes(es[..k]) <= SumSizes(es)
  {
    assert es == es[..k] + es[k..];
    SumSizesAppend(es[..k], es[k..]);
  }

  /** The total download size: the sum of all declared sizes. */
  function GetTotalSize(): (total: nat)
    ensures total == SumSizes(FFMPEG_FILES)
    ensures total == 500 * 1024 + 8 * 1024 * 1024 + 50 * 1024
  {
    assert FFMPEG_FILES[1..] == [WASM, WORKER] && [WASM, WORKER][1..] == [WORKER] && [WORKER][1..] == [];
    assert SumSizes([WORKER]) == WORKER.size;
    assert SumSizes([WASM, WORKER]) == WASM.size + WORKER.size;
    SumSizes(FFMPEG_FILES)
  }

  /** The first entry of `es` whose key is `key`, or `None` when no entry has it. */
  function FindEntry(es: seq<FileEntry>, key: string): (r: Option<FileEntry>)
    ensures r.Some? ==> r.value in es && r.value.key == key
    ensures r.None? <==> forall i :: 0 <= i < |es| ==> es[i].key != key
  {
    if es == [] then None
    else if es[0].key == key then Some(es[0])
    else FindEntry(es[1..], key)
  }

  /** `getFileInfo`: the manifest entry with the given key, or `None`. */
  function GetFileInfo(key: string): (r: Option<FileEntry>)
    ensures r.Some? ==> r.value in FFMPEG_FILES && r.value.key == key
    ensures r.None? <==> forall i :: 0 <= i < |FFMPEG_FILES| ==> FFMPEG_FILES[i].key != key
  {
    FindEntry(FFMPEG_FILES, key)
  }

  /** With distinct keys, the entry found for the key of entry i is entry i itself. */
  lemma {:induction false} FindEntryAt(es: seq<FileEntry>, i: nat)
    requires DistinctKeys(es) && i < |es|
    ensures FindEntry(es, es[i].key) == Some(es[i])
  {
    if i > 0 {
      assert DistinctKeys(es[1..]) by {
        forall a, b | 0 <= a < b < |es| - 1 ensures es[1..][a].key != es[1..][b].key {
          assert es[1..][a] == es[a + 1] && es[1..][b] == es[b + 1];
        }
      }
      FindEntryAt(es[1..], i - 1);
      assert es[1..][i - 1] == es[i];
    }
  }

  /** `getAllFileKeys`: one key per manifest entry, in manifest order. */
  function GetAllFileKeys(): (keys: seq<string>)
    ensures |keys| == |FFMPEG_FILES|
    ensures forall i :: 0 <= i < |keys| ==> keys[i] == FFMPEG_FILES[i].key
  {
    seq(|FFMPEG_FILES|, i requires 0 <= i < |FFMPEG_FILES| => FFMPEG_FILES[i].key)
  }

  /** The manifest's keys are pairwise distinct, and every entry's URL is its primary-CDN URL. */
  lemma ManifestWellFormed()
    ensures DistinctKeys(FFMPEG_FILES)
    ensures forall i :: 0 <= i < |FFMPEG_FILES| ==> FFMPEG_FILES[i].url == GetFileUrl(FFMPEG_FILES[i].key, false)
  {
  }

  /** The declared types: core and worker are JavaScript, the wasm entry is a binary. */
  lemma ManifestTypes()
    ensures GetFileInfo(CORE_KEY) == Some(CORE) && CORE.fileType == Js
    ensures GetFileInfo(WASM_KEY) == Some(WASM) && WASM.fileType == Wasm
    ensures GetFileInfo(WORKER_KEY) == Some(WORKER) && WORKER.fileType == Js
  {
    ManifestWellFormed();
    FindEntryAt(FFMPEG_FILES, 0);
    FindEntryAt(FFMPEG_FILES, 1);
    FindEntryAt(FFMPEG_FILES, 2);
  }
}
