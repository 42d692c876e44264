/** The end of `main`: `filepath.Walk` over the harvest directory collects
    the non-empty files, and `extractFromFiles` turns each into a journal
    record, stopping at the first file it cannot read. */
module Extraction {
  import opened Base
  import opened Text
  import opened CacheLayout
  import opened AtomicFile
  import opened Extractor
  import opened Crawling

  /** What `filepath.Walk` hands its callback for one path: the path, whether
      it is a directory, and its size. */
  datatype WalkEntry = WalkEntry(path: string, isDir: bool, size: nat)

  /** The callback's filter: directories and empty files are passed over. */
  predicate Keeps(e: WalkEntry)
  {
    !e.isDir && e.size > 0
  }

  /** The paths the callback appends to `files`, in the order of the walk. */
  function Selected(entries: seq<WalkEntry>): seq<string>
  {
    if entries == [] then []
    else
      var last := entries[|entries| - 1];
      Selected(entries[..|entries| - 1]) + (if Keeps(last) then [last.path] else [])
  }

  /** A path is collected exactly when the walk visits it as a non-empty,
      non-directory entry. */
  lemma {:induction false} SelectedMembers(entries: seq<WalkEntry>, p: string)
    ensures p in Selected(entries) <==>
            exists i :: 0 <= i < |entries| && Keeps(entries[i]) && entries[i].path == p
  {
    if entries != [] {
      var init := entries[..|entries| - 1];
      SelectedMembers(init, p);
      if p in Selected(init) {
        var i :| 0 <= i < |init| && Keeps(init[i]) && init[i].path == p;
        assert entries[i] == init[i];
      }
      if exists i :: 0 <= i < |entries| && Keeps(entries[i]) && entries[i].path == p {
        var i :| 0 <= i < |entries| && Keeps(entries[i]) && entries[i].path == p;
        if i < |init| {
          assert init[i] == entries[i];
        }
      }
    }
  }

  /** The walk visits paths in byte-wise lexical order. */
  predicate WalkOrder(entries: seq<WalkEntry>)
  {
    forall i, j :: 0 <= i < j < |entries| ==> LexLess(entries[i].path, entries[j].path)
  }

  predicate StrictlyAscending(paths: seq<string>)
  {
    forall i, j :: 0 <= i < j < |paths| ==> LexLess(paths[i], paths[j])
  }

  /** Collecting keeps the walk's order. */
  lemma {:induction false} SelectedAscending(entries: seq<WalkEntry>)
    requires WalkOrder(entries)
    ensures StrictlyAscending(Selected(entries))
  {
    if entries != [] {
      var init := entries[..|entries| - 1];
      var last := entries[|entries| - 1];
      assert WalkOrder(init) by {
        forall i, j | 0 <= i < j < |init| ensures LexLess(init[i].path, init[j].path) {
          assert init[i] == entries[i] && init[j] == entries[j];
        }
      }
      SelectedAscending(init);
      if Keeps(last) {
        var s := Selected(entries);
        var t := Selected(init);
        assert s == t + [last.path];
        forall i, j | 0 <= i < j < |s| ensures LexLess(s[i], s[j]) {
          if j == |t| {
            assert s[i] == t[i] && t[i] in t;
            SelectedMembers(init, t[i]);
            var k :| 0 <= k < |init| && Keeps(init[k]) && init[k].path == t[i];
            assert entries[k] == init[k];
          } else {
            assert s[i] == t[i] && s[j] == t[j];
          }
        }
      }
    }
  }

  /** The walk callback, as the loop `filepath.Walk` drives it: each visited
      entry that passes the filter is appended to `files`. */
  method CollectFiles(entries: seq<WalkEntry>) returns (files: seq<string>)
    ensures files == Selected(entries)
  {
    files := [];
    var i := 0;
    while i < |entries|
      invariant 0 <= i <= |entries|
      invariant files == Selected(entries[..i])
    {
      var e := entries[i];
      assert entries[..i + 1][..i] == entries[..i];
      if !e.isDir && e.size > 0 {
        files := files + [e.path];
      }
      i := i + 1;
    }
    assert entries[..i] == entries;
  }

  /** `entries` is a walk of the harvest directory `d`: every entry that is
      not a directory is a file of `d` with its size, and every file of `d`
      is visited. Paths are the file names; the directory prefix every path
      shares is dropped. */
  predicate ListsDir(entries: seq<WalkEntry>, d: Dir)
  {
    && (forall i :: 0 <= i < |entries| && !entries[i].isDir ==>
          entries[i].path in d && entries[i].size == |d[entries[i].path].data|)
    && (forall n :: n in d ==> exists i :: 0 <= i < |entries| && !entries[i].isDir && entries[i].path == n)
  }

  /** The files extracted are exactly the cached pages: an ID the crawl
      marked with an empty file because of a refresh is passed over. */
  lemma CollectedPagesAreCachedPages(entries: seq<WalkEntry>, d: Dir, id: nat)
    requires ListsDir(entries, d)
    ensures PageFilename(id) in Selected(entries) <==> EntryOf(d, id).Page?
  {
    var name := PageFilename(id);
    SelectedMembers(entries, name);
    if EntryOf(d, id).Page? {
      var i :| 0 <= i < |entries| && !entries[i].isDir && entries[i].path == name;
      assert Keeps(entries[i]);
    }
  }

  /** Up to 999999, pages are extracted in increasing order of their IDs. */
  lemma CollectedPagesInIdOrder(entries: seq<WalkEntry>, i: nat, j: nat, a: nat, b: nat)
    requires WalkOrder(entries)
    requires i < j < |Selected(entries)|
    requires Selected(entries)[i] == PageFilename(a) && Selected(entries)[j] == PageFilename(b)
    requires a <= 999999 && b <= 999999
    ensures a < b
  {
    SelectedAscending(entries);
    PageFilenameOrder(a, b);
  }

  /** How many of `filenames`, from the front, can be read. */
  function ReadablePrefix(filenames: seq<string>, read: string -> Option<seq<byte>>): (k: nat)
    ensures k <= |filenames|
    ensures forall i :: 0 <= i < k ==> read(filenames[i]).Some?
    ensures k < |filenames| ==> read(filenames[k]).None?
  {
    if filenames == [] || read(filenames[0]).None? then 0
    else
      var k := ReadablePrefix(filenames[1..], read);
      assert forall i :: 1 <= i < k + 1 ==> filenames[i] == filenames[1..][i - 1];
      k + 1
  }

  /** One record per file, in order, for files that can all be read;
      `extract` turns a file's text into its record. */
  function Records(filenames: seq<string>, read: string -> Option<seq<byte>>,
                   extract: string -> JournalInfo): seq<JournalInfo>
    requires forall i :: 0 <= i < |filenames| ==> read(filenames[i]).Some?
  {
    if filenames == [] then []
    else
      var n := |filenames| - 1;
      Records(filenames[..n], read, extract) + [extract(BytesToString(read(filenames[n]).value))]
  }

  /** The `i`-th record is the one extracted from the `i`-th file's bytes. */
  lemma {:induction false} RecordsAt(filenames: seq<string>, read: string -> Option<seq<byte>>,
                                     extract: string -> JournalInfo)
    requires forall i :: 0 <= i < |filenames| ==> read(filenames[i]).Some?
    ensures |Records(filenames, read, extract)| == |filenames|
    ensures forall i :: 0 <= i < |filenames| ==>
              Records(filenames, read, extract)[i] == extract(BytesToString(read(filenames[i]).value))
  {
    if filenames != [] {
      var n := |filenames| - 1;
      RecordsAt(filenames[..n], read, extract);
      forall i | 0 <= i < n
        ensures Records(filenames, read, extract)[i] == extract(BytesToString(read(filenames[i]).value))
      {
        assert filenames[..n][i] == filenames[i];
      }
    }
  }

  /** The record `extractJournalInfo` makes of a page, with `pup` fixed. */
  function ExtractWith(pup: Pup): string -> JournalInfo
  {
    (html: string) => ExtractJournalInfo(html, pup)
  }

  /** The loop of `extractFromFiles`, with the per-page extraction passed in:
      reads the files in order and extracts one record from each; the first
      file that cannot be read ends the loop, reported together with the
      records gathered so far. */
  method ExtractEach(filenames: seq<string>, read: string -> Option<seq<byte>>,
                     extract: string -> JournalInfo)
    returns (result: seq<JournalInfo>, failed: Option<string>)
    ensures var k := ReadablePrefix(filenames, read);
      && result == Records(filenames[..k], read, extract)
      && failed == (if k < |filenames| then Some(filenames[k]) else None)
  {
    result := [];
    var i := 0;
    while i < |filenames|
      invariant 0 <= i <= |filenames|
      invariant forall j :: 0 <= j < i ==> read(filenames[j]).Some?
      invariant result == Records(filenames[..i], read, extract)
    {
      var contents := read(filenames[i]);
      if contents.None? {
        assert ReadablePrefix(filenames, read) == i;
        return result, Some(filenames[i]);
      }
      var info := extract(BytesToString(contents.value));
      ghost var next := filenames[..i + 1];
      assert next[..i] == filenames[..i] && next[i] == filenames[i];
      result := result + [info];
      assert forall j :: 0 <= j < i + 1 ==> read(filenames[j]).Some?;
      i := i + 1;
    }
    assert filenames[..i] == filenames;
    assert ReadablePrefix(filenames, read) == i;
    return result, None;
  }

  /** `extractFromFiles`: the loop above with `extractJournalInfo` as the
      extraction. Its error branch after `extractJournalInfo` is never taken,
      that function always returning a nil error. */
  method ExtractFromFiles(filenames: seq<string>, read: string -> Option<seq<byte>>, pup: Pup)
    returns (result: seq<JournalInfo>, failed: Option<string>)
    ensures var k := ReadablePrefix(filenames, read);
      && result == Records(filenames[..k], read, ExtractWith(pup))
      && failed == (if k < |filenames| then Some(filenames[k]) else None)
  {
    result, failed := ExtractEach(filenames, read, ExtractWith(pup));
  }

  /** When every file can be read, there is one record per file, the `i`-th
      extracted from the `i`-th file, and no error. */
  lemma AllReadableGivesOneRecordEach(filenames: seq<string>, read: string -> Option<seq<byte>>, pup: Pup)
    requires forall i :: 0 <= i < |filenames| ==> read(filenames[i]).Some?
    ensures ReadablePrefix(filenames, read) == |filenames|
    ensures |Records(filenames, read, ExtractWith(pup))| == |filenames|
    ensures forall i :: 0 <= i < |filenames| ==>
              Records(filenames, read, ExtractWith(pup))[i]
                == ExtractJournalInfo(BytesToString(read(filenames[i]).value), pup)
  {
    RecordsAt(filenames, read, ExtractWith(pup));
  }
}
