/** The index of saved composers, src/commands/generate-index.ts: the list
    `data/files.json` of the `.json` files in `data/`, each as
    `./data/<name>`. The directory listing is a parameter, in the order the
    file system gives it. */
module GenerateIndex {
  import opened Strings
  import Ssg

  /** An entry of `data/`: its name and whether it is a regular file. */
  datatype DirEntry = DirEntry(name: string, isFile: bool)

  const IndexEntryPrefix: string := "./data/"

  /** A regular file whose name ends in `.json`. */
  predicate IsJsonFile(e: DirEntry) {
    e.isFile && EndsWith(e.name, ".json")
  }

  /** A `.json` file other than the index itself. */
  predicate IsComposerFile(e: DirEntry) {
    IsJsonFile(e) && e.name != Ssg.IndexFileName
  }

  /** `entry` is the index entry of one of `entries` that `keep` selects. */
  ghost predicate ListsOneOf(entries: seq<DirEntry>, keep: DirEntry -> bool, entry: string) {
    exists e :: e in entries && keep(e) && entry == IndexEntryPrefix + e.name
  }

  /** The index as the command builds it: every regular file whose name
      ends in `.json`, the index file itself included once it exists. */
  function IndexEntriesAsWritten(entries: seq<DirEntry>): (list: seq<string>)
    ensures forall i :: 0 <= i < |list| ==> ListsOneOf(entries, IsJsonFile, list[i])
    ensures forall e :: e in entries && IsJsonFile(e) ==> IndexEntryPrefix + e.name in list
  {
    if entries == [] then []
    else
      var e := entries[0];
      (if IsJsonFile(e) then [IndexEntryPrefix + e.name] else [])
        + IndexEntriesAsWritten(entries[1..])
  }

  /** The listing is read in order: the index of two parts of the listing
      is the index of the first part, then that of the second. */
  lemma {:induction false} IndexEntriesAsWrittenAppend(a: seq<DirEntry>, b: seq<DirEntry>)
    ensures IndexEntriesAsWritten(a + b) == IndexEntriesAsWritten(a) + IndexEntriesAsWritten(b)
  {
    if a == [] {
      assert a + b == b;
    } else {
      assert (a + b)[1..] == a[1..] + b;
      IndexEntriesAsWrittenAppend(a[1..], b);
    }
  }

  /** One entry of the listing gives its own index entry, or none. */
  lemma IndexEntriesAsWrittenOfOne(e: DirEntry)
    ensures IndexEntriesAsWritten([e]) == if IsJsonFile(e) then [IndexEntryPrefix + e.name] else []
  {
    assert [e][1..] == [];
  }

  /** On the first run, before the index exists, the command writes the
      corrected list: the same entries, in the same order. */
  lemma {:induction false} FirstRunIndex(entries: seq<DirEntry>)
    requires DirEntry(Ssg.IndexFileName, true) !in entries
    ensures IndexEntriesAsWritten(entries) == IndexEntries(entries)
  {
    if entries != [] {
      assert entries[0] in entries;
      assert IsJsonFile(entries[0]) ==> entries[0].name != Ssg.IndexFileName;
      FirstRunIndex(entries[1..]);
    }
  }

  /** From the second run on, `data/` holds the index it writes, and the
      index lists itself: the preview would then load the list as a
      composer file named "files". */
  lemma IndexListsItself(entries: seq<DirEntry>)
    requires DirEntry(Ssg.IndexFileName, true) in entries
    ensures IndexEntryPrefix + Ssg.IndexFileName in IndexEntriesAsWritten(entries)
  {
    JsonName(Ssg.IndexFileName, 5);
  }

  lemma JsonName(name: string, n: nat)
    requires n <= |name| && name[n..] == ".json"
    ensures IsJsonFile(DirEntry(name, true))
  {
  }

  /** The index as evidently intended, and as the static build's data list
      builds it (preview/ssg.ts:59): the `.json` files but the index itself. */
  function IndexEntries(entries: seq<DirEntry>): (list: seq<string>)
    ensures IndexEntryPrefix + Ssg.IndexFileName !in list
    ensures forall i :: 0 <= i < |list| ==> ListsOneOf(entries, IsComposerFile, list[i])
    ensures forall e :: e in entries && IsComposerFile(e) ==> IndexEntryPrefix + e.name in list
  {
    if entries == [] then []
    else
      var e := entries[0];
      var rest := IndexEntries(entries[1..]);
      if IsComposerFile(e) then
        PrefixCancels(IndexEntryPrefix, e.name, Ssg.IndexFileName);
        [IndexEntryPrefix + e.name] + rest
      else rest
  }

  lemma PrefixCancels(p: string, a: string, b: string)
    ensures p + a == p + b ==> a == b
  {
    assert (p + a)[|p|..] == a && (p + b)[|p|..] == b;
  }

  lemma ConcatAssoc(a: string, b: string, c: string)
    ensures a + (b + c) == (a + b) + c
  {
  }

  function NamesOf(entries: seq<DirEntry>): (names: seq<string>)
    ensures |names| == |entries|
    ensures forall i :: 0 <= i < |entries| ==> names[i] == entries[i].name
  {
    seq(|entries|, i requires 0 <= i < |entries| => entries[i].name)
  }

  lemma NamesOfTail(entries: seq<DirEntry>)
    requires entries != []
    ensures NamesOf(entries) == [entries[0].name] + NamesOf(entries[1..])
  {
  }

  /** The corrected index lists the copied files of the built site, in the
      same order, under `./data/`. */
  lemma {:induction false} IndexIsCopiedFiles(entries: seq<DirEntry>)
    requires forall i :: 0 <= i < |entries| ==> entries[i].isFile
    ensures |IndexEntries(entries)| == |Ssg.CopiedFiles(NamesOf(entries))|
    ensures forall i :: 0 <= i < |IndexEntries(entries)| ==>
      IndexEntries(entries)[i] == IndexEntryPrefix + Ssg.CopiedFiles(NamesOf(entries))[i]
  {
    if entries != [] {
      IndexIsCopiedFiles(entries[1..]);
      CopiedFilesStep(entries);
      var keep := IsComposerFile(entries[0]);
      assert IndexEntries(entries)
          == (if keep then [IndexEntryPrefix + entries[0].name] else []) + IndexEntries(entries[1..]);
      ConsPrefixed(IndexEntries(entries), Ssg.CopiedFiles(NamesOf(entries)),
                   IndexEntries(entries[1..]), Ssg.CopiedFiles(NamesOf(entries[1..])), keep, entries[0].name);
    }
  }

  /** One step of the site's copy list over a directory of regular files. */
  lemma CopiedFilesStep(entries: seq<DirEntry>)
    requires entries != [] && entries[0].isFile
    ensures Ssg.CopiedFiles(NamesOf(entries))
         == (if IsComposerFile(entries[0]) then [entries[0].name] else []) + Ssg.CopiedFiles(NamesOf(entries[1..]))
  {
    NamesOfTail(entries);
    assert NamesOf(entries)[1..] == NamesOf(entries[1..]);
  }

  /** Prefixing is kept by putting the same element in front of both lists. */
  lemma ConsPrefixed(list: seq<string>, files: seq<string>, listRest: seq<string>, filesRest: seq<string>,
                     keep: bool, name: string)
    requires |listRest| == |filesRest|
    requires forall i :: 0 <= i < |listRest| ==> listRest[i] == IndexEntryPrefix + filesRest[i]
    requires list == (if keep then [IndexEntryPrefix + name] else []) + listRest
    requires files == (if keep then [name] else []) + filesRest
    ensures |list| == |files|
    ensures forall i :: 0 <= i < |list| ==> list[i] == IndexEntryPrefix + files[i]
  {
    if keep {
      forall i | 0 < i < |list| ensures list[i] == IndexEntryPrefix + files[i] {
        assert list[i] == listRest[i - 1] && files[i] == filesRest[i - 1];
      }
    } else {
      assert list == listRest && files == filesRest;
    }
  }

  /** On a directory of regular files, the corrected index is the list the
      built site gets, each entry relative (`./data/` for `/data/`). */
  lemma IndexAgreesWithSite(entries: seq<DirEntry>)
    requires forall i :: 0 <= i < |entries| ==> entries[i].isFile
    ensures |IndexEntries(entries)| == |Ssg.DataFileList(NamesOf(entries))|
    ensures forall i :: 0 <= i < |IndexEntries(entries)| ==>
      IndexEntries(entries)[i] == "." + Ssg.DataFileList(NamesOf(entries))[i]
  {
    IndexIsCopiedFiles(entries);
    var names := NamesOf(entries);
    RelativeEntries(IndexEntries(entries), Ssg.DataFileList(names), Ssg.CopiedFiles(names));
  }

  /** Entries `./data/<f>` and `/data/<f>` of the same files differ by the
      leading dot only. */
  lemma RelativeEntries(relative: seq<string>, absolute: seq<string>, files: seq<string>)
    requires |relative| == |files| == |absolute|
    requires forall i :: 0 <= i < |files| ==> relative[i] == IndexEntryPrefix + files[i]
    requires forall i :: 0 <= i < |files| ==> absolute[i] == "/data/" + files[i]
    ensures forall i :: 0 <= i < |relative| ==> relative[i] == "." + absolute[i]
  {
    assert IndexEntryPrefix == "." + "/data/";
    forall i | 0 <= i < |relative| ensures relative[i] == "." + absolute[i] {
      ConcatAssoc(".", "/data/", files[i]);
    }
  }
}
