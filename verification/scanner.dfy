/** `get_files_sorted_by_size` of superpmi-setup.py: walk a directory tree
    top-down, keep the managed artifacts, and order them by size, largest
    first.

    The file system is given as a tree of directory entries; the order of a
    directory's `children` is the order in which the system lists them. */
module Scanner {
  import opened Seqs
  import opened Strings
  import opened Packing

  /** A directory entry. `regular` is what `os.path.isfile` answers for a
      non-directory entry (false for a dangling link, a socket, ...). */
  datatype Node =
    | File(name: string, regular: bool, size: nat)
    | Dir(name: string, children: seq<Node>)

  /** One non-directory entry met by the walk: the path of the directory it
      was listed in, the names of the directories descended through below the
      top, and the entry itself. */
  datatype Listed = Listed(dir: string, ancestors: seq<string>, name: string, regular: bool, size: nat)

  /** The native binaries the script never partitions
      (`native_binaries_to_ignore`). */
  const NativeBinariesToIgnore: seq<string> := [
    "clrcompression.dll",
    "clretwrc.dll",
    "clrgc.dll",
    "clrjit.dll",
    "clrjit_unix_arm_x64.dll",
    "clrjit_unix_arm64_x64.dll",
    "clrjit_unix_x64_x64.dll",
    "clrjit_win_arm_x64.dll",
    "clrjit_win_arm64_x64.dll",
    "clrjit_win_x64_x64.dll",
    "clrjit_win_x86_x64.dll",
    "coreclr.dll",
    "CoreConsole.exe",
    "coredistools.dll",
    "CoreRun.exe",
    "CoreShim.dll",
    "createdump.exe",
    "crossgen.exe",
    "dbgshim.dll",
    "ilasm.exe",
    "ildasm.exe",
    "jitinterface_x64.dll",
    "linuxnonjit.dll",
    "mcs.exe",
    "mscordaccore.dll",
    "mscordbi.dll",
    "mscorrc.dll",
    "protononjit.dll",
    "superpmi.exe",
    "superpmi-shim-collector.dll",
    "superpmi-shim-counter.dll",
    "superpmi-shim-simple.dll"
  ]

  /** The non-directory entries of one directory, in listing order. */
  function LevelFiles(children: seq<Node>, dir: string, ancestors: seq<string>): (r: seq<Listed>)
    ensures forall i :: 0 <= i < |r| ==> r[i].dir == dir && r[i].ancestors == ancestors
    decreases |children|
  {
    if |children| == 0 then []
    else
      var last := children[|children| - 1];
      LevelFiles(children[..|children| - 1], dir, ancestors)
        + (if last.File? then [Listed(dir, ancestors, last.name, last.regular, last.size)] else [])
  }

  /** `os.walk(top, topdown=True)` with the caller removing the names in
      `exclDirs` from `dirs` at every level: the files of a directory come
      first, then the walks of its remaining subdirectories in listing
      order. */
  function Walk(children: seq<Node>, dir: string, ancestors: seq<string>, exclDirs: seq<string>): seq<Listed>
    decreases children, 1
  {
    LevelFiles(children, dir, ancestors) + WalkSubdirs(children, dir, ancestors, exclDirs)
  }

  function WalkSubdirs(children: seq<Node>, dir: string, ancestors: seq<string>, exclDirs: seq<string>): seq<Listed>
    decreases children, 0
  {
    if |children| == 0 then []
    else
      var last := children[|children| - 1];
      WalkSubdirs(children[..|children| - 1], dir, ancestors, exclDirs)
        + (if last.Dir? && last.name !in exclDirs
           then Walk(last.children, Join(dir, last.name), ancestors + [last.name], exclDirs)
           else [])
  }

  /** The same walk with nothing pruned. */
  function AllFiles(children: seq<Node>, dir: string, ancestors: seq<string>): seq<Listed>
    decreases children, 1
  {
    LevelFiles(children, dir, ancestors) + AllSubdirs(children, dir, ancestors)
  }

  function AllSubdirs(children: seq<Node>, dir: string, ancestors: seq<string>): seq<Listed>
    decreases children, 0
  {
    if |children| == 0 then []
    else
      var last := children[|children| - 1];
      AllSubdirs(children[..|children| - 1], dir, ancestors)
        + (if last.Dir? then AllFiles(last.children, Join(dir, last.name), ancestors + [last.name]) else [])
  }

  /** No directory on the way down from the top is excluded. */
  function Unpruned(exclDirs: seq<string>): Listed -> bool {
    (l: Listed) => forall k :: 0 <= k < |l.ancestors| ==> l.ancestors[k] !in exclDirs
  }

  /** The per-file tests of the walk's loop body: the name is not excluded,
      the path is a regular file, and the name ends in `.dll` or `.exe`. */
  function Candidate(exclFiles: seq<string>): Listed -> bool {
    (l: Listed) => l.name !in exclFiles && l.regular && (EndsWith(l.name, ".dll") || EndsWith(l.name, ".exe"))
  }

  /** `(path.join(file_path, name), getsize(...))`. */
  function Entry(l: Listed): FileEntry {
    FileEntry(Join(l.dir, l.name), l.size)
  }

  /** The list `filename_with_size` the walk builds, before sorting. */
  function Scan(root: string, top: seq<Node>, exclDirs: seq<string>, exclFiles: seq<string>): seq<FileEntry> {
    Map(Filter(Walk(top, root, [], exclDirs), Candidate(exclFiles)), Entry)
  }

  /** Every entry met below `ancestors` carries them as its prefix. */
  lemma {:induction false} AllFilesAncestors(children: seq<Node>, dir: string, ancestors: seq<string>)
    ensures forall i :: 0 <= i < |AllFiles(children, dir, ancestors)| ==>
              |AllFiles(children, dir, ancestors)[i].ancestors| >= |ancestors| &&
              AllFiles(children, dir, ancestors)[i].ancestors[..|ancestors|] == ancestors
    decreases children, 1
  {
    AllSubdirsAncestors(children, dir, ancestors);
  }

  lemma {:induction false} AllSubdirsAncestors(children: seq<Node>, dir: string, ancestors: seq<string>)
    ensures forall i :: 0 <= i < |AllSubdirs(children, dir, ancestors)| ==>
              |AllSubdirs(children, dir, ancestors)[i].ancestors| >= |ancestors| &&
              AllSubdirs(children, dir, ancestors)[i].ancestors[..|ancestors|] == ancestors
    decreases children, 0
  {
    if |children| > 0 {
      var last := children[|children| - 1];
      AllSubdirsAncestors(children[..|children| - 1], dir, ancestors);
      if last.Dir? {
        var below := ancestors + [last.name];
        AllFilesAncestors(last.children, Join(dir, last.name), below);
        forall l | l in AllFiles(last.children, Join(dir, last.name), below)
          ensures |l.ancestors| >= |ancestors| && l.ancestors[..|ancestors|] == ancestors
        {
          assert l.ancestors[..|below|][..|ancestors|] == ancestors;
        }
      }
    }
  }

  /** Pruning `dirs` in place skips exactly the subtrees under an excluded
      directory name: the pruned walk is the full walk with every entry
      below an excluded directory filtered out. */
  lemma {:induction false} WalkPrunes(children: seq<Node>, dir: string, ancestors: seq<string>, exclDirs: seq<string>)
    requires forall k :: 0 <= k < |ancestors| ==> ancestors[k] !in exclDirs
    ensures Walk(children, dir, ancestors, exclDirs)
            == Filter(AllFiles(children, dir, ancestors), Unpruned(exclDirs))
    decreases children, 1
  {
    var files := LevelFiles(children, dir, ancestors);
    FilterConcat(files, AllSubdirs(children, dir, ancestors), Unpruned(exclDirs));
    FilterAll(files, Unpruned(exclDirs));
    SubdirsPrune(children, dir, ancestors, exclDirs);
  }

  lemma {:induction false} SubdirsPrune(children: seq<Node>, dir: string, ancestors: seq<string>, exclDirs: seq<string>)
    requires forall k :: 0 <= k < |ancestors| ==> ancestors[k] !in exclDirs
    ensures WalkSubdirs(children, dir, ancestors, exclDirs)
            == Filter(AllSubdirs(children, dir, ancestors), Unpruned(exclDirs))
    decreases children, 0
  {
    if |children| > 0 {
      var rest, last := children[..|children| - 1], children[|children| - 1];
      var p := Unpruned(exclDirs);
      SubdirsPrune(rest, dir, ancestors, exclDirs);
      if last.Dir? {
        var sub, below := Join(dir, last.name), ancestors + [last.name];
        var all := AllFiles(last.children, sub, below);
        assert AllSubdirs(children, dir, ancestors) == AllSubdirs(rest, dir, ancestors) + all;
        FilterConcat(AllSubdirs(rest, dir, ancestors), all, p);
        if last.name !in exclDirs {
          assert WalkSubdirs(children, dir, ancestors, exclDirs)
              == WalkSubdirs(rest, dir, ancestors, exclDirs) + Walk(last.children, sub, below, exclDirs);
          WalkPrunes(last.children, sub, below, exclDirs);
        } else {
          assert WalkSubdirs(children, dir, ancestors, exclDirs) == WalkSubdirs(rest, dir, ancestors, exclDirs);
          PrunedSubtree(last.children, sub, ancestors, last.name, exclDirs);
        }
      } else {
        assert AllSubdirs(children, dir, ancestors) == AllSubdirs(rest, dir, ancestors);
        assert WalkSubdirs(children, dir, ancestors, exclDirs) == WalkSubdirs(rest, dir, ancestors, exclDirs);
      }
    }
  }

  /** Nothing below an excluded directory survives the pruning filter. */
  lemma PrunedSubtree(children: seq<Node>, dir: string, ancestors: seq<string>, name: string, exclDirs: seq<string>)
    requires name in exclDirs
    ensures Filter(AllFiles(children, dir, ancestors + [name]), Unpruned(exclDirs)) == []
  {
    var below := ancestors + [name];
    var all := AllFiles(children, dir, below);
    AllFilesAncestors(children, dir, below);
    forall i | 0 <= i < |all| ensures !Unpruned(exclDirs)(all[i]) {
      assert all[i].ancestors[..|below|] == below;
      assert all[i].ancestors[|ancestors|] == name;
    }
    FilterNone(all, Unpruned(exclDirs));
  }

  /** A scanned entry comes from a candidate file the walk reached, and its
      path ends with the file's name. */
  lemma ScanFrom(root: string, top: seq<Node>, exclDirs: seq<string>, exclFiles: seq<string>, e: FileEntry)
    requires e in Scan(root, top, exclDirs, exclFiles)
    ensures exists l :: l in Walk(top, root, [], exclDirs) && Candidate(exclFiles)(l) && e == Entry(l)
  {
    var kept := Filter(Walk(top, root, [], exclDirs), Candidate(exclFiles));
    FilterMembers(Walk(top, root, [], exclDirs), Candidate(exclFiles));
    var i :| 0 <= i < |kept| && Scan(root, top, exclDirs, exclFiles)[i] == e;
    assert kept[i] in kept;
  }

  /** Every candidate file the walk reaches is scanned. */
  lemma ScanHas(root: string, top: seq<Node>, exclDirs: seq<string>, exclFiles: seq<string>, l: Listed)
    requires l in Walk(top, root, [], exclDirs) && Candidate(exclFiles)(l)
    ensures Entry(l) in Scan(root, top, exclDirs, exclFiles)
  {
    var kept := Filter(Walk(top, root, [], exclDirs), Candidate(exclFiles));
    FilterMembers(Walk(top, root, [], exclDirs), Candidate(exclFiles));
    var i :| 0 <= i < |kept| && kept[i] == l;
    assert Scan(root, top, exclDirs, exclFiles)[i] == Entry(l);
  }

  /** A candidate's path ends in `.dll` or `.exe`: the test on the name
      carries over to the joined path. */
  lemma EntryPath(exclFiles: seq<string>, l: Listed)
    requires Candidate(exclFiles)(l)
    ensures EndsWith(Entry(l).path, ".dll") || EndsWith(Entry(l).path, ".exe")
  {
    if EndsWith(l.name, ".dll") {
      JoinSuffix(l.dir, l.name, ".dll");
    } else {
      JoinSuffix(l.dir, l.name, ".exe");
    }
  }

  /** Every scanned path ends in `.dll` or `.exe`. */
  lemma ScanPaths(root: string, top: seq<Node>, exclDirs: seq<string>, exclFiles: seq<string>, e: FileEntry)
    requires e in Scan(root, top, exclDirs, exclFiles)
    ensures EndsWith(e.path, ".dll") || EndsWith(e.path, ".exe")
  {
    ScanFrom(root, top, exclDirs, exclFiles, e);
    var l :| l in Walk(top, root, [], exclDirs) && Candidate(exclFiles)(l) && e == Entry(l);
    EntryPath(exclFiles, l);
  }

  // ---------------------------------------------------------------------
  // `pair.sort(key=lambda x: x[1], reverse=True)`: a stable sort by size,
  // largest first.

  /** Sizes never increase along the list. */
  predicate SortedBySize(s: seq<FileEntry>) {
    forall i, j :: 0 <= i < j < |s| ==> s[i].size >= s[j].size
  }

  /** The position before which every entry weighs at least `size`: the
      first entry lighter than `size`, or the end. */
  function Cut(s: seq<FileEntry>, size: nat): (m: nat)
    ensures m <= |s|
    ensures forall i :: 0 <= i < m ==> s[i].size >= size
    ensures m < |s| ==> s[m].size < size
    decreases |s|
  {
    if |s| == 0 || s[0].size < size then 0 else 1 + Cut(s[1..], size)
  }

  /** Insert `x` after every entry at least as large: among equal sizes the
      later arrival goes last, which is what keeps the sort stable. */
  function Insert(s: seq<FileEntry>, x: FileEntry): seq<FileEntry> {
    var m := Cut(s, x.size);
    s[..m] + [x] + s[m..]
  }

  /** The stable descending sort, one insertion per input entry in order. */
  function SortBySize(s: seq<FileEntry>): seq<FileEntry>
    decreases |s|
  {
    if |s| == 0 then [] else Insert(SortBySize(s[..|s| - 1]), s[|s| - 1])
  }

  function HasSize(size: nat): FileEntry -> bool {
    (f: FileEntry) => f.size == size
  }

  /** Inserting into a sorted list keeps it sorted. */
  lemma InsertSorted(s: seq<FileEntry>, x: FileEntry)
    requires SortedBySize(s)
    ensures SortedBySize(Insert(s, x))
  {
    var m := Cut(s, x.size);
    var r := Insert(s, x);
    SortedCut(s, x.size);
    forall i, j | 0 <= i < j < |r| ensures r[i].size >= r[j].size {
      InsertAt(s, x, i);
      InsertAt(s, x, j);
    }
  }

  /** Where each entry of the insertion comes from. */
  lemma InsertAt(s: seq<FileEntry>, x: FileEntry, k: nat)
    requires k <= |s|
    ensures var m := Cut(s, x.size);
            Insert(s, x)[k] == if k < m then s[k] else if k == m then x else s[k - 1]
  {
  }

  /** Inserting adds exactly `x`. */
  lemma InsertMultiset(s: seq<FileEntry>, x: FileEntry)
    ensures multiset(Insert(s, x)) == multiset(s) + multiset{x}
  {
    var m := Cut(s, x.size);
    assert s == s[..m] + s[m..];
  }

  /** Inserting puts `x` after every earlier entry of its size and leaves
      the other sizes alone. */
  lemma InsertFilter(s: seq<FileEntry>, x: FileEntry, size: nat)
    requires LighterAfterCut(s, x.size)
    ensures Filter(Insert(s, x), HasSize(size))
            == Filter(s, HasSize(size)) + (if x.size == size then [x] else [])
  {
    if x.size == size {
      InsertFilterSame(s, x);
    } else {
      InsertFilterOther(s, x, size);
    }
  }

  lemma InsertFilterSame(s: seq<FileEntry>, x: FileEntry)
    requires LighterAfterCut(s, x.size)
    ensures Filter(Insert(s, x), HasSize(x.size)) == Filter(s, HasSize(x.size)) + [x]
  {
    FilterBeforeCut(s, x.size);
    InsertFilterBeforeCut(s, x);
  }

  /** Entries of size `size` all come before the cut for `size`. */
  lemma FilterBeforeCut(s: seq<FileEntry>, size: nat)
    requires LighterAfterCut(s, size)
    ensures Filter(s, HasSize(size)) == Filter(s[..Cut(s, size)], HasSize(size))
  {
    var m := Cut(s, size);
    var p := HasSize(size);
    AfterCutOther(s, size);
    FilterSplit(s, m, p);
    assert Filter(s, p) == Filter(s[..m], p) + [];
  }

  /** Entries of the size of `x` in the insertion: those before the cut,
      then `x`. */
  lemma InsertFilterBeforeCut(s: seq<FileEntry>, x: FileEntry)
    requires LighterAfterCut(s, x.size)
    ensures Filter(Insert(s, x), HasSize(x.size)) == Filter(s[..Cut(s, x.size)], HasSize(x.size)) + [x]
  {
    var m := Cut(s, x.size);
    var p := HasSize(x.size);
    AfterCutOther(s, x.size);
    FilterSingle(x, p);
    InsertFilterSplit(s, x, p);
    assert Filter(Insert(s, x), p) == (Filter(s[..m], p) + [x]) + [];
  }

  lemma InsertFilterOther(s: seq<FileEntry>, x: FileEntry, size: nat)
    requires x.size != size
    ensures Filter(Insert(s, x), HasSize(size)) == Filter(s, HasSize(size))
  {
    InsertFilterSkip(s, x, HasSize(size));
    FilterSplit(s, Cut(s, x.size), HasSize(size));
  }

  /** An inserted entry the filter rejects leaves the two sides of the cut
      as they were. */
  lemma InsertFilterSkip(s: seq<FileEntry>, x: FileEntry, p: FileEntry -> bool)
    requires !p(x)
    ensures var m := Cut(s, x.size);
            Filter(Insert(s, x), p) == Filter(s[..m], p) + Filter(s[m..], p)
  {
    var m := Cut(s, x.size);
    FilterSingle(x, p);
    assert Filter([x], p) == [];
    InsertFilterSplit(s, x, p);
  }

  /** Filtering the insertion is filtering the entries before the cut, `x`,
      and the entries after it. */
  lemma InsertFilterSplit(s: seq<FileEntry>, x: FileEntry, p: FileEntry -> bool)
    ensures var m := Cut(s, x.size);
            Filter(Insert(s, x), p) == Filter(s[..m], p) + Filter([x], p) + Filter(s[m..], p)
  {
    var m := Cut(s, x.size);
    var a, b := s[..m], s[m..];
    assert Insert(s, x) == (a + [x]) + b;
    FilterConcat(a + [x], b, p);
    FilterConcat(a, [x], p);
  }

  /** Filtering a list is filtering its two halves. */
  lemma FilterSplit<T(!new)>(s: seq<T>, m: nat, p: T -> bool)
    requires m <= |s|
    ensures Filter(s, p) == Filter(s[..m], p) + Filter(s[m..], p)
  {
    assert s == s[..m] + s[m..];
    FilterConcat(s[..m], s[m..], p);
  }

  lemma FilterSingle<T(!new)>(x: T, p: T -> bool)
    ensures Filter([x], p) == if p(x) then [x] else []
  {
    assert [x][..0] == [];
  }

  /** Every entry from the cut for `size` on is lighter than `size`. */
  predicate LighterAfterCut(s: seq<FileEntry>, size: nat) {
    forall i :: Cut(s, size) <= i < |s| ==> s[i].size < size
  }

  /** In a sorted list the cut splits the heavy entries from the light. */
  lemma SortedCut(s: seq<FileEntry>, size: nat)
    requires SortedBySize(s)
    ensures LighterAfterCut(s, size)
  {
  }

  /** Nothing after the cut for `size` has that size. */
  lemma AfterCutOther(s: seq<FileEntry>, size: nat)
    requires LighterAfterCut(s, size)
    ensures Filter(s[Cut(s, size)..], HasSize(size)) == []
  {
    var m := Cut(s, size);
    var b := s[m..];
    forall i | 0 <= i < |b| ensures !HasSize(size)(b[i]) {
      assert b[i] == s[m + i];
    }
    FilterNone(b, HasSize(size));
  }

  /** The sort orders by size, largest first, is a permutation of its input,
      and keeps entries of equal size in their input order. */
  lemma {:induction false} SortBySizeSpec(s: seq<FileEntry>)
    ensures SortedBySize(SortBySize(s))
    ensures multiset(SortBySize(s)) == multiset(s)
    ensures forall size :: Filter(SortBySize(s), HasSize(size)) == Filter(s, HasSize(size))
    decreases |s|
  {
    if |s| > 0 {
      var prefix, x := s[..|s| - 1], s[|s| - 1];
      assert s == prefix + [x];
      SortBySizeSpec(prefix);
      InsertSorted(SortBySize(prefix), x);
      InsertMultiset(SortBySize(prefix), x);
      SortedCut(SortBySize(prefix), x.size);
      forall size ensures Filter(SortBySize(s), HasSize(size)) == Filter(s, HasSize(size)) {
        InsertFilter(SortBySize(prefix), x, size);
      }
    }
  }

  /** `get_files_sorted_by_size(src_directory, exclude_directories,
      exclude_files)`. */
  function FilesSortedBySize(root: string, top: seq<Node>, exclDirs: seq<string>, exclFiles: seq<string>): seq<FileEntry> {
    SortBySize(Scan(root, top, exclDirs, exclFiles))
  }

  /** The result holds exactly the scanned entries, largest first, and in
      walk order among entries of one size. */
  lemma FilesSortedBySizeSpec(root: string, top: seq<Node>, exclDirs: seq<string>, exclFiles: seq<string>)
    ensures var r := FilesSortedBySize(root, top, exclDirs, exclFiles);
            SortedBySize(r) &&
            multiset(r) == multiset(Scan(root, top, exclDirs, exclFiles)) &&
            forall size :: Filter(r, HasSize(size)) == Filter(Scan(root, top, exclDirs, exclFiles), HasSize(size))
  {
    SortBySizeSpec(Scan(root, top, exclDirs, exclFiles));
  }
}
