/** The copiers of superpmi-setup.py: `copy_directory`, `copy_files`, and
    the per-partition destination used by `partition_files`. A copy is
    modelled as the `(source, target)` pair handed to `shutil.copy2`. */
module Copying {
  import opened Seqs
  import opened Strings
  import opened Scanner

  /** One call `shutil.copy2(source, target)`. */
  datatype Copy = Copy(source: string, target: string)

  // ---------------------------------------------------------------------
  // copy_directory

  /** The test `copy_directory` applies to a non-directory item: it looks at
      the suffix of the destination path `dstItem`, and, off Windows, at
      whether the bare name `item` contains a dot. */
  predicate ShouldCopy(dstItem: string, item: string, isWindows: bool) {
    var common := EndsWith(dstItem, ".dll") || EndsWith(dstItem, ".py");
    if isWindows then common || EndsWith(dstItem, ".exe")
    else common || EndsWith(dstItem, ".so") || '.' !in item
  }

  /** The documented rule on a file name alone: `.dll` and `.py` everywhere,
      `.exe` on Windows, `.so` and dotless names elsewhere. */
  predicate AcceptsName(name: string, isWindows: bool) {
    EndsWith(name, ".dll") || EndsWith(name, ".py")
    || (isWindows && EndsWith(name, ".exe"))
    || (!isWindows && (EndsWith(name, ".so") || '.' !in name))
  }

  /** Testing the joined destination path is testing the item's name. */
  lemma ShouldCopyByName(dst: string, item: string, isWindows: bool)
    ensures ShouldCopy(Join(dst, item), item, isWindows) <==> AcceptsName(item, isWindows)
  {
    JoinSuffix(dst, item, ".dll");
    JoinSuffix(dst, item, ".py");
    JoinSuffix(dst, item, ".exe");
    JoinSuffix(dst, item, ".so");
  }

  /** `copy_directory(src_path, dst_path)`: list `src`, recurse into each
      subdirectory with both paths extended by its name, and copy each other
      item the test accepts, in listing order. */
  function CopyDirectory(children: seq<Node>, src: string, dst: string, isWindows: bool): seq<Copy>
    decreases children
  {
    if |children| == 0 then []
    else
      var last := children[|children| - 1];
      var srcItem, dstItem := Join(src, last.name), Join(dst, last.name);
      CopyDirectory(children[..|children| - 1], src, dst, isWindows)
        + (if last.Dir? then CopyDirectory(last.children, srcItem, dstItem, isWindows)
           else if ShouldCopy(dstItem, last.name, isWindows) then [Copy(srcItem, dstItem)]
           else [])
  }

  /** `root` extended by the components of `rel`, one `os.path.join` each. */
  function Under(root: string, rel: seq<string>): string
    decreases |rel|
  {
    if |rel| == 0 then root else Join(Under(root, rel[..|rel| - 1]), rel[|rel| - 1])
  }

  /** The copy `copy_directory` makes of a file met by the walk: the same
      relative place under the destination. */
  function Mirror(dst: string, l: Listed): Copy {
    Copy(Join(l.dir, l.name), Join(Under(dst, l.ancestors), l.name))
  }

  lemma UnderSnoc(root: string, rel: seq<string>, name: string)
    ensures Under(root, rel + [name]) == Join(Under(root, rel), name)
  {
    assert (rel + [name])[..|rel|] == rel;
  }

  /** Every copy mirrors an accepted file of the source tree. */
  lemma {:induction false} CopyDirectorySound(children: seq<Node>, src: string, dst: string, ancestors: seq<string>,
                                              isWindows: bool, c: Copy)
    requires c in CopyDirectory(children, src, Under(dst, ancestors), isWindows)
    ensures exists l :: l in AllFiles(children, src, ancestors) && AcceptsName(l.name, isWindows) && c == Mirror(dst, l)
    decreases children
  {
    var rest, last := children[..|children| - 1], children[|children| - 1];
    var here := Under(dst, ancestors);
    var srcItem, dstItem := Join(src, last.name), Join(here, last.name);
    var tail := if last.Dir? then CopyDirectory(last.children, srcItem, dstItem, isWindows)
                else if ShouldCopy(dstItem, last.name, isWindows) then [Copy(srcItem, dstItem)]
                else [];
    assert CopyDirectory(children, src, here, isWindows) == CopyDirectory(rest, src, here, isWindows) + tail;
    if c in CopyDirectory(rest, src, here, isWindows) {
      CopyDirectorySound(rest, src, dst, ancestors, isWindows, c);
      var l :| l in AllFiles(rest, src, ancestors) && AcceptsName(l.name, isWindows) && c == Mirror(dst, l);
      AllFilesGrow(children, src, ancestors, l);
    } else if last.Dir? {
      var below := ancestors + [last.name];
      UnderSnoc(dst, ancestors, last.name);
      CopyDirectorySound(last.children, srcItem, dst, below, isWindows, c);
      var l :| l in AllFiles(last.children, srcItem, below) && AcceptsName(l.name, isWindows) && c == Mirror(dst, l);
      SubdirInAllFiles(children, src, ancestors, l);
    } else {
      var l := Listed(src, ancestors, last.name, last.regular, last.size);
      ShouldCopyByName(here, last.name, isWindows);
      LastFileInAllFiles(children, src, ancestors);
      assert c == Mirror(dst, l);
    }
  }

  /** Every accepted file of the source tree is copied to its mirror. */
  lemma {:induction false} CopyDirectoryComplete(children: seq<Node>, src: string, dst: string, ancestors: seq<string>,
                                                 isWindows: bool, l: Listed)
    requires l in AllFiles(children, src, ancestors) && AcceptsName(l.name, isWindows)
    ensures Mirror(dst, l) in CopyDirectory(children, src, Under(dst, ancestors), isWindows)
    decreases children
  {
    var rest, last := children[..|children| - 1], children[|children| - 1];
    var here := Under(dst, ancestors);
    var srcItem, dstItem := Join(src, last.name), Join(here, last.name);
    var tail := if last.Dir? then CopyDirectory(last.children, srcItem, dstItem, isWindows)
                else if ShouldCopy(dstItem, last.name, isWindows) then [Copy(srcItem, dstItem)]
                else [];
    assert CopyDirectory(children, src, here, isWindows) == CopyDirectory(rest, src, here, isWindows) + tail;
    AllFilesShrink(children, src, ancestors, l);
    if l in AllFiles(rest, src, ancestors) {
      CopyDirectoryComplete(rest, src, dst, ancestors, isWindows, l);
    } else if last.Dir? {
      var below := ancestors + [last.name];
      UnderSnoc(dst, ancestors, last.name);
      CopyDirectoryComplete(last.children, srcItem, dst, below, isWindows, l);
    } else {
      ShouldCopyByName(here, last.name, isWindows);
      assert tail == [Mirror(dst, l)];
    }
  }

  /** Entries of a prefix of the listing are entries of the whole listing. */
  lemma AllFilesGrow(children: seq<Node>, dir: string, ancestors: seq<string>, l: Listed)
    requires |children| > 0 && l in AllFiles(children[..|children| - 1], dir, ancestors)
    ensures l in AllFiles(children, dir, ancestors)
  {
    var rest, last := children[..|children| - 1], children[|children| - 1];
    assert LevelFiles(children, dir, ancestors) == LevelFiles(rest, dir, ancestors)
      + (if last.File? then [Listed(dir, ancestors, last.name, last.regular, last.size)] else []);
    assert AllSubdirs(children, dir, ancestors) == AllSubdirs(rest, dir, ancestors)
      + (if last.Dir? then AllFiles(last.children, Join(dir, last.name), ancestors + [last.name]) else []);
  }

  /** The entries below the last item, when it is a directory, are entries
      of the listing. */
  lemma SubdirInAllFiles(children: seq<Node>, dir: string, ancestors: seq<string>, l: Listed)
    requires |children| > 0 && children[|children| - 1].Dir?
    requires l in AllFiles(children[|children| - 1].children, Join(dir, children[|children| - 1].name),
                           ancestors + [children[|children| - 1].name])
    ensures l in AllFiles(children, dir, ancestors)
  {
    var rest, last := children[..|children| - 1], children[|children| - 1];
    assert AllSubdirs(children, dir, ancestors) == AllSubdirs(rest, dir, ancestors)
      + AllFiles(last.children, Join(dir, last.name), ancestors + [last.name]);
  }

  /** The last item, when it is not a directory, is an entry of the listing. */
  lemma LastFileInAllFiles(children: seq<Node>, dir: string, ancestors: seq<string>)
    requires |children| > 0 && children[|children| - 1].File?
    ensures var last := children[|children| - 1];
            Listed(dir, ancestors, last.name, last.regular, last.size) in AllFiles(children, dir, ancestors)
  {
    var rest, last := children[..|children| - 1], children[|children| - 1];
    assert LevelFiles(children, dir, ancestors) == LevelFiles(rest, dir, ancestors)
      + [Listed(dir, ancestors, last.name, last.regular, last.size)];
  }

  /** An entry of the listing is an entry of its prefix, or comes from its
      last item. */
  lemma AllFilesShrink(children: seq<Node>, dir: string, ancestors: seq<string>, l: Listed)
    requires l in AllFiles(children, dir, ancestors)
    ensures |children| > 0
    ensures var rest, last := children[..|children| - 1], children[|children| - 1];
            || l in AllFiles(rest, dir, ancestors)
            || (last.Dir? && l in AllFiles(last.children, Join(dir, last.name), ancestors + [last.name]))
            || (last.File? && l == Listed(dir, ancestors, last.name, last.regular, last.size))
  {
    var rest, last := children[..|children| - 1], children[|children| - 1];
    var files, subdirs := LevelFiles(rest, dir, ancestors), AllSubdirs(rest, dir, ancestors);
    assert LevelFiles(children, dir, ancestors) == files
      + (if last.File? then [Listed(dir, ancestors, last.name, last.regular, last.size)] else []);
    assert AllSubdirs(children, dir, ancestors) == subdirs
      + (if last.Dir? then AllFiles(last.children, Join(dir, last.name), ancestors + [last.name]) else []);
    assert AllFiles(rest, dir, ancestors) == files + subdirs;
  }

  // ---------------------------------------------------------------------
  // copy_files

  /** How a file's target is derived from its path: as `copy_files` writes
      it, with `f.replace(src_path, dst_path)`, or as its docstring intends,
      by putting the path below `src_path` under `dst_path`. */
  datatype Rewrite = ByReplace | ByRebase

  /** Put `f` from under `src` under `dst`: the part of `f` after `src`, with
      its leading separators dropped, is joined to `dst`; a path not under
      `src` is left alone. */
  function Rebase(src: string, dst: string, f: string): string {
    if StartsWith(f, src) then Join(dst, LStripSep(f[|src|..])) else f
  }

  /** The target of `f` under the chosen rewrite. */
  function Move(how: Rewrite, src: string, dst: string, f: string): string {
    match how
    case ByReplace => Replace(f, src, dst)
    case ByRebase => Rebase(src, dst, f)
  }

  /** `copy_files(src_path, dst_path, file_names)`: one copy per file, in
      order, to the target the rewrite gives; `ByReplace` is the script as
      written. */
  function CopyFiles(how: Rewrite, src: string, dst: string, fileNames: seq<string>): (r: seq<Copy>)
    ensures |r| == |fileNames|
  {
    Map(fileNames, (f: string) => Copy(f, Move(how, src, dst, f)))
  }

  /** The relative path below the source directory is kept, whether or not
      `src` ends with a separator: a file joined under `src` is rebased to
      the same relative path joined under `dst`. */
  lemma RebaseJoin(src: string, dst: string, rel: string)
    requires rel == [] || rel[0] != Sep
    ensures Rebase(src, dst, Join(src, rel)) == Join(dst, rel)
  {
    var j := Join(src, rel);
    assert StartsWith(j, src);
    if |src| == 0 || src[|src| - 1] == Sep {
      assert j == src + rel;
      assert j[|src|..] == rel;
    } else {
      assert j == src + ([Sep] + rel);
      assert j[|src|..] == [Sep] + rel;
      assert ([Sep] + rel)[1..] == rel;
    }
  }

  /** A rebased file lands under `dst`, and rebasing it back recovers it. */
  lemma RebaseRoundTrip(src: string, dst: string, rel: string)
    requires rel == [] || rel[0] != Sep
    ensures StartsWith(Rebase(src, dst, Join(src, rel)), dst)
    ensures Rebase(dst, src, Rebase(src, dst, Join(src, rel))) == Join(src, rel)
  {
    RebaseJoin(src, dst, rel);
    RebaseJoin(dst, src, rel);
  }

  /** `f` sits directly below `src`, one separator after it, and `src` occurs
      nowhere else in `f`. */
  ghost predicate PlainlyUnder(src: string, f: string) {
    && |src| > 0 && StartsWith(f, src)
    && (forall i :: 0 < i ==> !OccursAt(f, src, i))
    && |f| > |src| && f[|src|] == Sep
    && (|f| == |src| + 1 || f[|src| + 1] != Sep)
  }

  /** A non-empty directory path without a trailing separator. */
  predicate PlainDir(dst: string) {
    |dst| > 0 && dst[|dst| - 1] != Sep
  }

  /** For a file plainly under `src` and a plain destination, `str.replace`
      performs exactly the intended rebase. */
  lemma ReplaceIsRebase(src: string, dst: string, f: string)
    requires PlainlyUnder(src, f) && PlainDir(dst)
    ensures Replace(f, src, dst) == Rebase(src, dst, f)
  {
    ReplaceSolePrefix(f, src, dst);
    var tail := f[|src|..];
    var rel := tail[1..];
    assert tail == [Sep] + rel;
    assert LStripSep(tail) == rel;
    assert Join(dst, rel) == dst + tail;
  }

  /** A source directory `d` holding a file that is also named `d`:
      `str.replace` rewrites both occurrences, so the copy is made as `b/b`
      instead of `b/d`. */
  lemma ReplaceRewritesInside()
    ensures Replace("d/d", "d", "b") == "b/b"
    ensures Rebase("d", "b", "d/d") == "b/d"
  {
    ReplaceBoth();
    JoinPlain("d", "d");
    JoinPlain("b", "d");
    assert "b" + [Sep] + "d" == "b/d";
    RebaseJoin("d", "b", "d");
  }

  /** Both `d`s of `d/d` are replaced. */
  lemma ReplaceBoth()
    ensures Replace("d/d", "d", "b") == "b/b"
  {
    assert Replace("d", "d", "b") == "b";
    assert Replace("/d", "d", "b") == "/b";
  }

  /** A source directory given with a trailing separator: `str.replace`
      swaps `in/` for `b` and loses the separator, so `in/x.dll` is copied
      as `bx.dll`, beside `b` instead of inside it. */
  lemma ReplaceDropsSeparator()
    ensures Replace(Join("in/", "x.dll"), "in/", "b") == "bx.dll"
    ensures Rebase("in/", "b", Join("in/", "x.dll")) == "b/x.dll"
  {
    assert Join("in/", "x.dll") == "in/x.dll";
    ReplaceLeading();
    JoinPlain("b", "x.dll");
    assert "b" + [Sep] + "x.dll" == "b/x.dll";
    RebaseJoin("in/", "b", "x.dll");
  }

  /** Only the leading `in/` of `in/x.dll` is replaced. */
  lemma ReplaceLeading()
    ensures Replace("in/x.dll", "in/", "b") == "bx.dll"
  {
    assert Replace("ll", "in/", "b") == "ll";
    assert Replace("dll", "in/", "b") == "dll";
    assert Replace(".dll", "in/", "b") == ".dll";
    assert Replace("x.dll", "in/", "b") == "x.dll";
  }

  // ---------------------------------------------------------------------
  // partition_files

  /** `path.join(dst_directory, str(index), "binaries")`. */
  function PartitionDir(dst: string, index: nat): string {
    Join(Join(dst, DecimalString(index)), "binaries")
  }

  /** The digits of the index, followed by `/binaries`, under `dst`. */
  lemma PartitionDirForm(dst: string, index: nat)
    ensures PartitionDir(dst, index) == Join(dst, DecimalString(index)) + "/binaries"
  {
    var d := DecimalString(index);
    var p := Join(dst, d);
    assert p[|p| - 1] == d[|d| - 1];
    JoinPlain(p, "binaries");
  }

  /** Two components without separators at the seam are joined by one. */
  lemma JoinPlain(a: string, b: string)
    requires |a| > 0 && a[|a| - 1] != Sep && |b| > 0 && b[0] != Sep
    ensures Join(a, b) == a + [Sep] + b
  {
  }

  /** Partition directories sit under the destination and end in
      `binaries`. */
  lemma PartitionDirUnder(dst: string, index: nat)
    ensures StartsWith(PartitionDir(dst, index), dst)
    ensures EndsWith(PartitionDir(dst, index), "/binaries")
  {
    PartitionDirForm(dst, index);
    var p := Join(dst, DecimalString(index));
    assert DecimalString(index)[0] != Sep;
    assert (p + "/binaries")[..|dst|] == p[..|dst|];
  }

  /** Distinct partitions never share a directory, so no copy of one
      partition can overwrite a file of another. */
  lemma PartitionDirInjective(dst: string, i: nat, j: nat)
    requires PartitionDir(dst, i) == PartitionDir(dst, j)
    ensures i == j
  {
    var di, dj := DecimalString(i), DecimalString(j);
    var pi, pj := Join(dst, di), Join(dst, dj);
    PartitionDirForm(dst, i);
    PartitionDirForm(dst, j);
    assert |pi| == |pj|;
    assert pi == (pi + "/binaries")[..|pi|];
    assert pj == (pj + "/binaries")[..|pj|];
    assert di[0] != Sep && dj[0] != Sep;
    JoinCancel(dst, di, dj);
    DecimalStringInjective(i, j);
  }

  /** Joining one directory with two relative names gives the same path only
      for the same name. */
  lemma JoinCancel(a: string, b: string, c: string)
    requires |b| > 0 && b[0] != Sep && |c| > 0 && c[0] != Sep
    requires Join(a, b) == Join(a, c)
    ensures b == c
  {
    var k := if |a| == 0 || a[|a| - 1] == Sep then |a| else |a| + 1;
    assert Join(a, b)[k..] == b;
    assert Join(a, c)[k..] == c;
  }
}
