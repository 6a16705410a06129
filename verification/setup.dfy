/** The pure decisions of the setup script's entry points: the `max_size`
    argument, the Helix queue for the platform, and `partition_files`, which
    scans the input, packs it and lays each partition out under the
    destination. */
module Setup {
  import opened Wrappers
  import opened Seqs
  import opened Strings
  import opened Packing
  import opened Scanner
  import opened Copying

  /** Bytes per megabyte, as the script counts them. */
  const Megabyte: nat := 1000 * 1000

  /** The argument's `modify_arg`: a numeric string `s` becomes
      `int(s) * 1000 * 1000`; a missing or non-numeric argument becomes 0. */
  function ConvertMaxSize(arg: Option<string>): nat {
    if arg.Some? && IsNumeric(arg.value) then ParseDecimal(arg.value) * Megabyte else 0
  }

  /** `setup_args` for `max_size`: convert, then insist on a positive
      value. */
  function ValidateMaxSize(arg: Option<string>): (r: Result<nat>)
    ensures r.Ok? <==> arg.Some? && IsNumeric(arg.value) && ParseDecimal(arg.value) > 0
    ensures r.Ok? ==> r.value > 0 && r.value % Megabyte == 0 && r.value / Megabyte == ParseDecimal(arg.value)
    ensures r.Err? ==> r.message == "Please enter valid positive numeric max_size"
  {
    var bytes := ConvertMaxSize(arg);
    if bytes > 0 then Ok(bytes) else Err("Please enter valid positive numeric max_size")
  }

  /** Writing a positive size in megabytes and validating it gives that many
      megabytes in bytes; zero is refused. */
  lemma ValidateMaxSizeRoundTrip(mb: nat)
    ensures ValidateMaxSize(Some(DecimalString(mb))) == if mb > 0 then Ok(mb * Megabyte) else Err("Please enter valid positive numeric max_size")
  {
    ParseDecimalString(mb);
  }

  // ---------------------------------------------------------------------
  // The Helix queue

  const WindowsAmd64 := "Windows.10.Amd64"
  const WindowsArm64 := "Windows.10.Arm64"
  const UbuntuAmd64 := "Ubuntu.1804.Amd64"
  const UbuntuArm32 := "(Ubuntu.1804.Arm32)Ubuntu.1804.Armarch@mcr.microsoft.com/dotnet-buildtools/prereqs:ubuntu-18.04-helix-arm32v7-bfcd90a-20200121150440"
  const UbuntuArm64 := "(Ubuntu.1804.Arm64)Ubuntu.1804.ArmArch@mcr.microsoft.com/dotnet-buildtools/prereqs:ubuntu-18.04-helix-arm64v8-a45aeeb-20190620155855"

  /** The queue `main` picks: on Windows, the Arm64 queue for `arm64` and the
      Amd64 queue otherwise; elsewhere, the Arm32 or Arm64 container for
      `arm` and `arm64` and the Ubuntu Amd64 queue otherwise. */
  function HelixQueue(isWindows: bool, arch: string): (q: string)
    ensures isWindows ==> q in {WindowsAmd64, WindowsArm64}
    ensures !isWindows ==> q in {UbuntuAmd64, UbuntuArm32, UbuntuArm64}
    ensures (q == WindowsArm64 || q == UbuntuArm64) <==> arch == "arm64"
    ensures q == UbuntuArm32 <==> !isWindows && arch == "arm"
    ensures DocumentedQueue(isWindows, arch).Some? ==> q == DocumentedQueue(isWindows, arch).value
  {
    if isWindows then
      if arch == "arm64" then WindowsArm64 else WindowsAmd64
    else if arch == "arm" then UbuntuArm32
    else if arch == "arm64" then UbuntuArm64
    else UbuntuAmd64
  }

  /** The queue table in the script's header; `None` where it shows `-`. */
  function DocumentedQueue(isWindows: bool, arch: string): Option<string> {
    match (isWindows, arch)
    case (true, "x86") => Some(WindowsAmd64)
    case (true, "x64") => Some(WindowsAmd64)
    case (true, "arm64") => Some(WindowsArm64)
    case (false, "x64") => Some(UbuntuAmd64)
    case (false, "arm") => Some(UbuntuArm32)
    case (false, "arm64") => Some(UbuntuArm64)
    case _ => None
  }

  // ---------------------------------------------------------------------
  // partition_files

  function PathOf(f: FileEntry): string {
    f.path
  }

  function SourceOf(c: Copy): string {
    c.source
  }

  /** `dst/<i>/binaries` for every partition index `i`. */
  function PartitionDirs(dst: string): nat -> string {
    (i: nat) => PartitionDir(dst, i)
  }

  /** The copies of the partitions `d`, in partition order: the files of
      partition `i` go to `dirOf(i)` by the rewrite `how`. */
  function Layout(how: Rewrite, src: string, dirOf: nat -> string, d: Partitions): seq<Copy>
    decreases |d|
  {
    if |d| == 0 then []
    else
      var i := |d| - 1;
      Layout(how, src, dirOf, d[..i]) + CopyFiles(how, src, dirOf(i), Map(d[i].files, PathOf))
  }

  /** The layout copies every partitioned file once, in partition order:
      its sources are the partitions' files, flattened. */
  lemma {:induction false} LayoutSources(how: Rewrite, src: string, dirOf: nat -> string, d: Partitions)
    ensures Map(Layout(how, src, dirOf, d), SourceOf) == Map(Flatten(d), PathOf)
    decreases |d|
  {
    if |d| > 0 {
      var i := |d| - 1;
      var files := d[i].files;
      var head, tail := Layout(how, src, dirOf, d[..i]), CopyFiles(how, src, dirOf(i), Map(files, PathOf));
      LayoutSources(how, src, dirOf, d[..i]);
      MapConcat(head, tail, SourceOf);
      MapConcat(Flatten(d[..i]), files, PathOf);
      assert Map(tail, SourceOf) == Map(files, PathOf);
    }
  }

  /** Every file of partition `i` is copied from its own path to the target
      the rewrite gives it under `dirOf(i)`. */
  lemma {:induction false} LayoutTargets(how: Rewrite, src: string, dirOf: nat -> string, d: Partitions, i: nat, f: FileEntry)
    requires i < |d| && f in d[i].files
    ensures Copy(f.path, Move(how, src, dirOf(i), f.path)) in Layout(how, src, dirOf, d)
    decreases |d|
  {
    var n := |d| - 1;
    var c := Copy(f.path, Move(how, src, dirOf(i), f.path));
    var head, tail := Layout(how, src, dirOf, d[..n]), CopyFiles(how, src, dirOf(n), Map(d[n].files, PathOf));
    assert Layout(how, src, dirOf, d) == head + tail;
    if i < n {
      assert d[..n][i] == d[i];
      LayoutTargets(how, src, dirOf, d[..n], i, f);
      assert c in head;
    } else {
      CopyFilesHas(how, src, dirOf(n), d[n].files, f);
      assert c in tail;
    }
  }

  /** `copy_files` copies each listed file to the target the rewrite gives. */
  lemma CopyFilesHas(how: Rewrite, src: string, dst: string, files: seq<FileEntry>, f: FileEntry)
    requires f in files
    ensures Copy(f.path, Move(how, src, dst, f.path)) in CopyFiles(how, src, dst, Map(files, PathOf))
  {
    var k :| 0 <= k < |files| && files[k] == f;
    assert CopyFiles(how, src, dst, Map(files, PathOf))[k] == Copy(f.path, Move(how, src, dst, f.path));
  }

  /** One more partition adds its copies at the end. */
  lemma LayoutSnoc(how: Rewrite, src: string, dirOf: nat -> string, d: Partitions, n: nat)
    requires n < |d|
    ensures Layout(how, src, dirOf, d[..n + 1])
            == Layout(how, src, dirOf, d[..n]) + CopyFiles(how, src, dirOf(n), Map(d[n].files, PathOf))
  {
    assert d[..n + 1][..n] == d[..n];
  }

  /** Where every file lies plainly under the source directory and every
      partition directory is plain, the script's `str.replace` lays the
      partitions out exactly as the rebase does. */
  lemma {:induction false} LayoutAgrees(src: string, dirOf: nat -> string, d: Partitions)
    requires forall f :: f in Flatten(d) ==> PlainlyUnder(src, f.path)
    requires forall i :: 0 <= i < |d| ==> PlainDir(dirOf(i))
    ensures Layout(ByReplace, src, dirOf, d) == Layout(ByRebase, src, dirOf, d)
    decreases |d|
  {
    if |d| > 0 {
      var n := |d| - 1;
      var names := Map(d[n].files, PathOf);
      var target := dirOf(n);
      assert Flatten(d) == Flatten(d[..n]) + d[n].files;
      LayoutAgrees(src, dirOf, d[..n]);
      forall k | 0 <= k < |names|
        ensures CopyFiles(ByReplace, src, target, names)[k] == CopyFiles(ByRebase, src, target, names)[k]
      {
        assert d[n].files[k] in Flatten(d);
        ReplaceIsRebase(src, target, names[k]);
      }
    }
  }

  /** Partition directories end in `binaries`, never in a separator. */
  lemma PartitionDirPlain(dst: string, index: nat)
    ensures PlainDir(PartitionDir(dst, index))
  {
    PartitionDirUnder(dst, index);
  }

  /** Under `dst/<i>/binaries`, a source directory that every file lies
      plainly under makes the script's layout the intended one. */
  lemma PartitionLayoutAgrees(src: string, dst: string, d: Partitions)
    requires forall f :: f in Flatten(d) ==> PlainlyUnder(src, f.path)
    ensures Layout(ByReplace, src, PartitionDirs(dst), d) == Layout(ByRebase, src, PartitionDirs(dst), d)
  {
    var dirOf := PartitionDirs(dst);
    forall i | 0 <= i < |d| ensures PlainDir(dirOf(i)) {
      PartitionDirPlain(dst, i);
    }
    LayoutAgrees(src, dirOf, d);
  }

  /** The `index` loop of `partition_files`: partition `index` is copied into
      `dst/<index>/binaries`, for `index = 0, 1, ...`. With `ByReplace` this
      is the script's loop; with `ByRebase`, the corrected one. */
  method CopyPartitions(how: Rewrite, src: string, dst: string, partitions: Partitions) returns (copies: seq<Copy>)
    ensures copies == Layout(how, src, PartitionDirs(dst), partitions)
    ensures Map(copies, SourceOf) == Map(Flatten(partitions), PathOf)
    ensures (forall f :: f in Flatten(partitions) ==> PlainlyUnder(src, f.path))
            ==> copies == Layout(ByRebase, src, PartitionDirs(dst), partitions)
  {
    var dirOf := PartitionDirs(dst);
    copies := [];
    var index := 0;
    while index < |partitions|
      invariant index <= |partitions|
      invariant copies == Layout(how, src, dirOf, partitions[..index])
    {
      var fileNames := Map(partitions[index].files, PathOf);
      LayoutSnoc(how, src, dirOf, partitions, index);
      copies := copies + CopyFiles(how, src, dirOf(index), fileNames);
      index := index + 1;
    }
    assert partitions[..index] == partitions;
    LayoutSources(how, src, dirOf, partitions);
    if forall f :: f in Flatten(partitions) ==> PlainlyUnder(src, f.path) {
      PartitionLayoutAgrees(src, dst, partitions);
    }
  }

  /** `partition_files(src_directory, dst_directory, max_size)`: scan, pack
      first-fit, then copy each partition into its own directory. */
  method PartitionFiles(how: Rewrite, src: string, dst: string, maxSize: int, top: seq<Node>,
                        exclDirs: seq<string>, exclFiles: seq<string>)
    returns (copies: seq<Copy>, count: nat)
    ensures var d := Pack(FilesSortedBySize(src, top, exclDirs, exclFiles), maxSize);
            count == |d| && copies == Layout(how, src, PartitionDirs(dst), d)
            && Map(copies, SourceOf) == Map(Flatten(d), PathOf)
    ensures var d := Pack(FilesSortedBySize(src, top, exclDirs, exclFiles), maxSize);
            (forall f :: f in Flatten(d) ==> PlainlyUnder(src, f.path))
            ==> copies == Layout(ByRebase, src, PartitionDirs(dst), d)
  {
    var sortedBySize := FilesSortedBySize(src, top, exclDirs, exclFiles);
    var partitions, _, _ := FirstFit(sortedBySize, maxSize);
    copies := CopyPartitions(how, src, dst, partitions);
    count := |partitions|;
  }

  /** `partition_files` as `main` calls it: the default exclusions, and the
      script's `str.replace` rewrite. */
  method PartitionInput(src: string, dst: string, maxSize: int, top: seq<Node>)
    returns (copies: seq<Copy>, count: nat)
    ensures var d := Pack(FilesSortedBySize(src, top, [], NativeBinariesToIgnore), maxSize);
            count == |d| && copies == Layout(ByReplace, src, PartitionDirs(dst), d)
            && Map(copies, SourceOf) == Map(Flatten(d), PathOf)
  {
    copies, count := PartitionFiles(ByReplace, src, dst, maxSize, top, [], NativeBinariesToIgnore);
  }
}
