/** The greedy first-fit bin packer `first_fit` of superpmi-setup.py.

    The script's `partitions` is a Python dictionary from partition index
    to the list of files in it. A Python dictionary iterates in insertion
    order, so it is modelled as the sequence of its items in that order. */
module Packing {
  import opened Seqs

  /** One scanned artifact: its full path and its size in bytes. */
  datatype FileEntry = FileEntry(path: string, size: nat)

  /** One item of the `partitions` dictionary. */
  datatype Slot = Slot(key: int, files: seq<FileEntry>)

  /** The `partitions` dictionary, as its items in insertion order. */
  type Partitions = seq<Slot>

  /** `sum(n for _, n in files)`: the bytes held by a list of files. */
  function Size(files: seq<FileEntry>): nat
    decreases |files|
  {
    if |files| == 0 then 0 else Size(files[..|files| - 1]) + files[|files| - 1].size
  }

  lemma {:induction false} SizeConcat(a: seq<FileEntry>, b: seq<FileEntry>)
    ensures Size(a + b) == Size(a) + Size(b)
    decreases |b|
  {
    if |b| > 0 {
      assert (a + b)[..|a + b| - 1] == a + b[..|b| - 1];
      SizeConcat(a, b[..|b| - 1]);
    } else {
      assert a + b == a;
    }
  }

  /** Partition keys are `0 .. n-1` in insertion order. */
  predicate Dense(d: Partitions) {
    forall i :: 0 <= i < |d| ==> d[i].key == i
  }

  /** No partition is empty. */
  predicate NoneEmpty(d: Partitions) {
    forall i :: 0 <= i < |d| ==> |d[i].files| > 0
  }

  /** Every partition holds fewer than `maxSize` bytes. */
  predicate Bounded(d: Partitions, maxSize: int) {
    forall i :: 0 <= i < |d| ==> Size(d[i].files) < maxSize
  }

  /** Dictionary item assignment `d[k] = v`: an existing key keeps its
      position and gets the new value, a new key is added at the end. */
  function Store(d: Partitions, k: int, v: seq<FileEntry>): (r: Partitions)
    ensures (forall i :: 0 <= i < |d| ==> d[i].key != k) ==> r == d + [Slot(k, v)]
    decreases |d|
  {
    if |d| == 0 then [Slot(k, v)]
    else if d[0].key == k then [Slot(k, v)] + d[1..]
    else [d[0]] + Store(d[1..], k, v)
  }

  /** Storing under an existing key replaces its value in place. */
  lemma {:induction false} StoreExisting(d: Partitions, k: int, v: seq<FileEntry>, i: nat)
    requires i < |d| && d[i].key == k
    requires forall h :: 0 <= h < i ==> d[h].key != k
    ensures Store(d, k, v) == d[i := Slot(k, v)]
    decreases |d|
  {
    if i > 0 {
      assert d[0].key != k;
      StoreExisting(d[1..], k, v, i - 1);
      assert [d[0]] + d[1..][i - 1 := Slot(k, v)] == d[i := Slot(k, v)];
    }
  }

  /** The inner loop of `first_fit`: the position of the first partition,
      from `start` on, that can take `size` more bytes and stay below
      `maxSize`, or `|d|` when none can. */
  function FirstFitIndex(d: Partitions, size: nat, maxSize: int, start: nat): (j: nat)
    requires start <= |d|
    ensures start <= j <= |d|
    ensures j < |d| ==> Size(d[j].files) + size < maxSize
    decreases |d| - start
  {
    if start == |d| then |d|
    else if Size(d[start].files) + size < maxSize then start
    else FirstFitIndex(d, size, maxSize, start + 1)
  }

  /** No partition scanned before the chosen one could take the file. */
  lemma {:induction false} FirstFitIndexIsFirst(d: Partitions, size: nat, maxSize: int, start: nat)
    requires start <= |d|
    ensures forall h :: start <= h < FirstFitIndex(d, size, maxSize, start) ==>
                        Size(d[h].files) + size >= maxSize
    decreases |d| - start
  {
    if start < |d| && Size(d[start].files) + size >= maxSize {
      FirstFitIndexIsFirst(d, size, maxSize, start + 1);
    }
  }

  /** One iteration of the outer loop of `first_fit`: a file at least
      `maxSize` bytes large is dropped; any other is appended to the first
      partition it fits in, or stored under key `len(partitions)`. */
  function Place(d: Partitions, f: FileEntry, maxSize: int): (r: Partitions)
    ensures f.size >= maxSize ==> r == d
  {
    if f.size >= maxSize then d
    else
      var j := FirstFitIndex(d, f.size, maxSize, 0);
      if j < |d| then d[j := Slot(d[j].key, d[j].files + [f])]
      else Store(d, |d|, [f])
  }

  /** With dense keys, the key `len(partitions)` is new, so the dictionary
      store opens a partition at the end. */
  lemma PlaceShape(d: Partitions, f: FileEntry, maxSize: int)
    requires Dense(d) && f.size < maxSize
    ensures var j := FirstFitIndex(d, f.size, maxSize, 0);
      Place(d, f, maxSize) == if j < |d| then d[j := Slot(j, d[j].files + [f])] else d + [Slot(|d|, [f])]
  {
  }

  /** Placing a file opens a partition exactly when no existing one can
      take it. */
  lemma PlaceLength(d: Partitions, f: FileEntry, maxSize: int)
    requires Dense(d)
    ensures |Place(d, f, maxSize)| ==
      if f.size < maxSize && FirstFitIndex(d, f.size, maxSize, 0) == |d| then |d| + 1 else |d|
  {
    if f.size < maxSize {
      PlaceShape(d, f, maxSize);
    }
  }

  /** Placing a file keeps the keys dense, no partition empty and every
      partition below the budget. */
  lemma PlaceKeeps(d: Partitions, f: FileEntry, maxSize: int)
    requires Dense(d) && NoneEmpty(d) && Bounded(d, maxSize)
    ensures var r := Place(d, f, maxSize);
      Dense(r) && NoneEmpty(r) && Bounded(r, maxSize) && |d| <= |r| <= |d| + 1
  {
    if f.size < maxSize {
      PlaceShape(d, f, maxSize);
      var j := FirstFitIndex(d, f.size, maxSize, 0);
      if j < |d| {
        AppendKeeps(d, j, f, maxSize);
      } else {
        OpenKeeps(d, f, maxSize);
      }
    }
  }

  /** Appending to a partition with room keeps the invariants. */
  lemma AppendKeeps(d: Partitions, j: nat, f: FileEntry, maxSize: int)
    requires Dense(d) && NoneEmpty(d) && Bounded(d, maxSize)
    requires j < |d| && Size(d[j].files) + f.size < maxSize
    ensures var r := d[j := Slot(j, d[j].files + [f])];
      Dense(r) && NoneEmpty(r) && Bounded(r, maxSize)
  {
    SizeConcat(d[j].files, [f]);
    SizeOne(f);
  }

  /** Opening a partition for a file below the budget keeps the
      invariants. */
  lemma OpenKeeps(d: Partitions, f: FileEntry, maxSize: int)
    requires Dense(d) && NoneEmpty(d) && Bounded(d, maxSize) && f.size < maxSize
    ensures var r := d + [Slot(|d|, [f])];
      Dense(r) && NoneEmpty(r) && Bounded(r, maxSize)
  {
    SizeOne(f);
  }

  /** `first_fit(sorted_by_size, max_size)`: the files are placed one after
      the other, in the order given. */
  function Pack(entries: seq<FileEntry>, maxSize: int): Partitions
    decreases |entries|
  {
    if |entries| == 0 then []
    else Place(Pack(entries[..|entries| - 1], maxSize), entries[|entries| - 1], maxSize)
  }

  /** The invariants of `first_fit`: partition keys are `0 .. n-1` in order,
      no partition is empty, every partition holds fewer than `maxSize`
      bytes, and there are no more partitions than files. */
  lemma {:induction false} PackInvariant(entries: seq<FileEntry>, maxSize: int)
    ensures var r := Pack(entries, maxSize);
      Dense(r) && NoneEmpty(r) && Bounded(r, maxSize) && |r| <= |entries|
    decreases |entries|
  {
    if |entries| > 0 {
      var prefix := entries[..|entries| - 1];
      PackInvariant(prefix, maxSize);
      PlaceKeeps(Pack(prefix, maxSize), entries[|entries| - 1], maxSize);
    }
  }

  /** First-fit placement: an admitted file either goes to the lowest-indexed
      partition that stays below `maxSize` with it, or, when no partition can
      take it, opens a new partition holding only that file. Nothing else
      changes. */
  lemma PlaceFirstFit(d: Partitions, f: FileEntry, maxSize: int)
    requires Dense(d) && f.size < maxSize
    ensures var r := Place(d, f, maxSize);
      || (&& r == d + [Slot(|d|, [f])]
          && forall i :: 0 <= i < |d| ==> Size(d[i].files) + f.size >= maxSize)
      || (exists j :: && 0 <= j < |d|
                      && r == d[j := Slot(j, d[j].files + [f])]
                      && Size(d[j].files) + f.size < maxSize
                      && forall i :: 0 <= i < j ==> Size(d[i].files) + f.size >= maxSize)
  {
    var j := FirstFitIndex(d, f.size, maxSize, 0);
    FirstFitIndexIsFirst(d, f.size, maxSize, 0);
    if j < |d| {
      assert Place(d, f, maxSize) == d[j := Slot(j, d[j].files + [f])];
    }
  }

  /** The partition chosen for one file, as a dictionary key: `-1` when the
      file is dropped. */
  function Label(d: Partitions, f: FileEntry, maxSize: int): int {
    if f.size >= maxSize then -1 else FirstFitIndex(d, f.size, maxSize, 0)
  }

  /** The partition chosen for each input file, in input order. */
  function Labels(entries: seq<FileEntry>, maxSize: int): (labels: seq<int>)
    ensures |labels| == |entries|
    decreases |entries|
  {
    if |entries| == 0 then []
    else
      var prefix := entries[..|entries| - 1];
      Labels(prefix, maxSize) + [Label(Pack(prefix, maxSize), entries[|entries| - 1], maxSize)]
  }

  /** The entries labelled `i`, in input order. */
  function Select(entries: seq<FileEntry>, labels: seq<int>, i: int): seq<FileEntry>
    requires |labels| == |entries|
    decreases |entries|
  {
    if |entries| == 0 then []
    else
      Select(entries[..|entries| - 1], labels[..|labels| - 1], i)
      + (if labels[|labels| - 1] == i then [entries[|entries| - 1]] else [])
  }

  /** A file at a position labelled `i` is selected for `i`. */
  lemma {:induction false} SelectHas(entries: seq<FileEntry>, labels: seq<int>, i: int, k: nat)
    requires |labels| == |entries| && k < |entries| && labels[k] == i
    ensures entries[k] in Select(entries, labels, i)
    decreases |entries|
  {
    var n := |entries| - 1;
    if k < n {
      assert entries[..n][k] == entries[k] && labels[..n][k] == i;
      SelectHas(entries[..n], labels[..n], i, k);
    }
  }

  /** A file selected for `i` sits at some position labelled `i`. */
  lemma {:induction false} SelectFrom(entries: seq<FileEntry>, labels: seq<int>, i: int, x: FileEntry)
    requires |labels| == |entries| && x in Select(entries, labels, i)
    ensures exists k :: 0 <= k < |entries| && entries[k] == x && labels[k] == i
    decreases |entries|
  {
    var n := |entries| - 1;
    if x !in Select(entries[..n], labels[..n], i) {
      assert entries[n] == x && labels[n] == i;
    } else {
      SelectFrom(entries[..n], labels[..n], i, x);
      var k :| 0 <= k < n && entries[..n][k] == x && labels[..n][k] == i;
      assert entries[k] == x && labels[k] == i;
    }
  }

  /** No position carries label `i`: nothing is selected. */
  lemma {:induction false} SelectNone(entries: seq<FileEntry>, labels: seq<int>, i: int)
    requires |labels| == |entries|
    requires forall k :: 0 <= k < |labels| ==> labels[k] != i
    ensures Select(entries, labels, i) == []
    decreases |entries|
  {
    if |entries| > 0 {
      var n := |entries| - 1;
      assert forall k :: 0 <= k < n ==> labels[..n][k] == labels[k];
      SelectNone(entries[..n], labels[..n], i);
    }
  }

  /** The label of a file is `-1` exactly when the file is at least
      `maxSize` bytes. */
  lemma {:induction false} LabelsDropped(entries: seq<FileEntry>, maxSize: int)
    ensures forall k :: 0 <= k < |entries| ==>
              (Labels(entries, maxSize)[k] == -1 <==> entries[k].size >= maxSize)
    decreases |entries|
  {
    if |entries| > 0 {
      var n := |entries| - 1;
      var prefix, f := entries[..n], entries[n];
      var labels, before := Labels(entries, maxSize), Labels(prefix, maxSize);
      assert labels == before + [Label(Pack(prefix, maxSize), f, maxSize)];
      LabelsDropped(prefix, maxSize);
      forall k | 0 <= k < |entries|
        ensures labels[k] == -1 <==> entries[k].size >= maxSize
      {
        if k < n {
          assert labels[k] == before[k] && entries[k] == prefix[k];
        }
      }
    }
  }

  /** Every label is `-1` or the index of an existing partition. */
  lemma {:induction false} LabelsRange(entries: seq<FileEntry>, maxSize: int)
    ensures forall k :: 0 <= k < |entries| ==>
              -1 <= Labels(entries, maxSize)[k] < |Pack(entries, maxSize)|
    decreases |entries|
  {
    if |entries| > 0 {
      var n := |entries| - 1;
      var prefix, f := entries[..n], entries[n];
      var d := Pack(prefix, maxSize);
      var labels, before := Labels(entries, maxSize), Labels(prefix, maxSize);
      assert labels == before + [Label(d, f, maxSize)];
      assert Pack(entries, maxSize) == Place(d, f, maxSize);
      PackInvariant(prefix, maxSize);
      PlaceLength(d, f, maxSize);
      LabelsRange(prefix, maxSize);
      forall k | 0 <= k < |entries|
        ensures -1 <= labels[k] < |Pack(entries, maxSize)|
      {
        if k < n {
          assert labels[k] == before[k];
        }
      }
    }
  }

  /** The partitioning is a labelling of the input: partition `i` holds
      exactly the files labelled `i`, in input order. With `LabelsRange`,
      every admitted file is in exactly one partition, and `append` keeps the
      input order within a partition. */
  lemma {:induction false} PackSelects(entries: seq<FileEntry>, maxSize: int)
    ensures forall i :: 0 <= i < |Pack(entries, maxSize)| ==>
              Pack(entries, maxSize)[i].files == Select(entries, Labels(entries, maxSize), i)
    decreases |entries|
  {
    if |entries| > 0 {
      var n := |entries| - 1;
      var prefix, f := entries[..n], entries[n];
      var d := Pack(prefix, maxSize);
      var before := Labels(prefix, maxSize);
      assert entries == prefix + [f];
      assert Labels(entries, maxSize) == before + [Label(d, f, maxSize)];
      assert Pack(entries, maxSize) == Place(d, f, maxSize);
      PackInvariant(prefix, maxSize);
      PackSelects(prefix, maxSize);
      LabelsRange(prefix, maxSize);
      SelectNone(prefix, before, |d|);
      PlaceSelects(d, f, maxSize, prefix, before);
    }
  }

  /** One placement step of `PackSelects`: if the partitions are the
      selections of a labelling, placing `f` gives the selections of the
      labelling extended by `f`'s label. */
  lemma PlaceSelects(d: Partitions, f: FileEntry, maxSize: int, prefix: seq<FileEntry>, labels: seq<int>)
    requires Dense(d) && |labels| == |prefix|
    requires forall i :: 0 <= i < |d| ==> d[i].files == Select(prefix, labels, i)
    requires Select(prefix, labels, |d|) == []
    ensures var r := Place(d, f, maxSize);
      forall i :: 0 <= i < |r| ==> r[i].files == Select(prefix + [f], labels + [Label(d, f, maxSize)], i)
  {
    if f.size < maxSize {
      PlaceShape(d, f, maxSize);
      var j := FirstFitIndex(d, f.size, maxSize, 0);
      if j < |d| {
        AppendSelects(d, j, f, prefix, labels);
      } else {
        OpenSelects(d, f, prefix, labels);
      }
    } else {
      DropSelects(d, f, prefix, labels);
    }
  }

  /** A dropped file, labelled `-1`, changes no selection. */
  lemma DropSelects(d: Partitions, f: FileEntry, prefix: seq<FileEntry>, labels: seq<int>)
    requires |labels| == |prefix|
    requires forall i :: 0 <= i < |d| ==> d[i].files == Select(prefix, labels, i)
    ensures forall i :: 0 <= i < |d| ==> d[i].files == Select(prefix + [f], labels + [-1], i)
  {
    forall i | 0 <= i < |d| ensures d[i].files == Select(prefix + [f], labels + [-1], i) {
      SelectStep(prefix, labels, f, -1, i);
    }
  }

  /** A file appended to partition `j`, labelled `j`, extends that
      selection only. */
  lemma AppendSelects(d: Partitions, j: nat, f: FileEntry, prefix: seq<FileEntry>, labels: seq<int>)
    requires |labels| == |prefix| && j < |d|
    requires forall i :: 0 <= i < |d| ==> d[i].files == Select(prefix, labels, i)
    ensures var r := d[j := Slot(j, d[j].files + [f])];
      forall i :: 0 <= i < |r| ==> r[i].files == Select(prefix + [f], labels + [j], i)
  {
    var r := d[j := Slot(j, d[j].files + [f])];
    forall i | 0 <= i < |r| ensures r[i].files == Select(prefix + [f], labels + [j], i) {
      SelectStep(prefix, labels, f, j, i);
    }
  }

  /** A file opening partition `|d|`, labelled `|d|`, is that selection's
      only member. */
  lemma OpenSelects(d: Partitions, f: FileEntry, prefix: seq<FileEntry>, labels: seq<int>)
    requires |labels| == |prefix|
    requires forall i :: 0 <= i < |d| ==> d[i].files == Select(prefix, labels, i)
    requires Select(prefix, labels, |d|) == []
    ensures var r := d + [Slot(|d|, [f])];
      forall i :: 0 <= i < |r| ==> r[i].files == Select(prefix + [f], labels + [|d|], i)
  {
    var r := d + [Slot(|d|, [f])];
    forall i | 0 <= i < |r| ensures r[i].files == Select(prefix + [f], labels + [|d|], i) {
      SelectStep(prefix, labels, f, |d|, i);
    }
  }

  /** Selecting from a list extended by one labelled file. */
  lemma SelectStep(entries: seq<FileEntry>, labels: seq<int>, f: FileEntry, l: int, i: int)
    requires |labels| == |entries|
    ensures Select(entries + [f], labels + [l], i)
            == Select(entries, labels, i) + (if l == i then [f] else [])
  {
    assert (entries + [f])[..|entries|] == entries;
    assert (labels + [l])[..|labels|] == labels;
  }

  /** The files of all partitions, in partition order. */
  function Flatten(d: Partitions): seq<FileEntry>
    decreases |d|
  {
    if |d| == 0 then [] else Flatten(d[..|d| - 1]) + d[|d| - 1].files
  }

  /** Appending to one partition adds the appended files to the whole. */
  lemma {:induction false} FlattenUpdate(d: Partitions, j: nat, extra: seq<FileEntry>)
    requires j < |d|
    ensures multiset(Flatten(d[j := Slot(d[j].key, d[j].files + extra)]))
            == multiset(Flatten(d)) + multiset(extra)
    decreases |d|
  {
    var d' := d[j := Slot(d[j].key, d[j].files + extra)];
    var n := |d| - 1;
    if j == n {
      assert d'[..n] == d[..n];
    } else {
      assert d'[..n] == d[..n][j := Slot(d[j].key, d[j].files + extra)];
      FlattenUpdate(d[..n], j, extra);
    }
  }

  /** Appending to one partition adds the bytes of the appended files. */
  lemma {:induction false} FlattenUpdateSize(d: Partitions, j: nat, extra: seq<FileEntry>)
    requires j < |d|
    ensures Size(Flatten(d[j := Slot(d[j].key, d[j].files + extra)]))
            == Size(Flatten(d)) + Size(extra)
    decreases |d|
  {
    var d' := d[j := Slot(d[j].key, d[j].files + extra)];
    var n := |d| - 1;
    if j == n {
      assert d'[..n] == d[..n];
      SizeConcat(Flatten(d[..n]), d[n].files + extra);
      SizeConcat(Flatten(d[..n]), d[n].files);
      SizeConcat(d[n].files, extra);
    } else {
      assert d'[..n] == d[..n][j := Slot(d[j].key, d[j].files + extra)];
      FlattenUpdateSize(d[..n], j, extra);
      SizeConcat(Flatten(d'[..n]), d[n].files);
      SizeConcat(Flatten(d[..n]), d[n].files);
    }
  }

  lemma FlattenSnoc(d: Partitions, s: Slot)
    ensures Flatten(d + [s]) == Flatten(d) + s.files
  {
    assert (d + [s])[..|d|] == d;
  }

  /** The files `first_fit` admits: those below `maxSize` bytes. */
  function Admitted(maxSize: int): FileEntry -> bool {
    (f: FileEntry) => f.size < maxSize
  }

  /** The input without the dropped files, in input order. */
  function Kept(entries: seq<FileEntry>, maxSize: int): seq<FileEntry> {
    Filter(entries, Admitted(maxSize))
  }

  lemma SizeOne(f: FileEntry)
    ensures Size([f]) == f.size
  {
    assert [f][..0] == [];
  }

  /** Placing a file adds it to the partitions when it is admitted and adds
      nothing otherwise. */
  lemma PlaceAdds(d: Partitions, f: FileEntry, maxSize: int)
    requires Dense(d)
    ensures multiset(Flatten(Place(d, f, maxSize)))
            == multiset(Flatten(d)) + if f.size < maxSize then multiset{f} else multiset{}
  {
    if f.size < maxSize {
      var j := FirstFitIndex(d, f.size, maxSize, 0);
      PlaceShape(d, f, maxSize);
      if j < |d| {
        FlattenUpdate(d, j, [f]);
      } else {
        FlattenSnoc(d, Slot(|d|, [f]));
      }
    }
  }

  /** Placing a file adds its bytes when it is admitted and nothing
      otherwise. */
  lemma PlaceAddsBytes(d: Partitions, f: FileEntry, maxSize: int)
    requires Dense(d)
    ensures Size(Flatten(Place(d, f, maxSize)))
            == Size(Flatten(d)) + if f.size < maxSize then f.size else 0
  {
    if f.size < maxSize {
      var j := FirstFitIndex(d, f.size, maxSize, 0);
      PlaceShape(d, f, maxSize);
      SizeOne(f);
      if j < |d| {
        FlattenUpdateSize(d, j, [f]);
      } else {
        FlattenSnoc(d, Slot(|d|, [f]));
        SizeConcat(Flatten(d), [f]);
      }
    }
  }

  /** Conservation: the partitions hold exactly the admitted files, counted
      with multiplicity. */
  lemma {:induction false} PackConserves(entries: seq<FileEntry>, maxSize: int)
    ensures multiset(Flatten(Pack(entries, maxSize))) == multiset(Kept(entries, maxSize))
    decreases |entries|
  {
    if |entries| > 0 {
      var n := |entries| - 1;
      var prefix, f := entries[..n], entries[n];
      var d := Pack(prefix, maxSize);
      var tail := if f.size < maxSize then [f] else [];
      calc {
        multiset(Flatten(Pack(entries, maxSize)));
        multiset(Flatten(Place(d, f, maxSize)));
        { PackInvariant(prefix, maxSize);
          PlaceAdds(d, f, maxSize); }
        multiset(Flatten(d)) + multiset(tail);
        { PackConserves(prefix, maxSize); }
        multiset(Kept(prefix, maxSize)) + multiset(tail);
        multiset(Kept(prefix, maxSize) + tail);
        { assert Kept(entries, maxSize) == Kept(prefix, maxSize) + tail; }
        multiset(Kept(entries, maxSize));
      }
    }
  }

  /** The partitions hold as many bytes as the admitted files. */
  lemma {:induction false} PackConservesBytes(entries: seq<FileEntry>, maxSize: int)
    ensures Size(Flatten(Pack(entries, maxSize))) == Size(Kept(entries, maxSize))
    decreases |entries|
  {
    if |entries| > 0 {
      var n := |entries| - 1;
      var prefix, f := entries[..n], entries[n];
      var d := Pack(prefix, maxSize);
      var tail := if f.size < maxSize then [f] else [];
      calc {
        Size(Flatten(Pack(entries, maxSize)));
        Size(Flatten(Place(d, f, maxSize)));
        { PackInvariant(prefix, maxSize);
          PlaceAddsBytes(d, f, maxSize); }
        Size(Flatten(d)) + Size(tail);
        { PackConservesBytes(prefix, maxSize); }
        Size(Kept(prefix, maxSize)) + Size(tail);
        { SizeConcat(Kept(prefix, maxSize), tail); }
        Size(Kept(prefix, maxSize) + tail);
        { assert Kept(entries, maxSize) == Kept(prefix, maxSize) + tail; }
        Size(Kept(entries, maxSize));
      }
    }
  }

  /** A file weighs no more than any list holding it. */
  lemma {:induction false} SizeMember(files: seq<FileEntry>, x: FileEntry)
    requires x in files
    ensures x.size <= Size(files)
    decreases |files|
  {
    var n := |files| - 1;
    if files[n] != x {
      assert x in files[..n] by {
        var k :| 0 <= k < |files| && files[k] == x;
        assert files[..n][k] == x;
      }
      SizeMember(files[..n], x);
    }
  }

  /** A file of at least `maxSize` bytes is in no partition. */
  lemma DroppedNowhere(entries: seq<FileEntry>, maxSize: int, f: FileEntry)
    requires f.size >= maxSize
    ensures forall i :: 0 <= i < |Pack(entries, maxSize)| ==> f !in Pack(entries, maxSize)[i].files
  {
    PackInvariant(entries, maxSize);
    var d := Pack(entries, maxSize);
    forall i | 0 <= i < |d| ensures f !in d[i].files {
      if f in d[i].files {
        SizeMember(d[i].files, f);
      }
    }
  }

  /** File `f` lies in partition `i`. */
  predicate InPartition(d: Partitions, f: FileEntry, i: int) {
    0 <= i < |d| && f in d[i].files
  }

  /** When the input lists each file once (the scanner yields each path
      once), every admitted file is in exactly one partition. */
  lemma ExactlyOnePartition(entries: seq<FileEntry>, maxSize: int, k: nat)
    requires k < |entries| && entries[k].size < maxSize
    requires forall a, b :: 0 <= a < b < |entries| ==> entries[a] != entries[b]
    ensures exists i :: && InPartition(Pack(entries, maxSize), entries[k], i)
                        && forall i' :: InPartition(Pack(entries, maxSize), entries[k], i') ==> i' == i
  {
    PackSelects(entries, maxSize);
    LabelsRange(entries, maxSize);
    LabelsDropped(entries, maxSize);
    var d := Pack(entries, maxSize);
    var L := Labels(entries, maxSize);
    var i := L[k];
    SelectHas(entries, L, i, k);
    forall i' | InPartition(d, entries[k], i') ensures i' == i {
      SelectFrom(entries, L, i', entries[k]);
      var k' :| 0 <= k' < |entries| && entries[k'] == entries[k] && L[k'] == i';
      assert k' == k;
    }
    assert InPartition(d, entries[k], i);
  }

  /** `sum(n for _, n in files)` as the loop Python runs. */
  method SumSizes(files: seq<FileEntry>) returns (total: nat)
    ensures total == Size(files)
  {
    total := 0;
    for i := 0 to |files|
      invariant total == Size(files[..i])
    {
      assert files[..i + 1][..i] == files[..i];
      total := total + files[i].size;
    }
    assert files[..|files|] == files;
  }

  /** The body of the outer loop of `first_fit` for one file: the inner
      loop over the partitions in key order, with its `break`. */
  method PlaceFile(partitions: Partitions, currFile: FileEntry, maxSize: int)
    returns (result: Partitions)
    ensures result == Place(partitions, currFile, maxSize)
  {
    result := partitions;
    var foundBucket := false;
    if currFile.size < maxSize {
      var j := 0;
      while j < |result|
        invariant 0 <= j <= |result| && result == partitions && !foundBucket
        invariant FirstFitIndex(partitions, currFile.size, maxSize, j)
                  == FirstFitIndex(partitions, currFile.size, maxSize, 0)
      {
        var totalInCurrPar := SumSizes(result[j].files);
        if totalInCurrPar + currFile.size < maxSize {
          result := result[j := Slot(result[j].key, result[j].files + [currFile])];
          foundBucket := true;
          break;
        }
        j := j + 1;
      }
      if !foundBucket {
        result := Store(result, |result|, [currFile]);
      }
    }
  }

  /** The reporting loop at the end of `first_fit`: the bytes of each
      partition and their grand total, which counts every file once. */
  method PartitionTotals(partitions: Partitions) returns (partitionSizes: seq<nat>, totalSize: nat)
    ensures |partitionSizes| == |partitions|
    ensures forall i :: 0 <= i < |partitions| ==> partitionSizes[i] == Size(partitions[i].files)
    ensures totalSize == Size(Flatten(partitions))
  {
    partitionSizes := [];
    totalSize := 0;
    for i := 0 to |partitions|
      invariant |partitionSizes| == i
      invariant forall h :: 0 <= h < i ==> partitionSizes[h] == Size(partitions[h].files)
      invariant totalSize == Size(Flatten(partitions[..i]))
    {
      var partitionSize := SumSizes(partitions[i].files);
      assert partitions[..i + 1] == partitions[..i] + [partitions[i]];
      FlattenSnoc(partitions[..i], partitions[i]);
      SizeConcat(Flatten(partitions[..i]), partitions[i].files);
      partitionSizes := partitionSizes + [partitionSize];
      totalSize := totalSize + partitionSize;
    }
    assert partitions[..|partitions|] == partitions;
  }

  /** `first_fit` as the script runs it: the outer loop over the files, then
      the totals it reports. Every partition is below the budget and the
      grand total is the number of bytes of the admitted files. */
  method FirstFit(sortedBySize: seq<FileEntry>, maxSize: int)
    returns (partitions: Partitions, partitionSizes: seq<nat>, totalSize: nat)
    ensures partitions == Pack(sortedBySize, maxSize)
    ensures |partitionSizes| == |partitions|
    ensures forall i :: 0 <= i < |partitions| ==> partitionSizes[i] == Size(partitions[i].files) < maxSize
    ensures totalSize == Size(Kept(sortedBySize, maxSize))
  {
    partitions := [];
    for n := 0 to |sortedBySize|
      invariant partitions == Pack(sortedBySize[..n], maxSize)
    {
      assert sortedBySize[..n + 1][..n] == sortedBySize[..n];
      partitions := PlaceFile(partitions, sortedBySize[n], maxSize);
    }
    assert sortedBySize[..|sortedBySize|] == sortedBySize;
    partitionSizes, totalSize := PartitionTotals(partitions);
    PackInvariant(sortedBySize, maxSize);
    PackConservesBytes(sortedBySize, maxSize);
  }

  /** `first_fit` over a list extended by one file places that file into
      the partitions of the list. */
  lemma PackSnoc(entries: seq<FileEntry>, f: FileEntry, maxSize: int)
    ensures Pack(entries + [f], maxSize) == Place(Pack(entries, maxSize), f, maxSize)
  {
    assert (entries + [f])[..|entries|] == entries;
  }

  const ExampleA := FileEntry("a", 120)
  const ExampleB := FileEntry("b", 80)
  const ExampleC := FileEntry("c", 50)
  const ExampleD := FileEntry("d", 40)

  lemma ExampleStepB()
    ensures Pack([ExampleA, ExampleB], 150) == [Slot(0, [ExampleA]), Slot(1, [ExampleB])]
  {
    PackSnoc([], ExampleA, 150);
    PlaceShape([], ExampleA, 150);
    assert [] + [ExampleA] == [ExampleA];
    var p1 := [Slot(0, [ExampleA])];
    SizeOne(ExampleA);
    assert FirstFitIndex(p1, 80, 150, 0) == 1;
    PackSnoc([ExampleA], ExampleB, 150);
    PlaceShape(p1, ExampleB, 150);
    assert [ExampleA] + [ExampleB] == [ExampleA, ExampleB];
  }

  lemma ExampleStepC()
    ensures Pack([ExampleA, ExampleB, ExampleC], 150)
            == [Slot(0, [ExampleA]), Slot(1, [ExampleB, ExampleC])]
  {
    var p2 := [Slot(0, [ExampleA]), Slot(1, [ExampleB])];
    ExampleStepB();
    SizeOne(ExampleA);
    SizeOne(ExampleB);
    assert FirstFitIndex(p2, 50, 150, 0) == 1;
    PackSnoc([ExampleA, ExampleB], ExampleC, 150);
    assert [ExampleA, ExampleB] + [ExampleC] == [ExampleA, ExampleB, ExampleC];
    PlaceShape(p2, ExampleC, 150);
    assert [ExampleB] + [ExampleC] == [ExampleB, ExampleC];
  }

  /** The worked example: sizes 120, 80, 50 and 40 with a budget of 150 bytes
      give the partitions {a}, {b, c} and {d}. */
  lemma WorkedExample()
    ensures Pack([ExampleA, ExampleB, ExampleC, ExampleD], 150)
            == [Slot(0, [ExampleA]), Slot(1, [ExampleB, ExampleC]), Slot(2, [ExampleD])]
  {
    var p3 := [Slot(0, [ExampleA]), Slot(1, [ExampleB, ExampleC])];
    ExampleStepC();
    SizeOne(ExampleA);
    SizeOne(ExampleB);
    SizeConcat([ExampleB], [ExampleC]);
    assert [ExampleB] + [ExampleC] == [ExampleB, ExampleC];
    SizeOne(ExampleC);
    assert FirstFitIndex(p3, 40, 150, 0) == 2;
    PackSnoc([ExampleA, ExampleB, ExampleC], ExampleD, 150);
    assert [ExampleA, ExampleB, ExampleC] + [ExampleD] == [ExampleA, ExampleB, ExampleC, ExampleD];
    PlaceShape(p3, ExampleD, 150);
  }

  /** A file alone above the budget leaves no partition at all. */
  lemma OversizedAlone(f: FileEntry, maxSize: int)
    requires f.size >= maxSize
    ensures Pack([f], maxSize) == []
  {
    assert [f][..0] == [];
  }
}
