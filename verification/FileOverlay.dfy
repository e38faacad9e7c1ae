/**
 * Merging template files by path, and the paths integrations give their files.
 *
 * `before` is the order of `localeCompare`, assumed to be a strict total order on paths.
 */
module FileOverlay {
  import opened Prelude

  datatype File = File(path: string, content: string)

  type Order = (string, string) -> bool

  ghost predicate TotalOrder(before: Order) {
    && (forall a :: !before(a, a))
    && (forall a, b, c :: before(a, b) && before(b, c) ==> before(a, c))
    && (forall a, b :: a != b ==> before(a, b) || before(b, a))
  }

  // ----- Sorting -----

  /** Strictly sorted by path, hence without two files at one path. */
  ghost predicate Sorted(before: Order, files: seq<File>) {
    forall i, j :: 0 <= i < j < |files| ==> before(files[i].path, files[j].path)
  }

  /** Inserts a file whose path is not there yet. */
  function Insert(before: Order, files: seq<File>, f: File): (r: seq<File>)
    ensures multiset(r) == multiset(files) + multiset{f}
  {
    if files == [] then [f]
    else if before(f.path, files[0].path) then
      assert files == [files[0]] + files[1..];
      [f] + files
    else
      assert files == [files[0]] + files[1..];
      [files[0]] + Insert(before, files[1..], f)
  }

  function Sort(before: Order, files: seq<File>): (r: seq<File>)
    ensures multiset(r) == multiset(files)
  {
    if files == [] then []
    else
      assert files == [files[0]] + files[1..];
      Insert(before, Sort(before, files[1..]), files[0])
  }

  lemma {:induction false} InsertSorted(before: Order, files: seq<File>, f: File)
    requires TotalOrder(before) && Sorted(before, files)
    requires forall g :: g in files ==> g.path != f.path
    ensures Sorted(before, Insert(before, files, f))
  {
    if files != [] && !before(f.path, files[0].path) {
      var rest := files[1..];
      assert forall g :: g in rest ==> g in files;
      InsertSorted(before, rest, f);
      var r := Insert(before, rest, f);
      forall g | g in r ensures before(files[0].path, g.path) {
        assert files[0] in files;
        InsertMembers(before, rest, f, g);
        if g != f {
          var i :| 0 <= i < |rest| && rest[i] == g;
          assert files[i + 1] == g;
        }
      }
    }
  }

  lemma InsertMembers(before: Order, files: seq<File>, f: File, g: File)
    ensures g in Insert(before, files, f) <==> g == f || g in files
  {
    assert g in multiset(Insert(before, files, f)) <==> g in multiset(files) + multiset{f};
  }

  ghost predicate DistinctPaths(files: seq<File>) {
    forall i, j :: 0 <= i < j < |files| ==> files[i].path != files[j].path
  }

  lemma {:induction false} SortSorted(before: Order, files: seq<File>)
    requires TotalOrder(before) && DistinctPaths(files)
    ensures Sorted(before, Sort(before, files))
  {
    if files != [] {
      var rest := files[1..];
      SortSorted(before, rest);
      forall g | g in Sort(before, rest) ensures g.path != files[0].path {
        assert g in multiset(Sort(before, rest));
        assert g in multiset(rest);
        var i :| 0 <= i < |rest| && rest[i] == g;
        assert files[i + 1] == g;
      }
      InsertSorted(before, Sort(before, rest), files[0]);
    }
  }

  lemma SameEmptiness(a: seq<File>, b: seq<File>)
    requires forall f :: f in a <==> f in b
    ensures a == [] <==> b == []
  {
    if a != [] { assert a[0] in b; }
    if b != [] { assert b[0] in a; }
  }

  /** There is only one sorted arrangement. */
  lemma {:induction false} SortedUnique(before: Order, a: seq<File>, b: seq<File>)
    requires TotalOrder(before) && Sorted(before, a) && Sorted(before, b)
    requires forall f :: f in a <==> f in b
    ensures a == b
  {
    SameEmptiness(a, b);
    if a != [] {
      assert a[0] in b && b[0] in a;
      var i :| 0 <= i < |a| && a[i] == b[0];
      var j :| 0 <= j < |b| && b[j] == a[0];
      assert a[0] == b[0];
      forall f ensures f in a[1..] <==> f in b[1..] {
        TailMembers(before, a, f);
        TailMembers(before, b, f);
      }
      SortedUnique(before, a[1..], b[1..]);
    }
  }

  lemma TailMembers(before: Order, a: seq<File>, f: File)
    requires TotalOrder(before) && Sorted(before, a) && a != []
    ensures f in a[1..] <==> f in a && f != a[0]
  {
    if f in a[1..] {
      var i :| 0 <= i < |a[1..]| && a[1..][i] == f;
      assert a[i + 1] == f;
    }
  }

  // ----- Files by path -----

  /** The map a sequence of `set` calls builds: the last file at each path. */
  function ByPath(files: seq<File>): (m: map<string, File>)
    ensures forall p :: p in m ==> m[p].path == p && m[p] in files
    ensures forall f :: f in files ==> f.path in m
  {
    if files == [] then map[]
    else
      var last := files[|files| - 1];
      assert forall f :: f in files ==> f in files[..|files| - 1] || f == last by {
        assert files == files[..|files| - 1] + [last];
      }
      ByPath(files[..|files| - 1])[last.path := last]
  }

  lemma ByPathSnoc(files: seq<File>, f: File)
    ensures ByPath(files + [f]) == ByPath(files)[f.path := f]
  {
    assert (files + [f])[..|files|] == files;
  }

  /** File `i` is the last one at its path. */
  ghost predicate LastAt(files: seq<File>, i: int, p: string) {
    0 <= i < |files| && files[i].path == p && forall j :: i < j < |files| ==> files[j].path != p
  }

  lemma LastAtSnoc(files: seq<File>, f: File, i: int, p: string)
    requires LastAt(files, i, p) && f.path != p
    ensures LastAt(files + [f], i, p)
  {}

  lemma ByPathBefore(files: seq<File>, p: string)
    requires files != [] && p in ByPath(files) && files[|files| - 1].path != p
    ensures p in ByPath(files[..|files| - 1]) && ByPath(files[..|files| - 1])[p] == ByPath(files)[p]
  {}

  /** The map holds, for each path, the last file at it. */
  lemma {:induction false} ByPathIsLast(files: seq<File>, p: string) returns (i: int)
    requires p in ByPath(files)
    ensures LastAt(files, i, p) && files[i] == ByPath(files)[p]
  {
    var n := |files| - 1;
    if files[n].path == p {
      i := n;
    } else {
      ByPathBefore(files, p);
      i := ByPathIsLast(files[..n], p);
      LastAtSnoc(files[..n], files[n], i, p);
      assert files == files[..n] + [files[n]];
    }
  }

  /** The files of a map, sorted. */
  ghost predicate Arranges(before: Order, r: seq<File>, m: map<string, File>) {
    && Sorted(before, r)
    && forall f :: f in r <==> f.path in m && m[f.path] == f
  }

  lemma {:induction false} SortedByPath(before: Order, files: seq<File>)
    requires TotalOrder(before) && Sorted(before, files)
    ensures forall f :: f in files <==> f.path in ByPath(files) && ByPath(files)[f.path] == f
  {
    if files != [] {
      var init, last := files[..|files| - 1], files[|files| - 1];
      SortedByPath(before, init);
      assert files == init + [last];
    }
  }

  /** Arranging and reading back are inverse. */
  lemma ArrangesReadsBack(before: Order, r: seq<File>, m: map<string, File>)
    requires TotalOrder(before) && Arranges(before, r, m)
    requires forall p :: p in m ==> m[p].path == p
    ensures ByPath(r) == m
  {
    SortedByPath(before, r);
    forall p ensures (p in ByPath(r) <==> p in m) && (p in m ==> ByPath(r)[p] == m[p]) {
      if p in m {
        assert m[p] in r;
      }
      if p in ByPath(r) {
        assert ByPath(r)[p] in r;
      }
    }
  }

  lemma ArrangesUnique(before: Order, a: seq<File>, b: seq<File>, m: map<string, File>)
    requires TotalOrder(before) && Arranges(before, a, m) && Arranges(before, b, m)
    ensures a == b
  {
    SortedUnique(before, a, b);
  }

  /** The values of a map whose keys are the files' paths, in some order. */
  method Values(m: map<string, File>) returns (files: seq<File>)
    requires forall p :: p in m ==> m[p].path == p
    ensures DistinctPaths(files)
    ensures forall f :: f in files <==> f.path in m && m[f.path] == f
  {
    files := [];
    var pending := m.Keys;
    while pending != {}
      invariant pending <= m.Keys && DistinctPaths(files)
      invariant forall f :: f in files <==> f.path in m && m[f.path] == f && f.path !in pending
      decreases pending
    {
      var p :| p in pending;
      forall i | 0 <= i < |files| ensures files[i].path != p {
        assert files[i] in files;
      }
      files := files + [m[p]];
      pending := pending - {p};
    }
  }

  method SortedValues(before: Order, m: map<string, File>) returns (r: seq<File>)
    requires TotalOrder(before) && forall p :: p in m ==> m[p].path == p
    ensures Arranges(before, r, m)
  {
    var files := Values(m);
    r := Sort(before, files);
    SortSorted(before, files);
    forall f ensures f in r <==> f in files {
      assert f in r <==> f in multiset(r);
      assert f in files <==> f in multiset(files);
    }
  }

  lemma ByPathStep(m: map<string, File>, files: seq<File>, n: nat)
    requires n < |files|
    ensures ByPath(files[..n + 1]) == ByPath(files[..n])[files[n].path := files[n]]
    ensures m + ByPath(files[..n + 1]) == (m + ByPath(files[..n]))[files[n].path := files[n]]
  {
    assert files[..n + 1][..n] == files[..n];
  }

  /** `for (const file of files) fileMap.set(file.path, file)`. */
  method SetAll(fileMap: map<string, File>, files: seq<File>) returns (r: map<string, File>)
    ensures r == fileMap + ByPath(files)
  {
    r := fileMap;
    for i := 0 to |files|
      invariant r == fileMap + ByPath(files[..i])
    {
      ByPathStep(fileMap, files, i);
      r := r[files[i].path := files[i]];
    }
    assert files[..|files|] == files;
  }

  /** `mergeFiles`: overlay files win, the result is sorted. */
  method MergeFiles(before: Order, baseFiles: seq<File>, overlayFiles: seq<File>) returns (r: seq<File>)
    requires TotalOrder(before)
    ensures Merges(before, baseFiles, overlayFiles, r)
  {
    var fileMap := SetAll(map[], baseFiles);
    fileMap := SetAll(fileMap, overlayFiles);
    assert map[] + ByPath(baseFiles) == ByPath(baseFiles);
    r := SortedValues(before, fileMap);
  }

  // ----- The overlay algebra -----

  /** `r` holds, sorted, the last overlay file at each path, else the last base file there. */
  ghost predicate Merges(before: Order, a: seq<File>, b: seq<File>, r: seq<File>) {
    Arranges(before, r, ByPath(a) + ByPath(b))
  }

  lemma MergesReadsBack(before: Order, a: seq<File>, b: seq<File>, r: seq<File>)
    requires TotalOrder(before) && Merges(before, a, b, r)
    ensures ByPath(r) == ByPath(a) + ByPath(b)
  {
    ArrangesReadsBack(before, r, ByPath(a) + ByPath(b));
  }

  lemma MapsAssociate(a: map<string, File>, b: map<string, File>, c: map<string, File>)
    ensures (a + b) + c == a + (b + c)
  {}

  /** Overlaying step by step or in one go is the same. */
  lemma OverlayAssociative(before: Order, a: seq<File>, b: seq<File>, c: seq<File>,
      ab: seq<File>, bc: seq<File>, left: seq<File>, right: seq<File>)
    requires TotalOrder(before)
    requires Merges(before, a, b, ab) && Merges(before, ab, c, left)
    requires Merges(before, b, c, bc) && Merges(before, a, bc, right)
    ensures left == right
  {
    MergesReadsBack(before, a, b, ab);
    MergesReadsBack(before, b, c, bc);
    MapsAssociate(ByPath(a), ByPath(b), ByPath(c));
    ArrangesUnique(before, left, right, ByPath(a) + ByPath(b) + ByPath(c));
  }

  /** Overlaying the same files again, or files that are already there, changes nothing. */
  lemma OverlayIdempotent(before: Order, a: seq<File>, b: seq<File>, ab: seq<File>, again: seq<File>)
    requires TotalOrder(before) && Merges(before, a, b, ab) && Merges(before, ab, b, again)
    ensures again == ab
  {
    MergesReadsBack(before, a, b, ab);
    assert ByPath(a) + ByPath(b) + ByPath(b) == ByPath(a) + ByPath(b);
    ArrangesUnique(before, again, ab, ByPath(a) + ByPath(b));
  }

  // ----- Integration files -----

  datatype Integration = Integration(files: seq<File>)

  function AllFiles(integrations: seq<Integration>): seq<File> {
    if integrations == [] then []
    else AllFiles(integrations[..|integrations| - 1]) + integrations[|integrations| - 1].files
  }

  /** File `n` is the first at a path that an earlier file has. */
  ghost predicate CollidesAt(files: seq<File>, n: nat, path: string) {
    n < |files| && DistinctPaths(files[..n]) && files[n].path == path && path in ByPath(files[..n])
  }

  ghost predicate FirstCollision(files: seq<File>, path: string) {
    exists n :: CollidesAt(files, n, path)
  }

  lemma CollisionNotDistinct(files: seq<File>, n: nat, path: string)
    requires CollidesAt(files, n, path)
    ensures !DistinctPaths(files)
  {
    var f := ByPath(files[..n])[path];
    var i :| 0 <= i < n && files[..n][i] == f;
    assert files[i].path == files[n].path;
  }

  lemma DistinctSnoc(files: seq<File>, f: File)
    requires DistinctPaths(files) && f.path !in ByPath(files)
    ensures DistinctPaths(files + [f])
  {
    forall i | 0 <= i < |files| ensures files[i].path != f.path {
      assert files[i] in files;
    }
  }

  lemma CollisionCarries(some: seq<File>, all: seq<File>, path: string)
    requires some <= all && FirstCollision(some, path)
    ensures FirstCollision(all, path) && !DistinctPaths(all)
  {
    var n :| CollidesAt(some, n, path);
    PrefixOfPrefix(some, all, n);
    assert CollidesAt(all, n, path);
    CollisionNotDistinct(all, n, path);
  }

  lemma PrefixOfPrefix(some: seq<File>, all: seq<File>, n: nat)
    requires some <= all && n < |some|
    ensures all[..n] == some[..n] && all[n] == some[n]
  {}

  /** The map holds the files, which are all at different paths. */
  ghost predicate Holds(m: map<string, File>, files: seq<File>) {
    m == ByPath(files) && DistinctPaths(files)
  }

  lemma HoldsNext(m: map<string, File>, seen: seq<File>, files: seq<File>, i: nat)
    requires i < |files| && Holds(m, seen + files[..i]) && files[i].path !in m
    ensures Holds(m[files[i].path := files[i]], seen + files[..i + 1])
  {
    NextFiles(seen, files, i);
    HoldsSnoc(m, seen + files[..i], files[i]);
  }

  lemma NextFiles(seen: seq<File>, files: seq<File>, i: nat)
    requires i < |files|
    ensures seen + files[..i + 1] == (seen + files[..i]) + [files[i]]
  {}

  lemma HoldsSnoc(m: map<string, File>, files: seq<File>, f: File)
    requires Holds(m, files) && f.path !in m
    ensures Holds(m[f.path := f], files + [f])
  {
    DistinctSnoc(files, f);
    assert (files + [f])[..|files|] == files;
  }

  /** Adds the files of one integration, or reports the first path that is taken. */
  method AddIntegration(fileMap: map<string, File>, ghost seen: seq<File>, files: seq<File>)
    returns (r: Result<map<string, File>, string>)
    requires Holds(fileMap, seen)
    ensures r.Ok? ==> Holds(r.value, seen + files)
    ensures r.Err? ==> FirstCollision(seen + files, r.error)
  {
    var m := fileMap;
    assert seen + files[..0] == seen;
    for i := 0 to |files|
      invariant Holds(m, seen + files[..i])
    {
      var f := files[i];
      if f.path in m {
        Reported(m, seen, files, i);
        return Err(f.path);
      }
      HoldsNext(m, seen, files, i);
      m := m[f.path := f];
    }
    assert files[..|files|] == files;
    r := Ok(m);
  }

  lemma Reported(m: map<string, File>, seen: seq<File>, files: seq<File>, i: nat)
    requires i < |files| && Holds(m, seen + files[..i]) && files[i].path in m
    ensures FirstCollision(seen + files, files[i].path)
  {
    var all := seen + files;
    assert all[..|seen| + i] == seen + files[..i] && all[|seen| + i] == files[i];
    assert CollidesAt(all, |seen| + i, files[i].path);
  }

  /** `mergeIntegrationFiles`: succeeds exactly when all paths differ, and then drops nothing. */
  method MergeIntegrationFiles(before: Order, integrations: seq<Integration>) returns (r: Result<seq<File>, string>)
    requires TotalOrder(before)
    ensures MergesTo(before, integrations, r)
  {
    var fileMap: map<string, File> := map[];
    ghost var all := AllFiles(integrations);
    for i := 0 to |integrations|
      invariant Holds(fileMap, AllFiles(integrations[..i]))
    {
      assert integrations[..i + 1][..i] == integrations[..i];
      var added := AddIntegration(fileMap, AllFiles(integrations[..i]), integrations[i].files);
      AllFilesPrefix(integrations, i + 1);
      if added.Err? {
        CollisionCarries(AllFiles(integrations[..i + 1]), all, added.error);
        return Err(added.error);
      }
      fileMap := added.value;
    }
    assert integrations[..|integrations|] == integrations;
    var files := SortedValues(before, fileMap);
    SameFilesSameMultiset(before, files, all);
    r := Ok(files);
  }

  lemma {:induction false} AllFilesPrefix(integrations: seq<Integration>, n: nat)
    requires n <= |integrations|
    ensures AllFiles(integrations[..n]) <= AllFiles(integrations)
  {
    if n == |integrations| {
      assert integrations[..n] == integrations;
    } else {
      assert integrations[..|integrations| - 1][..n] == integrations[..n];
      AllFilesPrefix(integrations[..|integrations| - 1], n);
    }
  }

  lemma DistinctMultiset(a: seq<File>, b: seq<File>)
    requires DistinctPaths(a) && DistinctPaths(b)
    requires forall f :: f in a <==> f in b
    ensures multiset(a) == multiset(b)
  {
    forall f: File ensures multiset(a)[f] == multiset(b)[f] {
      CountDistinct(a, f);
      CountDistinct(b, f);
    }
  }

  lemma {:induction false} CountDistinct(a: seq<File>, f: File)
    requires DistinctPaths(a)
    ensures multiset(a)[f] == if f in a then 1 else 0
  {
    if a != [] {
      assert a == [a[0]] + a[1..];
      CountDistinct(a[1..], f);
      assert a[0] !in a[1..];
    }
  }

  lemma SameFilesSameMultiset(before: Order, files: seq<File>, all: seq<File>)
    requires TotalOrder(before) && DistinctPaths(all) && Arranges(before, files, ByPath(all))
    ensures multiset(files) == multiset(all)
  {
    DistinctByPath(all);
    DistinctMultiset(files, all);
  }

  lemma {:induction false} DistinctByPath(files: seq<File>)
    requires DistinctPaths(files)
    ensures forall f :: f in files <==> f.path in ByPath(files) && ByPath(files)[f.path] == f
  {
    if files != [] {
      DistinctByPath(files[..|files| - 1]);
      assert files == files[..|files| - 1] + [files[|files| - 1]];
    }
  }

  lemma {:induction false} AllFilesConcat(a: seq<Integration>, b: seq<Integration>)
    ensures AllFiles(a + b) == AllFiles(a) + AllFiles(b)
  {
    if b == [] {
      assert a + b == a;
    } else {
      AllFilesConcat(a, b[..|b| - 1]);
      assert (a + b)[..|a + b| - 1] == a + b[..|b| - 1];
    }
  }

  lemma AllFilesOne(x: Integration)
    ensures AllFiles([x]) == x.files
  {
    assert AllFiles([x][..0]) == [];
  }

  lemma {:induction false} AllFilesPermuted(a: seq<Integration>, b: seq<Integration>)
    requires multiset(a) == multiset(b)
    ensures multiset(AllFiles(a)) == multiset(AllFiles(b))
  {
    if a == [] {
      assert |multiset(b)| == 0;
    } else {
      assert a[0] in multiset(a);
      var k :| 0 <= k < |b| && b[k] == a[0];
      Around(a, 0);
      Around(b, k);
      AllFilesPermuted(a[..0] + a[1..], b[..k] + b[k + 1..]);
      FilesWithout(a[..0], a[0], a[1..]);
      FilesWithout(b[..k], b[k], b[k + 1..]);
    }
  }

  lemma Around(a: seq<Integration>, k: nat)
    requires k < |a|
    ensures a == a[..k] + ([a[k]] + a[k + 1..])
    ensures multiset(a[..k] + a[k + 1..]) == multiset(a) - multiset{a[k]}
  {
    assert a == a[..k] + ([a[k]] + a[k + 1..]);
  }

  lemma FilesWithout(front: seq<Integration>, x: Integration, back: seq<Integration>)
    ensures multiset(AllFiles(front + ([x] + back))) == multiset(AllFiles(front + back)) + multiset(x.files)
  {
    FilesBetween(front, x, back);
    AllFilesConcat(front, back);
    MiddleCounts(AllFiles(front), x.files, AllFiles(back));
  }

  lemma FilesBetween(front: seq<Integration>, x: Integration, back: seq<Integration>)
    ensures AllFiles(front + ([x] + back)) == AllFiles(front) + (x.files + AllFiles(back))
  {
    AllFilesConcat(front, [x] + back);
    AllFilesConcat([x], back);
    AllFilesOne(x);
  }

  lemma MiddleCounts(front: seq<File>, middle: seq<File>, back: seq<File>)
    ensures multiset(front + (middle + back)) == multiset(front + back) + multiset(middle)
  {}

  /** Paths are distinct exactly when the map holds as many files as there are. */
  lemma {:induction false} DistinctIffSize(files: seq<File>)
    ensures |ByPath(files).Keys| <= |files|
    ensures DistinctPaths(files) <==> |ByPath(files).Keys| == |files|
  {
    if files != [] {
      var init, last := files[..|files| - 1], files[|files| - 1];
      assert files == init + [last];
      DistinctIffSize(init);
      SizeSnoc(init, last);
    }
  }

  lemma SizeSnoc(files: seq<File>, f: File)
    ensures |ByPath(files + [f]).Keys| == |ByPath(files).Keys| + if f.path in ByPath(files) then 0 else 1
    ensures DistinctPaths(files + [f]) <==> DistinctPaths(files) && f.path !in ByPath(files)
  {
    ByPathSnoc(files, f);
    KeysAfterSet(ByPath(files), f);
    if DistinctPaths(files + [f]) { DistinctInit(files, f); }
    if f.path in ByPath(files) {
      TakenPath(files, f);
    } else if DistinctPaths(files) {
      DistinctSnoc(files, f);
    }
  }

  lemma KeysAfterSet(m: map<string, File>, f: File)
    ensures |m[f.path := f].Keys| == |m.Keys| + if f.path in m then 0 else 1
  {
    assert m[f.path := f].Keys == m.Keys + {f.path};
    assert f.path in m ==> m.Keys + {f.path} == m.Keys;
  }

  lemma DistinctInit(files: seq<File>, f: File)
    requires DistinctPaths(files + [f])
    ensures DistinctPaths(files)
  {
    assert forall i :: 0 <= i < |files| ==> (files + [f])[i] == files[i];
  }

  lemma TakenPath(files: seq<File>, f: File)
    requires f.path in ByPath(files)
    ensures !DistinctPaths(files + [f])
  {
    var i :| 0 <= i < |files| && files[i] == ByPath(files)[f.path];
    assert (files + [f])[i].path == (files + [f])[|files|].path;
  }

  lemma DistinctPermuted(a: seq<File>, b: seq<File>)
    requires multiset(a) == multiset(b)
    ensures DistinctPaths(a) <==> DistinctPaths(b)
  {
    DistinctIffSize(a);
    DistinctIffSize(b);
    SameSizes(a, b);
  }

  lemma SameSizes(a: seq<File>, b: seq<File>)
    requires multiset(a) == multiset(b)
    ensures |a| == |b| && |ByPath(a).Keys| == |ByPath(b).Keys|
  {
    assert |a| == |multiset(a)| == |b|;
    PathsWithin(a, b);
    PathsWithin(b, a);
    assert ByPath(a).Keys == ByPath(b).Keys;
  }

  lemma PathsWithin(a: seq<File>, b: seq<File>)
    requires multiset(a) == multiset(b)
    ensures ByPath(a).Keys <= ByPath(b).Keys
  {
    forall p | p in ByPath(a) ensures p in ByPath(b) {
      assert ByPath(a)[p] in multiset(b);
    }
  }

  /** What merging integrations promises: it succeeds exactly when all paths differ, and then drops nothing. */
  ghost predicate MergesTo(before: Order, integrations: seq<Integration>, r: Result<seq<File>, string>) {
    && (r.Ok? <==> DistinctPaths(AllFiles(integrations)))
    && (r.Ok? ==> Sorted(before, r.value) && multiset(r.value) == multiset(AllFiles(integrations)))
    && (r.Err? ==> FirstCollision(AllFiles(integrations), r.error))
  }

  /** Neither success nor the merged files depend on the order of the integrations. */
  lemma IntegrationOrderIrrelevant(before: Order, a: seq<Integration>, b: seq<Integration>,
      ra: Result<seq<File>, string>, rb: Result<seq<File>, string>)
    requires TotalOrder(before) && multiset(a) == multiset(b)
    requires MergesTo(before, a, ra) && MergesTo(before, b, rb)
    ensures ra.Ok? <==> rb.Ok?
    ensures ra.Ok? ==> ra.value == rb.value
  {
    AllFilesPermuted(a, b);
    DistinctPermuted(AllFiles(a), AllFiles(b));
    if ra.Ok? { SortedPermutation(before, ra.value, rb.value); }
  }

  lemma SortedPermutation(before: Order, a: seq<File>, b: seq<File>)
    requires TotalOrder(before) && Sorted(before, a) && Sorted(before, b)
    requires multiset(a) == multiset(b)
    ensures a == b
  {
    forall f ensures f in a <==> f in b {
      assert f in a <==> f in multiset(a);
      assert f in b <==> f in multiset(b);
    }
    SortedUnique(before, a, b);
  }

  /** Two files of two lists never share a path. */
  ghost predicate Apart(a: seq<File>, b: seq<File>) {
    forall i, j :: 0 <= i < |a| && 0 <= j < |b| ==> a[i].path != b[j].path
  }

  lemma DistinctConcat(a: seq<File>, b: seq<File>)
    ensures DistinctPaths(a + b) <==> DistinctPaths(a) && DistinctPaths(b) && Apart(a, b)
  {
    var ab := a + b;
    assert forall i :: 0 <= i < |a| ==> ab[i] == a[i];
    assert forall j :: 0 <= j < |b| ==> ab[|a| + j] == b[j];
    if DistinctPaths(a) && DistinctPaths(b) && Apart(a, b) {
      forall i, j | 0 <= i < j < |ab| ensures ab[i].path != ab[j].path {
        if i >= |a| {
          assert ab[i] == b[i - |a|] && ab[j] == b[j - |a|];
        } else if j >= |a| {
          assert ab[j] == b[j - |a|];
        }
      }
    }
  }

  // ----- Namespaces -----

  predicate NameChar(c: char) {
    'a' <= c <= 'z' || '0' <= c <= '9' || c == '-'
  }

  /** `^[a-z0-9][a-z0-9-]*$`. */
  predicate ValidName(name: string) {
    name != "" && name[0] != '-' && forall i :: 0 <= i < |name| ==> NameChar(name[i])
  }

  const TOOLS := "tools/"
  const ENV_PREFIX := "examples/env/"
  const ENV_SUFFIX := ".env.example"

  predicate IsEnv(path: string) {
    path == ".env.example" || path == "_env.example"
  }

  predicate IsTool(path: string) {
    TOOLS <= path
  }

  function EnvPath(name: string): string {
    ENV_PREFIX + name + ENV_SUFFIX
  }

  /** Where one file of an integration goes; `None` where the code throws. */
  function NamespacedPath(name: string, path: string): Option<string> {
    if IsEnv(path) then Some(EnvPath(name))
    else if IsTool(path) then
      var relative := path[|TOOLS|..];
      if relative == "" || '/' in relative then None else Some(TOOLS + (name + "-" + relative))
    else Some(path)
  }

  /** `namespaceIntegrationTemplateFiles`: only paths change; `None` where it throws. */
  function NamespaceFiles(name: string, files: seq<File>): (r: Option<seq<File>>)
    ensures r.Some? <==> ValidName(name) && forall f :: f in files ==> NamespacedPath(name, f.path).Some?
    ensures r.Some? ==> |r.value| == |files| && forall i :: 0 <= i < |files| ==>
      r.value[i] == files[i].(path := NamespacedPath(name, files[i].path).value)
  {
    if !ValidName(name) then None
    else if files == [] then Some([])
    else
      var rest := NamespaceFiles(name, files[1..]);
      var path := NamespacedPath(name, files[0].path);
      if path.None? || rest.None? then None else Some([files[0].(path := path.value)] + rest.value)
  }

  /** The longer name continues the shorter one after a hyphen. */
  predicate Continues(a: string, b: string) {
    a + "-" <= b || b + "-" <= a
  }

  /** Two tool files of the integrations get the same path. */
  ghost predicate ToolsCollide(a: string, b: string) {
    exists x, y :: ToolPath(a, x).Some? && ToolPath(a, x) == ToolPath(b, y)
  }

  function ToolPath(name: string, x: string): Option<string> {
    NamespacedPath(name, TOOLS + x)
  }

  lemma ToolPathIs(name: string, x: string)
    ensures ToolPath(name, x) == if x == "" || '/' in x then None else Some(TOOLS + (name + "-" + x))
  {
    assert (TOOLS + x)[|TOOLS|..] == x;
    assert (TOOLS + x)[0] == 't';
  }

  /** Different integrations can claim one tool path exactly when one's name continues the other's after a hyphen. */
  lemma ToolsCollideIff(a: string, b: string)
    requires ValidName(a) && ValidName(b) && a != b
    ensures ToolsCollide(a, b) <==> Continues(a, b)
  {
    if a + "-" <= b {
      Collision(a, b);
    } else if b + "-" <= a {
      Collision(b, a);
    } else if ToolsCollide(a, b) {
      var x, y :| ToolPath(a, x).Some? && ToolPath(a, x) == ToolPath(b, y);
      ToolPathIs(a, x);
      ToolPathIs(b, y);
      Unprefix(TOOLS, a + "-" + x, b + "-" + y);
      NamesOfEqualPaths(a, b, x, y);
      assert false;
    }
  }

  lemma Unprefix(prefix: string, s: string, t: string)
    requires prefix + s == prefix + t
    ensures s == t
  {
    assert s == (prefix + s)[|prefix|..] == (prefix + t)[|prefix|..] == t;
  }

  lemma Unsuffix(suffix: string, s: string, t: string)
    requires s + suffix == t + suffix
    ensures s == t
  {
    assert s == (s + suffix)[..|s|] && t == (t + suffix)[..|t|];
    assert |s + suffix| == |t + suffix|;
  }

  lemma Collision(a: string, b: string)
    requires ValidName(b) && a + "-" <= b
    ensures ToolsCollide(a, b) && ToolsCollide(b, a)
  {
    var middle := b[|a| + 1..];
    var x, y := middle + "-x", "x";
    assert b == a + "-" + middle;
    assert '/' !in middle by { assert forall i :: 0 <= i < |middle| ==> middle[i] == b[|a| + 1 + i]; }
    ToolPathIs(a, x);
    ToolPathIs(b, y);
    assert a + "-" + x == b + "-" + y;
  }

  lemma NamesOfEqualPaths(a: string, b: string, x: string, y: string)
    requires a + "-" + x == b + "-" + y
    ensures (a == b && x == y) || Continues(a, b)
  {
    var s, t := a + "-" + x, b + "-" + y;
    var n := if |a| <= |b| then |a| else |b|;
    assert s[..n] == t[..n];
    assert |a| < |b| ==> t[|a|] == b[|a|] && s[|a|] == '-';
    assert |b| < |a| ==> s[|b|] == a[|b|] && t[|b|] == '-';
    assert a == s[..|a|] && b == t[..|b|];
    if |a| == |b| { Unprefix(a + "-", x, y); }
  }

  // ----- When namespaced integrations merge -----

  /** An integration before its files are moved into its namespace. */
  datatype Package = Package(name: string, files: seq<File>)

  predicate Shared(path: string) {
    !IsEnv(path) && !IsTool(path)
  }

  /** Two source files that end up at one path, unless one name continues the other. */
  predicate Meets(a: string, x: string, b: string, y: string) {
    || (Shared(x) && x == y)
    || (a == b && IsTool(x) && x == y)
    || (a == b && IsEnv(x) && IsEnv(y))
    || (IsEnv(x) && Shared(y) && y == EnvPath(a))
    || (IsEnv(y) && Shared(x) && x == EnvPath(b))
  }

  lemma EnvPathIs(a: string, b: string, rest: string)
    ensures EnvPath(a) == EnvPath(b) <==> a == b
    ensures EnvPath(a) != TOOLS + rest
  {
    if EnvPath(a) == EnvPath(b) {
      Unsuffix(ENV_SUFFIX, ENV_PREFIX + a, ENV_PREFIX + b);
      Unprefix(ENV_PREFIX, a, b);
    }
    assert EnvPath(a)[0] == 'e' && (TOOLS + rest)[0] == 't';
  }

  lemma ToolFilesMeetIff(a: string, x: string, b: string, y: string)
    requires a == b || !Continues(a, b)
    requires IsTool(x) && NamespacedPath(a, x).Some? && IsTool(y) && NamespacedPath(b, y).Some?
    ensures NamespacedPath(a, x) == NamespacedPath(b, y) <==> a == b && x == y
  {
    var u, v := x[|TOOLS|..], y[|TOOLS|..];
    assert x == TOOLS + u && y == TOOLS + v;
    ToolPathIs(a, u);
    ToolPathIs(b, v);
    if NamespacedPath(a, x) == NamespacedPath(b, y) {
      Unprefix(TOOLS, a + "-" + u, b + "-" + v);
      if a == b {
        Unprefix(a + "-", u, v);
      } else {
        NamesOfEqualPaths(a, b, u, v);
      }
    }
  }

  /** Moving files into namespaces lets exactly those meet. */
  lemma SamePathIff(a: string, x: string, b: string, y: string)
    requires a == b || !Continues(a, b)
    requires NamespacedPath(a, x).Some? && NamespacedPath(b, y).Some?
    ensures NamespacedPath(a, x) == NamespacedPath(b, y) <==> Meets(a, x, b, y)
  {
    EnvNotTool(x);
    EnvNotTool(y);
    if IsTool(x) && IsTool(y) {
      ToolFilesMeetIff(a, x, b, y);
    } else {
      if IsTool(x) { MovedToTools(a, x, b); }
      if IsTool(y) { MovedToTools(b, y, a); }
      EnvPathIs(a, b, "");
    }
  }

  lemma EnvNotTool(path: string)
    ensures !(IsEnv(path) && IsTool(path))
  {
    if IsTool(path) { assert path[0] == 't'; }
  }

  lemma MovedToTools(a: string, x: string, b: string)
    requires IsTool(x) && NamespacedPath(a, x).Some?
    ensures IsTool(NamespacedPath(a, x).value) && NamespacedPath(a, x).value != EnvPath(b)
  {
    EnvNotTool(x);
    EnvPathIs(b, b, a + "-" + x[|TOOLS|..]);
  }

  /** No two files within a package meet. */
  predicate TidyPackage(p: Package) {
    forall i, j :: 0 <= i < j < |p.files| ==> !Meets(p.name, p.files[i].path, p.name, p.files[j].path)
  }

  predicate PackagesApart(p: Package, q: Package) {
    forall i, j :: 0 <= i < |p.files| && 0 <= j < |q.files| ==> !Meets(p.name, p.files[i].path, q.name, q.files[j].path)
  }

  predicate Namespaced(p: Package) {
    NamespaceFiles(p.name, p.files).Some?
  }

  function Moved(p: Package): (r: seq<File>)
    requires Namespaced(p)
  {
    NamespaceFiles(p.name, p.files).value
  }

  lemma MovedMeetIff(p: Package, i: int, q: Package, j: int)
    requires Namespaced(p) && Namespaced(q) && (p.name == q.name || !Continues(p.name, q.name))
    requires 0 <= i < |p.files| && 0 <= j < |q.files|
    ensures Moved(p)[i].path == Moved(q)[j].path <==> Meets(p.name, p.files[i].path, q.name, q.files[j].path)
  {
    assert p.files[i] in p.files && q.files[j] in q.files;
    SamePathIff(p.name, p.files[i].path, q.name, q.files[j].path);
  }

  lemma TidyIff(p: Package)
    requires Namespaced(p)
    ensures DistinctPaths(Moved(p)) <==> TidyPackage(p)
  {
    forall i, j | 0 <= i < j < |p.files|
      ensures Moved(p)[i].path == Moved(p)[j].path <==> Meets(p.name, p.files[i].path, p.name, p.files[j].path)
    {
      MovedMeetIff(p, i, p, j);
    }
  }

  lemma ApartIff(p: Package, q: Package)
    requires Namespaced(p) && Namespaced(q) && !Continues(p.name, q.name)
    ensures Apart(Moved(p), Moved(q)) <==> PackagesApart(p, q)
  {
    forall i, j | 0 <= i < |p.files| && 0 <= j < |q.files|
      ensures Moved(p)[i].path == Moved(q)[j].path <==> Meets(p.name, p.files[i].path, q.name, q.files[j].path)
    {
      MovedMeetIff(p, i, q, j);
    }
  }

  function Integrations(ps: seq<Package>): (r: seq<Integration>)
    requires forall p :: p in ps ==> Namespaced(p)
    ensures |r| == |ps| && forall i :: 0 <= i < |ps| ==> r[i] == Integration(Moved(ps[i]))
  {
    seq(|ps|, i requires 0 <= i < |ps| => Integration(Moved(ps[i])))
  }

  /** Every package is tidy, and earlier and later ones never meet. */
  ghost predicate NothingMeets(ps: seq<Package>) {
    && (forall i :: 0 <= i < |ps| ==> TidyPackage(ps[i]))
    && forall i, j :: 0 <= i < j < |ps| ==> PackagesApart(ps[i], ps[j])
  }

  lemma {:induction false} ApartFromAll(xs: seq<Integration>, files: seq<File>)
    ensures Apart(AllFiles(xs), files) <==> forall i :: 0 <= i < |xs| ==> Apart(xs[i].files, files)
  {
    if xs != [] {
      var init, last := xs[..|xs| - 1], xs[|xs| - 1];
      ApartFromAll(init, files);
      ApartConcat(AllFiles(init), last.files, files);
      assert forall i :: 0 <= i < |init| ==> init[i] == xs[i];
    }
  }

  lemma ApartConcat(a: seq<File>, b: seq<File>, c: seq<File>)
    ensures Apart(a + b, c) <==> Apart(a, c) && Apart(b, c)
  {
    assert forall i :: 0 <= i < |a| ==> (a + b)[i] == a[i];
    assert forall i :: 0 <= i < |b| ==> (a + b)[|a| + i] == b[i];
  }

  /** Lists of files are all distinct when each one is and no two share a path. */
  lemma {:induction false} AllDistinctIff(xs: seq<Integration>)
    ensures DistinctPaths(AllFiles(xs)) <==>
      && (forall i :: 0 <= i < |xs| ==> DistinctPaths(xs[i].files))
      && forall i, j :: 0 <= i < j < |xs| ==> Apart(xs[i].files, xs[j].files)
  {
    if xs != [] {
      var init, last := xs[..|xs| - 1], xs[|xs| - 1];
      AllDistinctIff(init);
      DistinctConcat(AllFiles(init), last.files);
      ApartFromAll(init, last.files);
      assert forall i :: 0 <= i < |init| ==> init[i] == xs[i];
    }
  }

  /**
   * Packages whose names neither repeat nor continue one another merge exactly when no two of their source
   * files meet: tool modules and environment examples of different packages never do.
   */
  lemma NamespacedMergeIff(before: Order, ps: seq<Package>, r: Result<seq<File>, string>)
    requires forall p :: p in ps ==> Namespaced(p)
    requires forall i, j :: 0 <= i < j < |ps| ==> ps[i].name != ps[j].name && !Continues(ps[i].name, ps[j].name)
    requires MergesTo(before, Integrations(ps), r)
    ensures r.Ok? <==> NothingMeets(ps)
  {
    var xs := Integrations(ps);
    AllDistinctIff(xs);
    forall i | 0 <= i < |ps| ensures DistinctPaths(xs[i].files) <==> TidyPackage(ps[i]) { TidyIff(ps[i]); }
    forall i, j | 0 <= i < j < |ps| ensures Apart(xs[i].files, xs[j].files) <==> PackagesApart(ps[i], ps[j]) {
      ApartIff(ps[i], ps[j]);
    }
  }

  /** Where each file of an integration goes, spelled out; nothing but the path changes. */
  lemma NamespacedTo(name: string, relative: string, path: string)
    ensures NamespacedPath(name, ".env.example") == Some("examples/env/" + name + ".env.example")
    ensures NamespacedPath(name, "_env.example") == Some("examples/env/" + name + ".env.example")
    ensures NamespacedPath(name, "tools/" + relative) ==
      if relative == "" || '/' in relative then None else Some("tools/" + (name + "-" + relative))
    ensures Shared(path) ==> NamespacedPath(name, path) == Some(path)
  {
    ToolPathIs(name, relative);
  }
}
