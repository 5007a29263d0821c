/** Size-bounded, oldest-first eviction of the downloaded-object cache. */
module DiskCache {
  import opened Prelude

  type Name = nat

  /** A directory entry; `cached` is false for directories and partial downloads, which are ignored. */
  datatype File = File(name: Name, mtime: int, size: nat, cached: bool)

  function Total(fs: seq<File>): nat {
    if fs == [] then 0 else Total(Front(fs)) + Last(fs).size
  }

  function Listed(fs: seq<File>): seq<File> {
    if fs == [] then [] else if Last(fs).cached then Listed(Front(fs)) + [Last(fs)] else Listed(Front(fs))
  }

  /** The files whose name is not in `gone`. */
  function Keep(fs: seq<File>, gone: set<Name>): seq<File> {
    if fs == [] then []
    else if Last(fs).name in gone then Keep(Front(fs), gone)
    else Keep(Front(fs), gone) + [Last(fs)]
  }

  function Names(fs: seq<File>): set<Name> {
    if fs == [] then {} else Names(Front(fs)) + {Last(fs).name}
  }

  predicate Distinct(fs: seq<File>) {
    fs != [] ==> Distinct(Front(fs)) && Last(fs).name !in Names(Front(fs))
  }

  // ---------- The stable sort by modification time ----------

  function Insert(fs: seq<File>, f: File): seq<File> {
    if fs == [] || Last(fs).mtime <= f.mtime then fs + [f] else Insert(Front(fs), f) + [Last(fs)]
  }

  function ByTime(fs: seq<File>): seq<File> {
    if fs == [] then [] else Insert(ByTime(Front(fs)), Last(fs))
  }

  /** Oldest first, none newer than `latest`. */
  predicate Chronological(fs: seq<File>, latest: int) {
    fs != [] ==> Last(fs).mtime <= latest && Chronological(Front(fs), Last(fs).mtime)
  }

  lemma {:induction false} InsertInTime(fs: seq<File>, f: File, latest: int)
    requires Chronological(fs, latest)
    ensures Chronological(Insert(fs, f), Max(latest, f.mtime))
  {
    if fs == [] || Last(fs).mtime <= f.mtime {
      assert Front(fs + [f]) == fs;
      if fs != [] {
        assert Chronological(fs, f.mtime);
      }
    } else {
      InsertInTime(Front(fs), f, Last(fs).mtime);
      assert Front(Insert(fs, f)) == Insert(Front(fs), f);
    }
  }

  function Newest(fs: seq<File>): int {
    if fs == [] then 0 else Max(Newest(Front(fs)), Last(fs).mtime)
  }

  lemma {:induction false} ByTimeIsChronological(fs: seq<File>)
    ensures Chronological(ByTime(fs), Newest(fs))
  {
    if fs != [] {
      ByTimeIsChronological(Front(fs));
      InsertInTime(ByTime(Front(fs)), Last(fs), Newest(Front(fs)));
    }
  }

  /** Files with one modification time keep their order. */
  function At(fs: seq<File>, time: int): seq<File> {
    if fs == [] then [] else if Last(fs).mtime == time then At(Front(fs), time) + [Last(fs)] else At(Front(fs), time)
  }

  lemma AtSnoc(fs: seq<File>, f: File, time: int)
    ensures At(fs + [f], time) == if f.mtime == time then At(fs, time) + [f] else At(fs, time)
  {
    assert Front(fs + [f]) == fs;
  }

  lemma {:induction false} InsertAt(fs: seq<File>, f: File, time: int)
    ensures At(Insert(fs, f), time) == At(fs + [f], time)
  {
    AtSnoc(fs, f, time);
    if fs != [] && f.mtime < Last(fs).mtime {
      InsertAt(Front(fs), f, time);
      AtSnoc(Front(fs), f, time);
      AtSnoc(Insert(Front(fs), f), Last(fs), time);
    }
  }

  /** The sort is a stable rearrangement: nothing is lost, added or reordered within one time. */
  lemma {:induction false} ByTimeIsStable(fs: seq<File>, time: int)
    ensures At(ByTime(fs), time) == At(fs, time)
  {
    if fs != [] {
      ByTimeIsStable(Front(fs), time);
      InsertAt(ByTime(Front(fs)), Last(fs), time);
      AtSnoc(ByTime(Front(fs)), Last(fs), time);
    }
  }

  lemma {:induction false} InsertNames(fs: seq<File>, f: File)
    ensures Names(Insert(fs, f)) == Names(fs) + {f.name}
  {
    if fs == [] || Last(fs).mtime <= f.mtime {
      assert Front(fs + [f]) == fs;
    } else {
      InsertNames(Front(fs), f);
      assert Front(Insert(fs, f)) == Insert(Front(fs), f);
    }
  }

  lemma {:induction false} ByTimeNames(fs: seq<File>)
    ensures Names(ByTime(fs)) == Names(fs)
  {
    if fs != [] {
      ByTimeNames(Front(fs));
      InsertNames(ByTime(Front(fs)), Last(fs));
    }
  }

  // ---------- Which files are tried ----------

  function Others(fs: seq<File>, protected: Name): seq<File> {
    Keep(fs, {protected})
  }

  /** Bytes actually freed: a file that had vanished frees nothing. */
  function Freed(fs: seq<File>, vanished: set<Name>): nat {
    if fs == [] then 0 else Freed(Front(fs), vanished) + if Last(fs).name in vanished then 0 else Last(fs).size
  }

  /** The first k candidates are enough. */
  predicate Enough(c: seq<File>, k: nat, vanished: set<Name>, total: int, limit: int)
    requires k <= |c|
  {
    total - Freed(c[..k], vanished) <= limit
  }

  /** The shortest prefix that gets under the limit, or everything when none does. */
  predicate Shortest(c: seq<File>, k: nat, vanished: set<Name>, total: int, limit: int)
    requires k <= |c|
  {
    && (k == |c| || Enough(c, k, vanished, total, limit))
    && NotYet(c, k, vanished, total, limit)
  }

  /** No prefix shorter than k is enough. */
  predicate NotYet(c: seq<File>, k: nat, vanished: set<Name>, total: int, limit: int)
    requires k <= |c|
  {
    forall j: nat :: j < k ==> !Enough(c, j, vanished, total, limit)
  }

  /** There is only one such prefix. */
  lemma ShortestUnique(c: seq<File>, k: nat, l: nat, vanished: set<Name>, total: int, limit: int)
    requires k <= |c| && l <= |c|
    requires Shortest(c, k, vanished, total, limit) && Shortest(c, l, vanished, total, limit)
    ensures k == l
  {
  }

  // ---------- What remains ----------

  lemma {:induction false} KeepNames(fs: seq<File>, gone: set<Name>)
    ensures Names(Keep(fs, gone)) == Names(fs) - gone
  {
    if fs != [] {
      KeepNames(Front(fs), gone);
      if Last(fs).name !in gone {
        assert Front(Keep(fs, gone)) == Keep(Front(fs), gone);
      }
    }
  }

  lemma {:induction false} KeepAll(fs: seq<File>, gone: set<Name>, name: Name)
    requires name !in Names(fs)
    ensures Keep(fs, gone + {name}) == Keep(fs, gone)
  {
    if fs != [] {
      KeepAll(Front(fs), gone, name);
    }
  }

  lemma TotalSnoc(fs: seq<File>, f: File)
    ensures Total(fs + [f]) == Total(fs) + f.size
  {
    assert Front(fs + [f]) == fs;
  }

  predicate Has(fs: seq<File>, f: File) {
    fs != [] && (Last(fs) == f || Has(Front(fs), f))
  }

  lemma {:induction false} HasName(fs: seq<File>, f: File)
    requires Has(fs, f)
    ensures f.name in Names(fs)
  {
    if Last(fs) != f {
      HasName(Front(fs), f);
    }
  }

  /** Removing one more file frees exactly its size. */
  lemma {:induction false} KeepOne(fs: seq<File>, gone: set<Name>, f: File)
    requires Distinct(fs) && Has(fs, f) && f.name !in gone
    ensures Total(Keep(fs, gone + {f.name})) + f.size == Total(Keep(fs, gone))
  {
    if Last(fs) == f {
      KeepAll(Front(fs), gone, f.name);
      TotalSnoc(Keep(Front(fs), gone), f);
    } else {
      HasName(Front(fs), f);
      KeepOne(Front(fs), gone, f);
      if Last(fs).name !in gone {
        TotalSnoc(Keep(Front(fs), gone), Last(fs));
        TotalSnoc(Keep(Front(fs), gone + {f.name}), Last(fs));
      }
    }
  }

  lemma {:induction false} KeepShrinks(fs: seq<File>, gone: set<Name>)
    ensures Total(Keep(fs, gone)) <= Total(fs)
  {
    if fs != [] {
      KeepShrinks(Front(fs), gone);
      if Last(fs).name !in gone {
        TotalSnoc(Keep(Front(fs), gone), Last(fs));
      }
    }
  }

  lemma {:induction false} ListedKeep(fs: seq<File>, gone: set<Name>)
    ensures Listed(Keep(fs, gone)) == Keep(Listed(fs), gone)
  {
    if fs != [] {
      ListedKeep(Front(fs), gone);
      var l := Last(fs);
      if l.name !in gone {
        assert Front(Keep(Front(fs), gone) + [l]) == Keep(Front(fs), gone);
      }
      if l.cached {
        assert Front(Listed(Front(fs)) + [l]) == Listed(Front(fs));
      }
    }
  }

  lemma {:induction false} KeepTwice(fs: seq<File>, a: set<Name>, b: set<Name>)
    ensures Keep(Keep(fs, a), b) == Keep(fs, a + b)
  {
    if fs != [] {
      KeepTwice(Front(fs), a, b);
      if Last(fs).name !in a {
        assert Front(Keep(Front(fs), a) + [Last(fs)]) == Keep(Front(fs), a);
      }
    }
  }

  lemma {:induction false} InsertTotal(fs: seq<File>, f: File, gone: set<Name>)
    ensures Total(Keep(Insert(fs, f), gone)) == Total(Keep(fs + [f], gone))
  {
    assert Front(fs + [f]) == fs;
    if fs != [] && f.mtime < Last(fs).mtime {
      var rest, l := Front(fs), Last(fs);
      InsertTotal(rest, f, gone);
      assert Front(rest + [f]) == rest && Front(Insert(rest, f) + [l]) == Insert(rest, f);
      TotalSnoc(Keep(Insert(rest, f), gone), l);
      TotalSnoc(Keep(rest, gone), f);
      TotalSnoc(Keep(rest, gone), l);
      TotalSnoc(Keep(fs, gone), f);
    }
  }

  /** Sorting changes no total. */
  lemma {:induction false} ByTimeTotal(fs: seq<File>, gone: set<Name>)
    ensures Total(Keep(ByTime(fs), gone)) == Total(Keep(fs, gone))
  {
    if fs != [] {
      var rest, l := Front(fs), Last(fs);
      ByTimeTotal(rest, gone);
      InsertTotal(ByTime(rest), l, gone);
      assert Front(ByTime(rest) + [l]) == ByTime(rest);
      TotalSnoc(Keep(ByTime(rest), gone), l);
      TotalSnoc(Keep(rest, gone), l);
    }
  }

  lemma {:induction false} KeepNothing(fs: seq<File>)
    ensures Keep(fs, {}) == fs
  {
    if fs != [] {
      KeepNothing(Front(fs));
      FrontLast(fs);
    }
  }

  lemma {:induction false} DistinctInsert(fs: seq<File>, f: File)
    requires Distinct(fs) && f.name !in Names(fs)
    ensures Distinct(Insert(fs, f))
  {
    if fs == [] || Last(fs).mtime <= f.mtime {
      assert Front(fs + [f]) == fs;
    } else {
      DistinctInsert(Front(fs), f);
      InsertNames(Front(fs), f);
      assert Front(Insert(fs, f)) == Insert(Front(fs), f);
    }
  }

  lemma {:induction false} DistinctByTime(fs: seq<File>)
    requires Distinct(fs)
    ensures Distinct(ByTime(fs))
  {
    if fs != [] {
      DistinctByTime(Front(fs));
      ByTimeNames(Front(fs));
      DistinctInsert(ByTime(Front(fs)), Last(fs));
    }
  }

  lemma {:induction false} DistinctKeep(fs: seq<File>, gone: set<Name>)
    requires Distinct(fs)
    ensures Distinct(Keep(fs, gone))
  {
    if fs != [] {
      DistinctKeep(Front(fs), gone);
      KeepNames(Front(fs), gone);
      if Last(fs).name !in gone {
        assert Front(Keep(fs, gone)) == Keep(Front(fs), gone);
      }
    }
  }

  lemma {:induction false} ListedNames(fs: seq<File>)
    ensures Names(Listed(fs)) <= Names(fs)
    ensures Distinct(fs) ==> Distinct(Listed(fs))
  {
    if fs != [] {
      ListedNames(Front(fs));
      if Last(fs).cached {
        assert Front(Listed(fs)) == Listed(Front(fs));
      }
    }
  }

  lemma {:induction false} HasKept(fs: seq<File>, gone: set<Name>, f: File)
    requires Has(Keep(fs, gone), f)
    ensures Has(fs, f)
  {
    if Last(fs).name in gone {
      HasKept(Front(fs), gone, f);
    } else {
      assert Front(Keep(fs, gone)) == Keep(Front(fs), gone);
      if Last(fs) != f {
        HasKept(Front(fs), gone, f);
      }
    }
  }

  lemma {:induction false} HasAt(fs: seq<File>, i: nat)
    requires i < |fs|
    ensures Has(fs, fs[i])
    ensures Distinct(fs) ==> fs[i].name !in Names(fs[..i])
  {
    if i < |fs| - 1 {
      HasAt(Front(fs), i);
      assert Front(fs)[..i] == fs[..i];
    } else {
      assert fs[..i] == Front(fs);
    }
  }

  /** After the first k candidates are gone, at least the bytes they freed are gone from the total. */
  lemma {:induction false} FreedIsGone(order: seq<File>, protected: Name, vanished: set<Name>, k: nat)
    requires Distinct(order) && k <= |Others(order, protected)|
    ensures var c := Others(order, protected);
            Total(Keep(order, vanished + Names(c[..k]))) + Freed(c[..k], vanished) <= Total(order)
  {
    var c := Others(order, protected);
    if k == 0 {
      assert vanished + Names(c[..0]) == vanished;
      KeepShrinks(order, vanished);
    } else {
      FreedIsGone(order, protected, vanished, k - 1);
      var f, before := c[k - 1], vanished + Names(c[..k - 1]);
      assert Front(c[..k]) == c[..k - 1] && Last(c[..k]) == f;
      HasAt(c, k - 1);
      HasKept(order, {protected}, f);
      DistinctKeep(order, {protected});
      assert vanished + Names(c[..k]) == before + {f.name};
      if f.name !in vanished {
        KeepOne(order, before, f);
      } else {
        assert before + {f.name} == before;
      }
    }
  }

  /** The directory once the first k candidates and the vanished files are gone. */
  function After(files: seq<File>, protected: Name, vanished: set<Name>, k: nat): seq<File>
    requires k <= |Others(ByTime(Listed(files)), protected)|
  {
    Keep(files, vanished + Names(Others(ByTime(Listed(files)), protected)[..k]))
  }

  /**
    Trying the shortest sufficient prefix leaves the cache within its limit, or
    leaves no cached file but the protected one. The protected file survives.
  */
  lemma EvictionBounds(files: seq<File>, protected: Name, vanished: set<Name>, k: nat, limit: int)
    requires Distinct(files) && k <= |Others(ByTime(Listed(files)), protected)|
    requires Shortest(Others(ByTime(Listed(files)), protected), k, vanished, Total(Listed(files)), limit)
    ensures var left := Listed(After(files, protected, vanished, k));
            Total(left) <= limit || Names(left) <= {protected}
    ensures protected in Names(files) - vanished ==> protected in Names(After(files, protected, vanished, k))
  {
    var listed := Listed(files);
    var order := ByTime(listed);
    var c := Others(order, protected);
    var gone := vanished + Names(c[..k]);
    ListedNames(files);
    DistinctByTime(listed);
    FreedIsGone(order, protected, vanished, k);
    ListedKeep(files, gone);
    ByTimeTotal(listed, gone);
    ByTimeTotal(listed, {});
    KeepNothing(order);
    KeepNothing(listed);
    KeepNames(listed, gone);
    KeepNames(files, gone);
    KeepNames(order, {protected});
    ByTimeNames(listed);
    PrefixNames(c, k);
    if k == |c| {
      assert c[..k] == c;
    }
  }

  lemma {:induction false} PrefixNames(fs: seq<File>, k: nat)
    requires k <= |fs|
    ensures Names(fs[..k]) <= Names(fs)
  {
    if k < |fs| {
      PrefixNames(Front(fs), k);
      assert Front(fs)[..k] == fs[..k];
    } else {
      assert fs[..k] == fs;
    }
  }

  lemma {:induction false} OthersPrefix(order: seq<File>, protected: Name, i: nat)
    requires i <= |order|
    ensures var c, t := Others(order, protected), Others(order[..i], protected);
            |t| <= |c| && t == c[..|t|]
  {
    if i < |order| {
      OthersPrefix(Front(order), protected, i);
      assert Front(order)[..i] == order[..i];
    } else {
      assert order[..i] == order;
    }
  }

  /** Trying the i-th file of the sorted listing: what it does to the directory and to the bytes freed. */
  lemma TryStep(all: seq<File>, protected: Name, vanished: set<Name>, i: nat)
    requires Distinct(all) && i < |ByTime(Listed(all))| && ByTime(Listed(all))[i].name != protected
    ensures var order := ByTime(Listed(all));
            var t, f := Others(order[..i], protected), order[i];
            && Others(order[..i + 1], protected) == t + [f]
            && (f.name in Names(Keep(all, vanished + Names(t))) <==> f.name !in vanished)
            && Keep(Keep(all, vanished + Names(t)), {f.name}) == Keep(all, vanished + Names(t + [f]))
            && Freed(t + [f], vanished) == Freed(t, vanished) + if f.name in vanished then 0 else f.size
  {
    var order := ByTime(Listed(all));
    var t, f := Others(order[..i], protected), order[i];
    assert Front(order[..i + 1]) == order[..i];
    assert Front(t + [f]) == t;
    KeepTwice(all, vanished + Names(t), {f.name});
    assert vanished + Names(t) + {f.name} == vanished + Names(t + [f]);
    KeepNames(all, vanished + Names(t));
    ListedNames(all);
    DistinctByTime(Listed(all));
    ByTimeNames(Listed(all));
    HasAt(order, i);
    HasName(order, f);
    KeepNames(order[..i], {protected});
  }

  /** The state of the eviction loop after i files of the sorted listing. */
  ghost predicate Progress(
    all: seq<File>, protected: Name, vanished: set<Name>, i: nat, tried: seq<File>, files: seq<File>, total: int
  ) {
    var order := ByTime(Listed(all));
    && i <= |order| && tried == Others(order[..i], protected)
    && files == Keep(all, vanished + Names(tried))
    && total == Total(Listed(all)) - Freed(tried, vanished)
  }

  lemma ProgressStep(
    all: seq<File>, protected: Name, vanished: set<Name>, i: nat, tried: seq<File>, files: seq<File>, total: int
  )
    requires Distinct(all) && i < |ByTime(Listed(all))|
    requires Progress(all, protected, vanished, i, tried, files, total)
    ensures var f := ByTime(Listed(all))[i];
            if f.name == protected then Progress(all, protected, vanished, i + 1, tried, files, total)
            else
              var ok := f.name in Names(files);
              Progress(all, protected, vanished, i + 1, tried + [f], Keep(files, {f.name}),
                       if ok then total - f.size else total)
  {
    var order := ByTime(Listed(all));
    assert Front(order[..i + 1]) == order[..i];
    if order[i].name != protected {
      TryStep(all, protected, vanished, i);
    }
  }

  lemma ProgressPrefix(
    all: seq<File>, protected: Name, vanished: set<Name>, i: nat, tried: seq<File>, files: seq<File>, total: int,
    limit: int
  )
    requires Progress(all, protected, vanished, i, tried, files, total)
    ensures var c := Others(ByTime(Listed(all)), protected);
            && |tried| <= |c| && tried == c[..|tried|]
            && (total <= limit <==> Enough(c, |tried|, vanished, Total(Listed(all)), limit))
            && (i == |ByTime(Listed(all))| ==> tried == c)
            && files == After(all, protected, vanished, |tried|)
  {
    var order := ByTime(Listed(all));
    OthersPrefix(order, protected, i);
    assert i == |order| ==> order[..i] == order;
  }

  /** The loop's state, with nothing tried so far sufficient. */
  ghost predicate Trying(
    all: seq<File>, protected: Name, vanished: set<Name>, i: nat, tried: seq<File>, files: seq<File>, total: int,
    limit: int
  ) {
    var c := Others(ByTime(Listed(all)), protected);
    && Progress(all, protected, vanished, i, tried, files, total)
    && |tried| <= |c| && NotYet(c, |tried|, vanished, Total(Listed(all)), limit)
  }

  lemma TryingStarts(all: seq<File>, protected: Name, vanished: set<Name>, limit: int)
    ensures Trying(all, protected, vanished, 0, [], Keep(all, vanished), Total(Listed(all)), limit)
  {
    assert vanished + Names([]) == vanished;
  }

  lemma TryingStep(
    all: seq<File>, protected: Name, vanished: set<Name>, i: nat, tried: seq<File>, files: seq<File>, total: int,
    limit: int
  )
    requires Distinct(all) && i < |ByTime(Listed(all))| && total > limit
    requires Trying(all, protected, vanished, i, tried, files, total, limit)
    ensures var f := ByTime(Listed(all))[i];
            if f.name == protected then Trying(all, protected, vanished, i + 1, tried, files, total, limit)
            else
              var ok := f.name in Names(files);
              Trying(all, protected, vanished, i + 1, tried + [f], Keep(files, {f.name}),
                     if ok then total - f.size else total, limit)
  {
    ProgressPrefix(all, protected, vanished, i, tried, files, total, limit);
    ProgressStep(all, protected, vanished, i, tried, files, total);
    var f := ByTime(Listed(all))[i];
    if f.name != protected {
      ProgressPrefix(all, protected, vanished, i + 1, tried + [f], Keep(files, {f.name}),
                     if f.name in Names(files) then total - f.size else total, limit);
    }
  }

  lemma TryingEnds(
    all: seq<File>, protected: Name, vanished: set<Name>, i: nat, tried: seq<File>, files: seq<File>, total: int,
    limit: int
  )
    requires Trying(all, protected, vanished, i, tried, files, total, limit)
    requires i == |ByTime(Listed(all))| || total <= limit
    ensures var c := Others(ByTime(Listed(all)), protected);
            && |tried| <= |c| && tried == c[..|tried|]
            && Shortest(c, |tried|, vanished, Total(Listed(all)), limit)
            && (|tried| < |c| ==> Total(Listed(all)) - Freed(tried, vanished) <= limit)
            && (forall j: nat :: j < |tried| ==> Total(Listed(all)) - Freed(c[..j], vanished) > limit)
            && files == After(all, protected, vanished, |tried|)
  {
    ProgressPrefix(all, protected, vanished, i, tried, files, total, limit);
    var c := Others(ByTime(Listed(all)), protected);
    forall j: nat | j < |tried|
      ensures Total(Listed(all)) - Freed(c[..j], vanished) > limit
    {
      assert !Enough(c, j, vanished, Total(Listed(all)), limit);
    }
  }

  // ---------- What is not a cached file ----------

  lemma {:induction false} ListedIff(fs: seq<File>, f: File)
    ensures Has(Listed(fs), f) <==> Has(fs, f) && f.cached
  {
    if fs != [] {
      ListedIff(Front(fs), f);
      if Last(fs).cached {
        assert Front(Listed(fs)) == Listed(Front(fs));
      }
    }
  }

  lemma {:induction false} HasKeep(fs: seq<File>, gone: set<Name>, f: File)
    ensures Has(Keep(fs, gone), f) <==> Has(fs, f) && f.name !in gone
  {
    if fs != [] {
      HasKeep(Front(fs), gone, f);
      if Last(fs).name !in gone {
        assert Front(Keep(fs, gone)) == Keep(Front(fs), gone);
      }
    }
  }

  lemma {:induction false} NamedBy(fs: seq<File>, name: Name) returns (f: File)
    requires name in Names(fs)
    ensures Has(fs, f) && f.name == name
  {
    if Last(fs).name == name {
      f := Last(fs);
    } else {
      f := NamedBy(Front(fs), name);
    }
  }

  lemma {:induction false} SameName(fs: seq<File>, f: File, g: File)
    requires Distinct(fs) && Has(fs, f) && Has(fs, g) && f.name == g.name
    ensures f == g
  {
    if Last(fs) == f || Last(fs) == g {
      if f != g {
        HasName(Front(fs), if Last(fs) == f then g else f);
      }
    } else {
      SameName(Front(fs), f, g);
    }
  }

  /** A partial download or a directory that did not vanish survives every eviction. */
  lemma UncachedSurvives(files: seq<File>, protected: Name, vanished: set<Name>, k: nat, f: File)
    requires Distinct(files) && k <= |Others(ByTime(Listed(files)), protected)|
    requires Has(files, f) && !f.cached && f.name !in vanished
    ensures Has(After(files, protected, vanished, k), f)
  {
    var c := Others(ByTime(Listed(files)), protected);
    PrefixNames(c, k);
    KeepNames(ByTime(Listed(files)), {protected});
    ByTimeNames(Listed(files));
    if f.name in Names(Listed(files)) {
      var g := NamedBy(Listed(files), f.name);
      ListedIff(files, g);
      SameName(files, f, g);
    }
    HasKeep(files, vanished + Names(c[..k]), f);
  }

  lemma UncachedAllSurvive(files: seq<File>, protected: Name, vanished: set<Name>, k: nat)
    requires Distinct(files) && k <= |Others(ByTime(Listed(files)), protected)|
    ensures forall f :: Has(files, f) && !f.cached && f.name !in vanished ==> Has(After(files, protected, vanished, k), f)
  {
    forall f | Has(files, f) && !f.cached && f.name !in vanished
      ensures Has(After(files, protected, vanished, k), f)
    {
      UncachedSurvives(files, protected, vanished, k, f);
    }
  }

  /** Entries that are not cached files count for nothing: without them the listing is the same. */
  lemma {:induction false} OnlyCachedCount(fs: seq<File>)
    ensures Listed(Listed(fs)) == Listed(fs)
    ensures forall f: File :: !f.cached ==> Listed(fs + [f]) == Listed(fs)
  {
    forall f: File | !f.cached
      ensures Listed(fs + [f]) == Listed(fs)
    {
      assert Front(fs + [f]) == fs;
    }
    if fs != [] {
      OnlyCachedCount(Front(fs));
      if Last(fs).cached {
        assert Front(Listed(fs)) == Listed(Front(fs));
      }
    }
  }

  /** An uncached entry's size and age do not matter, wherever it stands. */
  lemma {:induction false} UncachedIrrelevant(fs: seq<File>, i: nat, f: File)
    requires i < |fs| && !fs[i].cached && !f.cached
    ensures Listed(fs[i := f]) == Listed(fs)
  {
    var gs := fs[i := f];
    if i < |fs| - 1 {
      assert Front(gs) == Front(fs)[i := f];
      UncachedIrrelevant(Front(fs), i, f);
    } else {
      assert Front(gs) == Front(fs);
    }
  }

  // ---------- The cache ----------

  class Cache {
    const maxBytes: int
    var files: seq<File>

    constructor (maxBytes: int, files: seq<File>)
      ensures this.maxBytes == maxBytes && this.files == files
    {
      this.maxBytes, this.files := maxBytes, files;
    }

    /** Removes a file; false when there is none (any more). */
    method Unlink(name: Name) returns (ok: bool)
      modifies this`files
      ensures ok == (name in Names(old(files))) && files == Keep(old(files), {name})
    {
      ok := name in Names(files);
      files := Keep(files, {name});
    }

    /** The cached files and their total size. */
    method List() returns (listed: seq<File>, total: nat)
      ensures listed == Listed(files) && total == Total(Listed(files))
    {
      listed, total := [], 0;
      var i := 0;
      while i < |files|
        invariant 0 <= i <= |files|
        invariant listed == Listed(files[..i]) && total == Total(listed)
      {
        var f := files[i];
        assert Front(files[..i + 1]) == files[..i];
        if f.cached {
          TotalSnoc(listed, f);
          total := total + f.size;
          listed := listed + [f];
        }
        i := i + 1;
      }
      assert files[..i] == files;
    }

    /**
      `_enforce_cache_limit`; `vanished` are the files another process removes after they
      were listed. Nothing happens while the total is within a positive limit; otherwise the
      files tried are the shortest oldest-first prefix, protected skipped, that suffices.
    */
    method EnforceLimit(protected: Name, vanished: set<Name>) returns (tried: seq<File>)
      requires Distinct(files)
      modifies this`files
      ensures maxBytes <= 0 || Total(Listed(old(files))) <= maxBytes ==> tried == [] && files == old(files)
      ensures maxBytes > 0 && Total(Listed(old(files))) > maxBytes ==>
        var c := Others(ByTime(Listed(old(files))), protected);
        && |tried| <= |c| && tried == c[..|tried|]
        && Shortest(c, |tried|, vanished, Total(Listed(old(files))), maxBytes)
        && (|tried| < |c| ==> Total(Listed(old(files))) - Freed(tried, vanished) <= maxBytes)
        && (forall j: nat :: j < |tried| ==> Total(Listed(old(files))) - Freed(c[..j], vanished) > maxBytes)
        && files == After(old(files), protected, vanished, |tried|)
      ensures maxBytes > 0 ==> Total(Listed(files)) <= maxBytes || Names(Listed(files)) <= {protected}
      ensures protected in Names(old(files)) - vanished ==> protected in Names(files)
      ensures forall f :: Has(old(files), f) && !f.cached && f.name !in vanished ==> Has(files, f)
    {
      tried := [];
      if maxBytes <= 0 {
        return;
      }
      var listed, total: int := List();
      if total <= maxBytes {
        return;
      }
      ghost var all := files;
      files := Keep(files, vanished);
      var order := ByTime(listed);
      var i := 0;
      TryingStarts(all, protected, vanished, maxBytes);
      while i < |order|
        invariant 0 <= i <= |order| && total > maxBytes
        invariant Trying(all, protected, vanished, i, tried, files, total, maxBytes)
      {
        var f := order[i];
        TryingStep(all, protected, vanished, i, tried, files, total, maxBytes);
        i := i + 1;
        if f.name == protected {
          continue;
        }
        var ok := Unlink(f.name);
        tried := tried + [f];
        if ok {
          total := total - f.size;
        }
        if total <= maxBytes {
          break;
        }
      }
      TryingEnds(all, protected, vanished, i, tried, files, total, maxBytes);
      EvictionBounds(all, protected, vanished, |tried|, maxBytes);
      UncachedAllSurvive(all, protected, vanished, |tried|);
    }
  }
}
