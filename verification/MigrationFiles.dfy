/** Which files Migrate applies and in which order (internal/db/postgres.go, lines 150-164). */
module MigrationFiles {
  import Migration

  datatype DirEntry = DirEntry(name: string, isDir: bool)

  const SUFFIX := ".sql"

  predicate IsSql(e: DirEntry) {
    !e.isDir && |SUFFIX| <= |e.name| && e.name[|e.name| - |SUFFIX|..] == SUFFIX
  }

  function SqlNames(entries: seq<DirEntry>): seq<string> {
    if entries == [] then []
    else
      var names := SqlNames(entries[..|entries| - 1]);
      var e := entries[|entries| - 1];
      if IsSql(e) then names + [e.name] else names
  }

  // ---- sort.Strings

  predicate Less(a: string, b: string) {
    b != [] && (a == [] || a[0] < b[0] || (a[0] == b[0] && Less(a[1..], b[1..])))
  }

  /** Lexical order at position k: equal up to there, and then a ends or has the smaller character. */
  predicate SmallerAt(a: string, b: string, k: nat) {
    k <= |a| && k < |b| && a[..k] == b[..k] && (k == |a| || a[k] < b[k])
  }

  ghost predicate Lexical(a: string, b: string) {
    exists k: nat :: SmallerAt(a, b, k)
  }

  /** Less is the lexical order. */
  lemma {:induction false} LessIff(a: string, b: string)
    ensures Less(a, b) <==> Lexical(a, b)
  {
    if b != [] && a != [] && a[0] == b[0] {
      LessIff(a[1..], b[1..]);
      LexicalTail(a, b);
    } else if Less(a, b) {
      assert SmallerAt(a, b, 0);
    } else if Lexical(a, b) {
      var k: nat :| SmallerAt(a, b, k);
      SmallerFirst(a, b, k);
    }
  }

  lemma SmallerFirst(a: string, b: string, k: nat)
    requires SmallerAt(a, b, k)
    ensures b != [] && (a == [] || a[0] < b[0] || a[0] == b[0])
  {
    assert forall i :: 0 <= i < k ==> a[i] == a[..k][i] && b[i] == b[..k][i];
  }

  lemma LexicalTail(a: string, b: string)
    requires a != [] && b != [] && a[0] == b[0]
    ensures Lexical(a, b) <==> Lexical(a[1..], b[1..])
  {
    if Lexical(a, b) {
      var k: nat :| SmallerAt(a, b, k);
      assert k > 0;
      assert a[1..][..k - 1] == a[..k][1..] && b[1..][..k - 1] == b[..k][1..];
      assert SmallerAt(a[1..], b[1..], k - 1);
    }
    if Lexical(a[1..], b[1..]) {
      var k: nat :| SmallerAt(a[1..], b[1..], k);
      assert a[..k + 1] == [a[0]] + a[1..][..k] && b[..k + 1] == [b[0]] + b[1..][..k];
      assert SmallerAt(a, b, k + 1);
    }
  }

  predicate Leq(a: string, b: string) {
    !Less(b, a)
  }

  lemma {:induction false} LeqTotal(a: string, b: string)
    ensures Leq(a, b) || Leq(b, a)
    ensures Leq(a, b) && Leq(b, a) ==> a == b
  {
    if a != [] && b != [] && a[0] == b[0] {
      LeqTotal(a[1..], b[1..]);
      assert a == [a[0]] + a[1..] && b == [b[0]] + b[1..];
    }
  }

  lemma {:induction false} LeqTransitive(a: string, b: string, c: string)
    requires Leq(a, b) && Leq(b, c)
    ensures Leq(a, c)
  {
    if a != [] && b != [] && c != [] && a[0] == b[0] == c[0] {
      LeqTransitive(a[1..], b[1..], c[1..]);
    }
  }

  predicate Ordered(xs: seq<string>) {
    forall i, j :: 0 <= i < j < |xs| ==> Leq(xs[i], xs[j])
  }

  function Insert(x: string, xs: seq<string>): seq<string> {
    if xs == [] || Leq(x, xs[0]) then [x] + xs else [xs[0]] + Insert(x, xs[1..])
  }

  function Sort(xs: seq<string>): seq<string> {
    if xs == [] then [] else Insert(xs[0], Sort(xs[1..]))
  }

  lemma {:induction false} InsertOrdered(x: string, xs: seq<string>)
    requires Ordered(xs)
    ensures Ordered(Insert(x, xs)) && multiset(Insert(x, xs)) == multiset{x} + multiset(xs)
  {
    if xs == [] {
    } else if Leq(x, xs[0]) {
      forall j | 0 <= j < |xs| ensures Leq(x, xs[j]) {
        if j > 0 { LeqTransitive(x, xs[0], xs[j]); }
      }
    } else {
      var rest := Insert(x, xs[1..]);
      InsertOrdered(x, xs[1..]);
      assert xs == [xs[0]] + xs[1..];
      LeqTotal(x, xs[0]);
      forall j | 0 <= j < |rest| ensures Leq(xs[0], rest[j]) {
        assert rest[j] in multiset(rest);
        if rest[j] != x {
          assert rest[j] in multiset(xs[1..]);
        }
      }
    }
  }

  lemma {:induction false} SortOrdered(xs: seq<string>)
    ensures Ordered(Sort(xs)) && multiset(Sort(xs)) == multiset(xs)
  {
    if xs != [] {
      SortOrdered(xs[1..]);
      InsertOrdered(xs[0], Sort(xs[1..]));
      assert xs == [xs[0]] + xs[1..];
    }
  }

  /** An ordered list is determined by its elements. */
  lemma {:induction false} OrderedUnique(xs: seq<string>, ys: seq<string>)
    requires Ordered(xs) && Ordered(ys) && multiset(xs) == multiset(ys)
    ensures xs == ys
  {
    if xs == [] {
      assert |multiset(ys)| == |ys|;
    } else {
      assert |multiset(xs)| == |xs| && |multiset(ys)| == |ys|;
      SameFirst(xs, ys);
      DropFirst(xs);
      DropFirst(ys);
      OrderedUnique(xs[1..], ys[1..]);
      assert xs == [xs[0]] + xs[1..] && ys == [ys[0]] + ys[1..];
    }
  }

  lemma DropFirst(xs: seq<string>)
    requires xs != []
    ensures multiset(xs[1..]) == multiset(xs) - multiset{xs[0]}
  {
    assert xs == [xs[0]] + xs[1..];
  }

  lemma SameFirst(xs: seq<string>, ys: seq<string>)
    requires xs != [] && ys != [] && Ordered(xs) && Ordered(ys) && multiset(xs) == multiset(ys)
    ensures xs[0] == ys[0]
  {
    SameElements(ys, xs, xs[0]);
    SameElements(xs, ys, ys[0]);
    LeqTotal(xs[0], ys[0]);
    FirstIsLeast(xs, ys[0]);
    FirstIsLeast(ys, xs[0]);
  }

  lemma FirstIsLeast(xs: seq<string>, x: string)
    requires Ordered(xs) && x in xs
    ensures Leq(xs[0], x)
  {
    LeqTotal(x, x);
  }

  // ---- the versions

  function Version(name: string): string
    requires |SUFFIX| <= |name|
  {
    name[..|name| - |SUFFIX|]
  }

  predicate IsSqlName(name: string) {
    |SUFFIX| <= |name| && name[|name| - |SUFFIX|..] == SUFFIX
  }

  predicate AllSql(names: seq<string>) {
    forall i :: 0 <= i < |names| ==> IsSqlName(names[i])
  }

  function Versions(names: seq<string>): (vs: seq<string>)
    requires AllSql(names)
    ensures |vs| == |names|
  {
    seq(|names|, i requires 0 <= i < |names| => Version(names[i]))
  }

  lemma {:induction false} SqlNamesFit(entries: seq<DirEntry>)
    ensures AllSql(SqlNames(entries))
    ensures forall n :: n in SqlNames(entries) <==> DirEntry(n, false) in entries && IsSql(DirEntry(n, false))
  {
    if entries != [] {
      SqlNamesFit(entries[..|entries| - 1]);
      assert entries == entries[..|entries| - 1] + [entries[|entries| - 1]];
    }
  }

  lemma SortedFit(entries: seq<DirEntry>)
    ensures AllSql(Sort(SqlNames(entries)))
  {
    SqlNamesFit(entries);
    SortOrdered(SqlNames(entries));
    SameElementsFit(SqlNames(entries), Sort(SqlNames(entries)));
  }

  lemma SameElementsFit(names: seq<string>, sorted: seq<string>)
    requires AllSql(names) && multiset(sorted) == multiset(names)
    ensures AllSql(sorted)
  {
    forall i | 0 <= i < |sorted| ensures IsSqlName(sorted[i]) {
      SameElements(names, sorted, sorted[i]);
    }
  }

  lemma SameElements(xs: seq<string>, ys: seq<string>, y: string)
    requires multiset(xs) == multiset(ys) && y in ys
    ensures y in xs
  {
    assert y in multiset(ys);
  }

  /** The versions of a directory in the order Migrate takes them. */
  function FilesOf(entries: seq<DirEntry>): seq<string> {
    SortedFit(entries);
    Versions(Sort(SqlNames(entries)))
  }

  predicate DistinctNames(entries: seq<DirEntry>) {
    forall i, j :: 0 <= i < j < |entries| ==> entries[i].name != entries[j].name
  }

  lemma {:induction false} SqlNamesDistinct(entries: seq<DirEntry>)
    requires DistinctNames(entries)
    ensures forall n :: multiset(SqlNames(entries))[n] <= 1
  {
    if entries != [] {
      var before, e := entries[..|entries| - 1], entries[|entries| - 1];
      SqlNamesDistinct(before);
      if IsSql(e) {
        SqlNamesFit(before);
        assert DirEntry(e.name, false) !in before;
      }
    }
  }

  lemma {:induction false} DistinctFromCounts(xs: seq<string>)
    requires forall n :: multiset(xs)[n] <= 1
    ensures Migration.Distinct(xs)
  {
    if xs != [] {
      var before, x := xs[..|xs| - 1], xs[|xs| - 1];
      assert xs == before + [x];
      assert multiset(xs) == multiset(before) + multiset{x};
      forall n ensures multiset(before)[n] <= 1 {
        assert multiset(xs)[n] <= 1;
      }
      DistinctFromCounts(before);
      assert multiset(xs)[x] <= 1;
      assert x !in before;
    }
  }

  /** No version comes twice. */
  lemma FilesDistinct(entries: seq<DirEntry>)
    requires DistinctNames(entries)
    ensures Migration.Distinct(FilesOf(entries))
  {
    var names := Sort(SqlNames(entries));
    SortedFit(entries);
    SqlNamesDistinct(entries);
    SortOrdered(SqlNames(entries));
    DistinctFromCounts(names);
    var vs := Versions(names);
    forall i, j | 0 <= i < j < |vs| ensures vs[i] != vs[j] {
      assert names[i] == vs[i] + SUFFIX && names[j] == vs[j] + SUFFIX;
    }
  }

  /** The versions are those of the plain files whose name ends in .sql. */
  lemma FilesAre(entries: seq<DirEntry>, version: string)
    ensures version in FilesOf(entries) <==> DirEntry(version + ".sql", false) in entries
  {
    var names, name := Sort(SqlNames(entries)), version + ".sql";
    SortedFit(entries);
    SqlNamesFit(entries);
    SortOrdered(SqlNames(entries));
    assert name[|name| - 4..] == ".sql" && name[..|name| - 4] == version;
    if version in FilesOf(entries) {
      var i :| 0 <= i < |names| && Version(names[i]) == version;
      assert names[i] == name;
      SameElements(SqlNames(entries), names, name);
    }
    if DirEntry(name, false) in entries {
      SameElements(names, SqlNames(entries), name);
      var i :| 0 <= i < |names| && names[i] == name;
      assert FilesOf(entries)[i] == version;
    }
  }

  /** They come in the lexical order of the file names. */
  lemma FilesInOrder(entries: seq<DirEntry>, i: nat, j: nat)
    requires DistinctNames(entries) && i < j < |FilesOf(entries)|
    ensures Lexical(FilesOf(entries)[i] + ".sql", FilesOf(entries)[j] + ".sql")
  {
    var names, vs := Sort(SqlNames(entries)), FilesOf(entries);
    SortedFit(entries);
    SortOrdered(SqlNames(entries));
    FilesDistinct(entries);
    assert names[i] == vs[i] + ".sql" && names[j] == vs[j] + ".sql";
    assert vs[i] != vs[j];
    assert names[i] != names[j] by {
      assert names[i][..|names[i]| - 4] == vs[i] && names[j][..|names[j]| - 4] == vs[j];
    }
    LeqTotal(names[i], names[j]);
    LessIff(names[i], names[j]);
  }

  /** The order in which the directory is listed does not matter. */
  lemma FilesCanonical(entries: seq<DirEntry>, listed: seq<DirEntry>)
    requires multiset(SqlNames(entries)) == multiset(SqlNames(listed))
    ensures FilesOf(entries) == FilesOf(listed)
  {
    SortOrdered(SqlNames(entries));
    SortOrdered(SqlNames(listed));
    OrderedUnique(Sort(SqlNames(entries)), Sort(SqlNames(listed)));
  }
}
