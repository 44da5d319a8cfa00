/** Discovery of migration files: their versions, digests and order. */
module MigrationFiles {
  import opened Results
  import Ids = StreamIds

  predicate IsHex(c: char) {
    '0' <= c <= '9' || 'a' <= c <= 'f'
  }

  predicate IsChecksum(s: string) {
    |s| == 64 && forall i | 0 <= i < 64 :: IsHex(s[i])
  }

  /** A SHA-256 digest in lower-case hex. */
  type Digest = s: string | IsChecksum(s) witness seq(64, _ => '0')

  datatype File = File(name: string, digest: Digest)

  datatype Migration = Migration(version: string, digest: Digest)

  // ----- Discovery -----

  predicate IsVersion(v: string) {
    |v| == 4 && Ids.AllDigits(v)
  }

  /** The pattern ^(\d{4})_.+\.sql$ on a file name. */
  function ParseVersion(name: string): (r: Option<string>)
    ensures r.Some? ==> IsVersion(r.value)
  {
    if |name| >= 10 && IsVersion(name[..4]) && name[4] == '_' && name[|name| - 4..] == ".sql" && '\n' !in name
    then Some(name[..4]) else None
  }

  /** A name carries a version exactly when it is four digits, an underscore, a one-line text and the suffix. */
  lemma VersionIsReadIff(name: string, v: string)
    ensures ParseVersion(name) == Some(v) <==>
      && |v| == 4 && (forall i | 0 <= i < 4 :: '0' <= v[i] <= '9')
      && exists title :: title != "" && '\n' !in title && name == v + "_" + title + ".sql"
  {
    if ParseVersion(name) == Some(v) {
      var title := name[5..|name| - 4];
      assert name == v + "_" + title + ".sql";
      assert forall c | c in title :: c in name;
    }
    if title :| title != "" && '\n' !in title && name == v + "_" + title + ".sql" {
      if |v| == 4 && forall i | 0 <= i < 4 :: '0' <= v[i] <= '9' {
        assert name[..4] == v && name[4] == '_' && name[|name| - 4..] == ".sql";
        assert forall c | c in name :: c in v || c == '_' || c in title || c in ".sql";
      }
    }
  }

  function Versioned(files: seq<File>): (ms: seq<Migration>)
    ensures forall m | m in ms :: IsVersion(m.version)
  {
    if files == [] then []
    else
      var rest, last := Versioned(files[..|files| - 1]), files[|files| - 1];
      match ParseVersion(last.name)
      case None => rest
      case Some(v) => rest + [Migration(v, last.digest)]
  }

  /** Python's order on version strings. */
  predicate Before(a: string, b: string) {
    Ids.LexGreater(b, a)
  }

  predicate Ascending(ms: seq<Migration>) {
    forall i, j | 0 <= i < j < |ms| :: Before(ms[i].version, ms[j].version)
  }

  predicate Distinct(ms: seq<Migration>) {
    forall i, j | 0 <= i < j < |ms| :: ms[i].version != ms[j].version
  }

  predicate AllVersions(ms: seq<Migration>) {
    forall m | m in ms :: IsVersion(m.version)
  }

  /** Place a migration after those that do not come later, as a stable sort does. */
  function Insert(ms: seq<Migration>, m: Migration): seq<Migration> {
    if ms != [] && Before(m.version, ms[|ms| - 1].version)
    then Insert(ms[..|ms| - 1], m) + [ms[|ms| - 1]]
    else ms + [m]
  }

  function Sorted(ms: seq<Migration>): seq<Migration> {
    if ms == [] then [] else Insert(Sorted(ms[..|ms| - 1]), ms[|ms| - 1])
  }

  lemma {:induction false} InsertAdds(ms: seq<Migration>, m: Migration)
    ensures multiset(Insert(ms, m)) == multiset(ms) + multiset{m}
  {
    if ms != [] && Before(m.version, ms[|ms| - 1].version) {
      InsertAdds(ms[..|ms| - 1], m);
      LastApart(ms);
    }
  }

  lemma {:induction false} SortedPermutes(ms: seq<Migration>)
    ensures multiset(Sorted(ms)) == multiset(ms)
  {
    if ms != [] {
      var front, last := ms[..|ms| - 1], ms[|ms| - 1];
      SortedPermutes(front);
      InsertAdds(Sorted(front), last);
      hide Insert;
      LastApart(ms);
    }
  }

  lemma LastApart(ms: seq<Migration>)
    requires ms != []
    ensures multiset(ms) == multiset(ms[..|ms| - 1]) + multiset{ms[|ms| - 1]}
  {
    assert ms == ms[..|ms| - 1] + [ms[|ms| - 1]];
  }

  lemma SameMembers(a: seq<Migration>, b: seq<Migration>)
    requires multiset(a) == multiset(b)
    ensures forall x :: x in a <==> x in b
  {
    assert forall x :: x in a <==> x in multiset(a);
    assert forall x :: x in b <==> x in multiset(b);
  }

  lemma InsertKeepsElements(ms: seq<Migration>, m: Migration)
    ensures forall x :: x in Insert(ms, m) <==> x in ms || x == m
  {
    InsertAdds(ms, m);
    SameMembers(Insert(ms, m), ms + [m]);
  }

  lemma SortedKeepsElements(ms: seq<Migration>)
    ensures multiset(Sorted(ms)) == multiset(ms)
    ensures forall x :: x in Sorted(ms) <==> x in ms
  {
    SortedPermutes(ms);
    SameMembers(Sorted(ms), ms);
  }

  /** Version strings are ordered as the numbers they spell. */
  lemma BeforeIsNumeric(a: string, b: string)
    requires IsVersion(a) && IsVersion(b)
    ensures Before(a, b) <==> Ids.Value(a) < Ids.Value(b)
    ensures a == b <==> Ids.Value(a) == Ids.Value(b)
  {
    Ids.SameLengthOrder(b, a);
  }

  /** No later element comes before an earlier one. */
  predicate InOrder(ms: seq<Migration>) {
    forall i, j | 0 <= i < j < |ms| :: !Before(ms[j].version, ms[i].version)
  }

  lemma {:induction false} InsertKeepsOrder(ms: seq<Migration>, m: Migration)
    requires AllVersions(ms) && IsVersion(m.version) && InOrder(ms)
    ensures InOrder(Insert(ms, m))
  {
    if ms != [] {
      var front, last := ms[..|ms| - 1], ms[|ms| - 1];
      BeforeIsNumeric(m.version, last.version);
      if Before(m.version, last.version) {
        InsertKeepsOrder(front, m);
        InsertKeepsElements(front, m);
        var r := Insert(front, m);
        forall i | 0 <= i < |r|
          ensures !Before(last.version, r[i].version)
        {
          assert r[i] in r;
          if r[i] == m {
            BeforeIsNumeric(last.version, m.version);
          } else {
            var k :| 0 <= k < |front| && front[k] == r[i];
            assert ms[k] == r[i];
          }
        }
      } else {
        forall i | 0 <= i < |ms|
          ensures !Before(m.version, ms[i].version)
        {
          assert ms[i] in ms;
          BeforeIsNumeric(m.version, ms[i].version);
          BeforeIsNumeric(last.version, ms[i].version);
          assert i < |ms| - 1 ==> !Before(last.version, ms[i].version);
        }
      }
    }
  }

  lemma {:induction false} SortedIsInOrder(ms: seq<Migration>)
    requires AllVersions(ms)
    ensures InOrder(Sorted(ms)) && AllVersions(Sorted(ms))
  {
    SortedKeepsElements(ms);
    if ms != [] {
      var front := ms[..|ms| - 1];
      SortedIsInOrder(front);
      InsertKeepsOrder(Sorted(front), ms[|ms| - 1]);
    }
  }

  lemma InOrderAndDistinctAscends(ms: seq<Migration>)
    requires AllVersions(ms) && InOrder(ms)
    ensures Distinct(ms) <==> Ascending(ms)
  {
    forall i, j | 0 <= i < j < |ms|
      ensures ms[i].version != ms[j].version <==> Before(ms[i].version, ms[j].version)
    {
      assert ms[i] in ms && ms[j] in ms;
      BeforeIsNumeric(ms[i].version, ms[j].version);
      BeforeIsNumeric(ms[j].version, ms[i].version);
    }
  }

  function Versions(ms: seq<Migration>): set<string> {
    set i | 0 <= i < |ms| :: ms[i].version
  }

  lemma VersionsOfSnoc(front: seq<Migration>, last: Migration)
    ensures Versions(front + [last]) == Versions(front) + {last.version}
  {
    var ms := front + [last];
    forall v | v in Versions(front) + {last.version}
      ensures v in Versions(ms)
    {
      if v in Versions(front) {
        var i :| 0 <= i < |front| && front[i].version == v;
        assert ms[i].version == v;
      } else {
        assert ms[|front|].version == v;
      }
    }
  }

  lemma DistinctSnoc(front: seq<Migration>, last: Migration)
    ensures Distinct(front + [last]) <==> Distinct(front) && last.version !in Versions(front)
  {
    var ms := front + [last];
    if Distinct(ms) {
      forall i, j | 0 <= i < j < |front|
        ensures front[i].version != front[j].version
      {
        assert ms[i] == front[i] && ms[j] == front[j];
      }
      forall i | 0 <= i < |front|
        ensures front[i].version != last.version
      {
        assert ms[i] == front[i] && ms[|front|] == last;
      }
    }
  }

  lemma {:induction false} DistinctByCount(ms: seq<Migration>)
    ensures |Versions(ms)| <= |ms|
    ensures Distinct(ms) <==> |Versions(ms)| == |ms|
  {
    if ms != [] {
      var front, last := ms[..|ms| - 1], ms[|ms| - 1];
      assert ms == front + [last];
      DistinctByCount(front);
      VersionsOfSnoc(front, last);
      DistinctSnoc(front, last);
    }
  }

  lemma SortingKeepsDistinctness(ms: seq<Migration>)
    ensures Distinct(Sorted(ms)) <==> Distinct(ms)
  {
    SortedKeepsElements(ms);
    DistinctByCount(ms);
    DistinctByCount(Sorted(ms));
    assert |Sorted(ms)| == |multiset(Sorted(ms))| == |ms|;
    assert Versions(Sorted(ms)) == Versions(ms) by {
      SameElementsSameVersions(Sorted(ms), ms);
      SameElementsSameVersions(ms, Sorted(ms));
    }
  }

  lemma SameElementsSameVersions(a: seq<Migration>, b: seq<Migration>)
    requires forall x | x in a :: x in b
    ensures Versions(a) <= Versions(b)
  {
    forall v | v in Versions(a)
      ensures v in Versions(b)
    {
      var i :| 0 <= i < |a| && a[i].version == v;
      assert a[i] in a;
      var j :| 0 <= j < |b| && b[j] == a[i];
    }
  }

  method HasDuplicateVersions(ms: seq<Migration>) returns (dup: bool)
    ensures dup <==> !Distinct(ms)
  {
    var seen: set<string> := {};
    dup := false;
    for k := 0 to |ms|
      invariant forall v :: v in seen <==> exists i :: 0 <= i < k && ms[i].version == v
      invariant !dup <==> Distinct(ms[..k])
    {
      assert ms[..k + 1] == ms[..k] + [ms[k]];
      if ms[k].version in seen {
        var i :| 0 <= i < k && ms[i].version == ms[k].version;
        assert ms[..k + 1][i].version == ms[..k + 1][k].version;
        dup := true;
      }
      seen := seen + {ms[k].version};
    }
    assert ms[..|ms|] == ms;
  }

  /** The migrations are those of the files whose names carry a version, and no others. */
  ghost predicate ListsVersionedFiles(ms: seq<Migration>, files: seq<File>) {
    forall m :: m in ms <==>
      exists i :: 0 <= i < |files| && ParseVersion(files[i].name) == Some(m.version) && files[i].digest == m.digest
  }

  /** Every versioned file, ascending by version; refused when two files share a version. */
  method DiscoverMigrations(files: seq<File>) returns (r: Result<seq<Migration>, string>)
    ensures r.Err? <==> !Distinct(Versioned(files))
    ensures r.Ok? ==> r.value == Sorted(Versioned(files)) && Ascending(r.value) && Distinct(r.value)
    ensures r.Ok? ==> ListsVersionedFiles(r.value, files)
  {
    var items: seq<Migration> := [];
    for k := 0 to |files|
      invariant items == Versioned(files[..k])
    {
      assert files[..k + 1][..k] == files[..k];
      var version := ParseVersion(files[k].name);
      if version.Some? {
        items := items + [Migration(version.value, files[k].digest)];
      }
    }
    assert files[..|files|] == files;
    var sorted := Sorted(items);
    SortingKeepsDistinctness(items);
    var dup := HasDuplicateVersions(sorted);
    if dup {
      return Err("Duplicate migration versions");
    }
    SortedIsInOrder(items);
    InOrderAndDistinctAscends(sorted);
    SortedKeepsElements(items);
    VersionedFiles(files);
    return Ok(sorted);
  }

  lemma {:induction false} VersionedFiles(files: seq<File>)
    ensures ListsVersionedFiles(Versioned(files), files)
  {
    if files != [] {
      var front, last := files[..|files| - 1], files[|files| - 1];
      VersionedFiles(front);
      forall m
        ensures m in Versioned(files) <==>
                exists i :: 0 <= i < |files| && ParseVersion(files[i].name) == Some(m.version) &&
                  files[i].digest == m.digest
      {
        if m in Versioned(front) {
          var i :| 0 <= i < |front| && ParseVersion(front[i].name) == Some(m.version) && front[i].digest == m.digest;
          assert files[i] == front[i];
        }
        if i :| 0 <= i < |files| && ParseVersion(files[i].name) == Some(m.version) && files[i].digest == m.digest {
          assert i < |front| ==> files[i] == front[i];
        }
      }
    }
  }
}
