/**
 * Sorted tables, levels and the level search of db/version_set.cc.
 */
module Version {
  import opened DbFormat

  const NUM_LEVELS := 7

  /** A table file: its number and its rows (FileMetaData plus the table it names). */
  datatype FileMetaData = FileMetaData(number: nat, rows: seq<Entry>)

  type File = f: FileMetaData | f.rows != []
    witness FileMetaData(0, [Entry(InternalKey(0.0, 0, Deletion), [])])

  function Smallest(f: File): InternalKey { f.rows[0].ikey }

  function Largest(f: File): InternalKey { f.rows[|f.rows| - 1].ikey }

  type Levels = seq<seq<File>>

  ghost predicate Holds(fs: seq<File>, e: Entry) {
    exists f :: f in fs && e in f.rows
  }

  ghost function RowSet(rows: seq<Entry>): set<Entry> {
    set e | e in rows
  }

  /** All entries of a list of files. */
  ghost function Rows(fs: seq<File>): (s: set<Entry>)
    ensures forall e :: e in s <==> Holds(fs, e)
  {
    set f, e | f in fs && e in f.rows :: e
  }

  /** All entries of a version. */
  ghost function VersionRows(v: Levels): (s: set<Entry>)
    ensures forall e :: e in s <==> exists l :: 0 <= l < |v| && Holds(v[l], e)
  {
    set l, f, e | 0 <= l < |v| && f in v[l] && e in f.rows :: e
  }

  /** Every entry of `s` is newer than every entry of `t` for the same user key. */
  ghost predicate Newer(s: seq<Entry>, t: seq<Entry>) {
    forall a, b :: a in s && b in t && a.ikey.user == b.ikey.user ==> a.ikey.sequence > b.ikey.sequence
  }

  ghost predicate Disjoint(fs: seq<File>) {
    forall i, j :: 0 <= i < j < |fs| ==> Before(Largest(fs[i]), Smallest(fs[j]))
  }

  ghost predicate LevelsSorted(v: Levels) {
    forall l, f :: 0 <= l < |v| && f in v[l] ==> Sorted(f.rows)
  }

  /** Levels above 0 hold sorted, disjoint files. */
  ghost predicate LevelsDisjoint(v: Levels) {
    forall l :: 1 <= l < |v| ==> Disjoint(v[l])
  }

  /** A shallower level is newer, key by key, than a deeper one. */
  ghost predicate ShallowNewer(v: Levels) {
    forall l, m, f, g :: 0 <= l < m < |v| && f in v[l] && g in v[m] ==> Newer(f.rows, g.rows)
  }

  /** In level 0 the file with the larger number is newer. */
  ghost predicate LevelZeroByNumber(v: Levels)
    requires |v| > 0
  {
    && (forall f, g :: f in v[0] && g in v[0] && f.number > g.number ==> Newer(f.rows, g.rows))
    && (forall f, g :: f in v[0] && g in v[0] && f.number == g.number ==> f == g)
  }

  ghost predicate LevelInvariant(v: Levels) {
    && |v| == NUM_LEVELS
    && LevelsSorted(v)
    && LevelsDisjoint(v)
    && ShallowNewer(v)
    && LevelZeroByNumber(v)
  }

  /** Rows of a sorted file lie between its smallest and its largest key. */
  lemma RowsWithinRange(f: File, e: Entry)
    requires Sorted(f.rows) && e in f.rows
    ensures !Before(e.ikey, Smallest(f)) && !Before(Largest(f), e.ikey)
    ensures Smallest(f).user <= e.ikey.user <= Largest(f).user
  {
  }

  // ---- FindFile: binary search over a disjoint level ----

  /** The earliest index whose largest key is at or after `key`. */
  method FindFile(fs: seq<File>, key: InternalKey) returns (right: nat)
    requires Disjoint(fs) && forall f :: f in fs ==> Sorted(f.rows)
    ensures right <= |fs|
    ensures forall i :: 0 <= i < right ==> Before(Largest(fs[i]), key)
    ensures forall i :: right <= i < |fs| ==> !Before(Largest(fs[i]), key)
  {
    var left := 0;
    right := |fs|;
    while left < right
      invariant left <= right <= |fs|
      invariant forall i :: 0 <= i < left ==> Before(Largest(fs[i]), key)
      invariant forall i :: right <= i < |fs| ==> !Before(Largest(fs[i]), key)
    {
      var mid := (left + right) / 2;
      CompareIsBefore(Largest(fs[mid]), key);
      forall i, j | 0 <= i < j < |fs| ensures Before(Largest(fs[i]), Largest(fs[j])) {
        LargestIncreases(fs, i, j);
      }
      if Compare(Largest(fs[mid]), key) < 0 {
        left := mid + 1;
      } else {
        right := mid;
      }
    }
  }

  lemma LargestIncreases(fs: seq<File>, i: nat, j: nat)
    requires Disjoint(fs) && (forall f :: f in fs ==> Sorted(f.rows)) && i < j < |fs|
    ensures Before(Largest(fs[i]), Largest(fs[j]))
    ensures Before(Smallest(fs[i]), Smallest(fs[j]))
  {
  }

  // ---- SomeFileOverlapsRange ----

  /** User-key ranges intersect; an absent bound is unbounded. */
  predicate Overlaps(f: File, lo: Option<UserKey>, hi: Option<UserKey>) {
    !(lo.Some? && lo.value > Largest(f).user) && !(hi.Some? && hi.value < Smallest(f).user)
  }

  method SomeFileOverlapsRange(disjointSorted: bool, fs: seq<File>, lo: Option<UserKey>, hi: Option<UserKey>)
    returns (r: bool)
    requires forall f :: f in fs ==> Sorted(f.rows)
    requires disjointSorted ==> Disjoint(fs)
    requires forall f, e :: f in fs && e in f.rows ==> e.ikey.sequence <= MAX_SEQUENCE
    ensures r <==> exists f :: f in fs && Overlaps(f, lo, hi)
  {
    if !disjointSorted {
      for i := 0 to |fs|
        invariant forall j :: 0 <= j < i ==> !Overlaps(fs[j], lo, hi)
      {
        if Overlaps(fs[i], lo, hi) {
          return true;
        }
      }
      return false;
    }
    var index := 0;
    if lo.Some? {
      index := FindFile(fs, SeekKey(lo.value, MAX_SEQUENCE));
      forall i | 0 <= i < |fs| ensures i < index <==> Largest(fs[i]).user < lo.value {}
    }
    if index >= |fs| {
      return false;
    }
    r := !(hi.Some? && hi.value < Smallest(fs[index]).user);
    if !r {
      forall j | index < j < |fs| ensures !Overlaps(fs[j], lo, hi) {
        LargestIncreases(fs, index, j);
      }
    } else {
      assert Overlaps(fs[index], lo, hi);
    }
  }

  // ---- Table and version lookup ----

  datatype Lookup = NotHere | Here(e: Entry)

  /** TableCache::Get with SaveValue: the first row at or after the seek key, if it has the user key. */
  method TableGet(f: File, k: UserKey, snapshot: nat) returns (r: Lookup)
    requires Sorted(f.rows)
    ensures r.Here? ==> IsNewest(RowSet(f.rows), k, snapshot, r.e)
    ensures r.NotHere? ==> forall e :: e in f.rows ==> !Visible(e, k, snapshot)
  {
    var key := SeekKey(k, snapshot);
    var i := 0;
    while i < |f.rows| && Compare(f.rows[i].ikey, key) < 0
      invariant i <= |f.rows|
      invariant forall j :: 0 <= j < i ==> Before(f.rows[j].ikey, key)
    {
      CompareIsBefore(f.rows[i].ikey, key);
      i := i + 1;
    }
    if i < |f.rows| { CompareIsBefore(f.rows[i].ikey, key); }
    FirstAtOrAfterIsNewest(f.rows, k, snapshot, i);
    if i < |f.rows| && f.rows[i].ikey.user == k {
      r := Here(f.rows[i]);
    } else {
      r := NotHere;
    }
  }

  lemma FirstAtOrAfterIsNewest(rows: seq<Entry>, k: UserKey, snapshot: nat, i: nat)
    requires Sorted(rows) && IsFirstAtOrAfter(rows, SeekKey(k, snapshot), i)
    ensures i < |rows| && rows[i].ikey.user == k ==> IsNewest(RowSet(rows), k, snapshot, rows[i])
    ensures !(i < |rows| && rows[i].ikey.user == k) ==> forall e :: e in rows ==> !Visible(e, k, snapshot)
  {
  }

  /** `fs` is a newest-first arrangement of the level-0 files that may hold `k`. */
  ghost predicate NewestFirst(fs: seq<File>) {
    forall i, j :: 0 <= i < j < |fs| ==> fs[i].number > fs[j].number
  }

  /** Inserts `f` before the first file with a smaller number (std::sort with NewestFirst). */
  method InsertByNumber(fs: seq<File>, f: File) returns (r: seq<File>)
    requires NewestFirst(fs) && forall g :: g in fs ==> g.number != f.number
    ensures NewestFirst(r)
    ensures forall g :: g in r <==> g in fs || g == f
  {
    var i := 0;
    while i < |fs| && fs[i].number > f.number
      invariant i <= |fs|
      invariant forall j :: 0 <= j < i ==> fs[j].number > f.number
    {
      i := i + 1;
    }
    r := fs[..i] + [f] + fs[i..];
    InsertMembers(fs, f, i);
  }

  lemma InsertMembers(fs: seq<File>, f: File, i: nat)
    requires i <= |fs|
    ensures forall g :: g in fs[..i] + [f] + fs[i..] <==> g in fs || g == f
  {
  }

  /** The files of level 0 whose user-key range contains `k`, newest first. */
  method LevelZeroCandidates(fs: seq<File>, k: UserKey) returns (tmp: seq<File>)
    requires forall f, g :: f in fs && g in fs && f.number == g.number ==> f == g
    requires forall i, j :: 0 <= i < j < |fs| ==> fs[i] != fs[j]
    ensures Candidates(fs, k, tmp)
  {
    tmp := [];
    for i := 0 to |fs|
      invariant NewestFirst(tmp)
      invariant forall f :: f in tmp <==> f in fs[..i] && Smallest(f).user <= k <= Largest(f).user
    {
      if Smallest(fs[i]).user <= k <= Largest(fs[i]).user {
        tmp := InsertByNumber(tmp, fs[i]);
      }
    }
  }

  /** No entry of the first `l` levels is visible. */
  ghost predicate NoneAbove(v: Levels, l: nat, k: UserKey, snapshot: nat)
    requires l <= |v|
  {
    forall m, f, e :: 0 <= m < l && f in v[m] && e in f.rows ==> !Visible(e, k, snapshot)
  }

  ghost predicate NewestInLevels(v: Levels, l: nat, k: UserKey, snapshot: nat, e: Entry)
    requires l <= |v|
  {
    && Visible(e, k, snapshot)
    && forall m, f, x :: l <= m < |v| && f in v[m] && x in f.rows && Visible(x, k, snapshot)
         ==> x.ikey.sequence <= e.ikey.sequence
  }

  /** A hit in `f` of level `l` beats every deeper level. */
  lemma HitBeatsDeeper(v: Levels, l: nat, f: File, k: UserKey, snapshot: nat, e: Entry)
    requires ShallowNewer(v) && l < |v| && f in v[l] && e in f.rows && Visible(e, k, snapshot)
    requires forall g, x :: g in v[l] && x in g.rows && Visible(x, k, snapshot) ==> x.ikey.sequence <= e.ikey.sequence
    ensures NewestInLevels(v, l, k, snapshot, e)
  {
  }

  lemma HitIsNewest(v: Levels, l: nat, k: UserKey, snapshot: nat, e: Entry)
    requires l < |v| && Holds(v[l], e)
    requires NoneAbove(v, l, k, snapshot) && NewestInLevels(v, l, k, snapshot, e)
    ensures IsNewest(VersionRows(v), k, snapshot, e)
  {
  }

  ghost predicate Candidates(fs: seq<File>, k: UserKey, tmp: seq<File>) {
    && NewestFirst(tmp)
    && forall f :: f in tmp <==> f in fs && Smallest(f).user <= k <= Largest(f).user
  }

  /** The first candidate with a visible entry beats the rest of level 0. */
  lemma CandidateBeatsLevelZero(v: Levels, tmp: seq<File>, i: nat, k: UserKey, snapshot: nat, e: Entry)
    requires LevelInvariant(v) && Candidates(v[0], k, tmp) && i < |tmp|
    requires forall j, x :: 0 <= j < i && x in tmp[j].rows ==> !Visible(x, k, snapshot)
    requires IsNewest(RowSet(tmp[i].rows), k, snapshot, e)
    ensures forall g, x :: g in v[0] && x in g.rows && Visible(x, k, snapshot) ==> x.ikey.sequence <= e.ikey.sequence
  {
  }

  /** Level 0: overlapping files, newest first. */
  method SearchLevelZero(v: Levels, k: UserKey, snapshot: nat) returns (r: Lookup)
    requires LevelInvariant(v) && (forall i, j :: 0 <= i < j < |v[0]| ==> v[0][i] != v[0][j])
    ensures r.Here? ==> Holds(v[0], r.e) && NewestInLevels(v, 0, k, snapshot, r.e)
    ensures r.NotHere? ==> NoneAbove(v, 1, k, snapshot)
  {
    var tmp := LevelZeroCandidates(v[0], k);
    var i := 0;
    while i < |tmp|
      invariant i <= |tmp|
      invariant forall j, e :: 0 <= j < i && e in tmp[j].rows ==> !Visible(e, k, snapshot)
    {
      r := TableGet(tmp[i], k, snapshot);
      if r.Here? {
        CandidateBeatsLevelZero(v, tmp, i, k, snapshot, r.e);
        HitBeatsDeeper(v, 0, tmp[i], k, snapshot, r.e);
        return;
      }
      i := i + 1;
    }
    r := NotHere;
    forall m, g, x | 0 <= m < 1 && g in v[m] && x in g.rows ensures !Visible(x, k, snapshot) {
      RowsWithinRange(g, x);
    }
  }

  /** A level above 0: one file by binary search. */
  method SearchSortedLevel(v: Levels, l: nat, k: UserKey, snapshot: nat) returns (r: Lookup)
    requires LevelInvariant(v) && 1 <= l < |v|
    ensures r.Here? ==> Holds(v[l], r.e) && NewestInLevels(v, l, k, snapshot, r.e)
    ensures r.NotHere? ==> forall g, x :: g in v[l] && x in g.rows ==> !Visible(x, k, snapshot)
  {
    var fs := v[l];
    var index := FindFile(fs, SeekKey(k, snapshot));
    LevelSearchFocus(fs, index, k, snapshot);
    if index >= |fs| || k < Smallest(fs[index]).user {
      return NotHere;
    }
    r := TableGet(fs[index], k, snapshot);
    if r.Here? {
      HitBeatsDeeper(v, l, fs[index], k, snapshot, r.e);
    }
  }

  /** The file found by FindFile holds the newest visible entry of its level, if there is one. */
  lemma LevelSearchFocus(fs: seq<File>, index: nat, k: UserKey, snapshot: nat)
    requires Disjoint(fs) && (forall f :: f in fs ==> Sorted(f.rows)) && index <= |fs|
    requires forall i :: 0 <= i < index ==> Before(Largest(fs[i]), SeekKey(k, snapshot))
    requires forall i :: index <= i < |fs| ==> !Before(Largest(fs[i]), SeekKey(k, snapshot))
    ensures forall g, x :: g in fs && x in g.rows && Visible(x, k, snapshot) ==>
              && index < |fs|
              && Smallest(fs[index]).user <= k
              && exists e :: e in fs[index].rows && Visible(e, k, snapshot)
    ensures forall g, x, e :: g in fs && x in g.rows && Visible(x, k, snapshot)
                && index < |fs| && IsNewest(RowSet(fs[index].rows), k, snapshot, e)
              ==> x.ikey.sequence <= e.ikey.sequence
  {
    forall g, x | g in fs && x in g.rows && Visible(x, k, snapshot)
      ensures index < |fs| && Smallest(fs[index]).user <= k
      ensures exists e :: e in fs[index].rows && Visible(e, k, snapshot)
      ensures forall e :: (index < |fs| && IsNewest(RowSet(fs[index].rows), k, snapshot, e)) ==>
                x.ikey.sequence <= e.ikey.sequence
    {
      RowsWithinRange(g, x);
      var j :| 0 <= j < |fs| && fs[j] == g;
      assert index <= j;
      if index < j {
        var last := fs[index].rows[|fs[index].rows| - 1];
        RowsWithinRange(fs[index], last);
        BeforeTrans(last.ikey, Smallest(fs[j]), x.ikey);
        forall e | IsNewest(RowSet(fs[index].rows), k, snapshot, e) ensures x.ikey.sequence <= e.ikey.sequence {
          RowsWithinRange(fs[index], e);
          BeforeTrans(e.ikey, last.ikey, x.ikey);
        }
      }
    }
  }

  /** Version::Get: level by level, and the first hit is the answer of the whole version. */
  method Get(v: Levels, k: UserKey, snapshot: nat) returns (r: Lookup)
    requires LevelInvariant(v) && (forall i, j :: 0 <= i < j < |v[0]| ==> v[0][i] != v[0][j])
    ensures r.Here? ==> IsNewest(VersionRows(v), k, snapshot, r.e)
    ensures r.NotHere? ==> NoneVisible(VersionRows(v), k, snapshot)
  {
    r := NotHere;
    var level := 0;
    while level < NUM_LEVELS
      invariant level <= NUM_LEVELS
      invariant NoneAbove(v, level, k, snapshot)
    {
      if level == 0 {
        r := SearchLevelZero(v, k, snapshot);
      } else {
        r := SearchSortedLevel(v, level, k, snapshot);
      }
      if r.Here? {
        HitIsNewest(v, level, k, snapshot, r.e);
        return;
      }
      level := level + 1;
    }
    r := NotHere;
    forall x | x in VersionRows(v) ensures !Visible(x, k, snapshot) {
      var m :| 0 <= m < |v| && Holds(v[m], x);
    }
  }
}
