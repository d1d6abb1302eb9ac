/**
 * Installing a new version: what a version edit (files removed, files added to
 * one level) must satisfy to keep the level invariants.
 */
module Install {
  import opened DbFormat
  import opened Version

  /** VersionSet::Builder::BySmallestKey: by smallest key, ties broken by number. */
  predicate BySmallestKey(f: File, g: File) {
    Before(Smallest(f), Smallest(g)) || (Smallest(f) == Smallest(g) && f.number < g.number)
  }

  ghost predicate OrderedLevel(fs: seq<File>) {
    forall i, j :: 0 <= i < j < |fs| ==> BySmallestKey(fs[i], fs[j])
  }

  ghost predicate LevelsOrdered(v: Levels) {
    forall l :: 0 <= l < |v| ==> OrderedLevel(v[l])
  }

  /** `v'` is `v` without the files of `removed`, with `added` in level `m`. */
  ghost predicate Replaced(v: Levels, removed: set<File>, m: nat, added: set<File>, v': Levels) {
    && |v'| == |v| && m < |v|
    && LevelsOrdered(v')
    && (forall l, f {:trigger f in v'[l]} {:trigger f in v[l]} :: 0 <= l < |v| ==>
        (f in v'[l] <==> (f in v[l] && f !in removed) || (l == m && f in added)))
  }

  /** Neither file starts inside the other. */
  predicate Separate(f: File, g: File) {
    Before(Largest(f), Smallest(g)) || Before(Largest(g), Smallest(f))
  }

  /** What the added files must be. */
  ghost predicate Fits(v: Levels, removed: set<File>, m: nat, added: set<File>)
    requires m < |v|
  {
    && (forall a :: a in added ==> Sorted(a.rows))
    && (forall l, g, a :: 0 <= l < m && g in v[l] && g !in removed && a in added ==> Newer(g.rows, a.rows))
    && (forall l, g, a :: m < l < |v| && g in v[l] && g !in removed && a in added ==> Newer(a.rows, g.rows))
    && (m > 0 ==> && (forall a, b :: a in added && b in added && a != b ==> Separate(a, b))
                  && (forall a, g :: a in added && g in v[m] && g !in removed && g !in added ==> Separate(a, g)))
    && (m == 0 ==> && (forall a, b :: a in added && b in added ==> a == b)
                   && (forall a, g :: a in added && g in v[0] && g !in removed && g !in added ==>
                         a.number > g.number && Newer(a.rows, g.rows)))
  }

  lemma OrderedSeparateIsDisjoint(fs: seq<File>)
    requires OrderedLevel(fs) && (forall f :: f in fs ==> Sorted(f.rows))
    requires forall i, j :: 0 <= i < j < |fs| ==> Separate(fs[i], fs[j])
    ensures Disjoint(fs)
  {
  }

  lemma DisjointIsSeparate(fs: seq<File>, f: File, g: File)
    requires Disjoint(fs) && f in fs && g in fs && f != g
    ensures Separate(f, g)
  {
  }

  lemma OrderedDistinct(fs: seq<File>)
    requires OrderedLevel(fs)
    ensures forall i, j :: 0 <= i < j < |fs| ==> fs[i] != fs[j]
  {
  }

  lemma InstallKeepsDisjoint(v: Levels, removed: set<File>, m: nat, added: set<File>, v': Levels, l: nat)
    requires LevelInvariant(v) && Replaced(v, removed, m, added, v') && Fits(v, removed, m, added)
    requires LevelsSorted(v') && 1 <= l < |v'|
    ensures Disjoint(v'[l])
  {
    var fs := v'[l];
    OrderedDistinct(fs);
    forall i, j | 0 <= i < j < |fs| ensures Separate(fs[i], fs[j]) {
      assert fs[i] in v'[l] && fs[j] in v'[l];
      if !(l == m && (fs[i] in added || fs[j] in added)) {
        DisjointIsSeparate(v[l], fs[i], fs[j]);
      }
    }
    OrderedSeparateIsDisjoint(fs);
  }

  lemma InstallKeepsShallowNewer(v: Levels, removed: set<File>, m: nat, added: set<File>, v': Levels)
    requires LevelInvariant(v) && Replaced(v, removed, m, added, v') && Fits(v, removed, m, added)
    ensures ShallowNewer(v')
  {
  }

  lemma InstallKeepsLevelZero(v: Levels, removed: set<File>, m: nat, added: set<File>, v': Levels)
    requires LevelInvariant(v) && Replaced(v, removed, m, added, v') && Fits(v, removed, m, added)
    ensures LevelZeroByNumber(v')
  {
  }

  /** An edit whose added files fit keeps every level invariant. */
  lemma InstallKeepsLevels(v: Levels, removed: set<File>, m: nat, added: set<File>, v': Levels)
    requires LevelInvariant(v) && Replaced(v, removed, m, added, v') && Fits(v, removed, m, added)
    ensures LevelInvariant(v')
  {
    assert LevelsSorted(v');
    forall l | 1 <= l < |v'| ensures Disjoint(v'[l]) {
      InstallKeepsDisjoint(v, removed, m, added, v', l);
    }
    InstallKeepsShallowNewer(v, removed, m, added, v');
    InstallKeepsLevelZero(v, removed, m, added, v');
  }

  // ---- Entries of a version ----

  ghost function RowsOf(fs: set<File>): (s: set<Entry>)
    ensures forall e :: e in s <==> exists f :: f in fs && e in f.rows
  {
    set f, e | f in fs && e in f.rows :: e
  }

  /** No entry sits in two files. */
  lemma FilesShareNoEntry(v: Levels, l: nat, n: nat, f: File, g: File, e: Entry)
    requires LevelInvariant(v) && l <= n < |v| && f in v[l] && g in v[n] && (l == n ==> f != g)
    requires e in f.rows
    ensures e !in g.rows
  {
  }

  /** A file is in at most one level. */
  ghost predicate OneLevel(v: Levels) {
    forall l, n, f :: 0 <= l < |v| && 0 <= n < |v| && f in v[l] && f in v[n] ==> l == n
  }

  ghost predicate NumbersBelow(v: Levels, nextFile: nat) {
    forall l, f :: 0 <= l < |v| && f in v[l] ==> f.number < nextFile
  }

  /** File numbers name files, and all are below the next free number. */
  ghost predicate UniqueNumbers(v: Levels, nextFile: nat) {
    && NumbersBelow(v, nextFile)
    && (forall l, m, f, g :: 0 <= l < |v| && 0 <= m < |v| && f in v[l] && g in v[m] && f.number == g.number ==> f == g)
  }

  /** New files with fresh numbers keep numbers unique. */
  lemma FreshFilesKeepNumbers(v: Levels, removed: set<File>, m: nat, added: set<File>, v': Levels, next: nat,
                              next': nat)
    requires Replaced(v, removed, m, added, v') && OneLevel(v) && UniqueNumbers(v, next) && next <= next'
    requires forall a :: a in added ==> next <= a.number < next'
    requires forall a, b :: a in added && b in added && a.number == b.number ==> a == b
    ensures OneLevel(v') && UniqueNumbers(v', next')
  {
  }

  /** Moving a file keeps numbers unique. */
  lemma MovedFileKeepsNumbers(v: Levels, f: File, l: nat, m: nat, v': Levels, next: nat)
    requires Replaced(v, {f}, m, {f}, v') && l < |v| && f in v[l] && OneLevel(v) && UniqueNumbers(v, next)
    ensures OneLevel(v') && UniqueNumbers(v', next)
  {
    hide LevelsOrdered;
  }

  lemma EntryAfterInstall(v: Levels, removed: set<File>, m: nat, added: set<File>, v': Levels, e: Entry)
    requires LevelInvariant(v) && OneLevel(v) && Replaced(v, removed, m, added, v')
    requires forall f :: f in removed ==> exists l :: 0 <= l < |v| && f in v[l]
    requires e in VersionRows(v')
    ensures (e in VersionRows(v) && e !in RowsOf(removed)) || e in RowsOf(added)
  {
    var l :| 0 <= l < |v'| && Holds(v'[l], e);
    var f :| f in v'[l] && e in f.rows;
    if f in v[l] && f !in removed {
      KeptEntryNotRemoved(v, removed, l, f, e);
    }
  }

  lemma EntryBeforeInstall(v: Levels, removed: set<File>, m: nat, added: set<File>, v': Levels, e: Entry)
    requires Replaced(v, removed, m, added, v')
    requires (e in VersionRows(v) && e !in RowsOf(removed)) || e in RowsOf(added)
    ensures e in VersionRows(v')
  {
    if e in RowsOf(added) {
      var f :| f in added && e in f.rows;
      assert Holds(v'[m], e);
    } else {
      var l :| 0 <= l < |v| && Holds(v[l], e);
      var f :| f in v[l] && e in f.rows;
    }
  }

  /** The entries after an edit: those removed go, those added come. */
  lemma RowsAfterInstall(v: Levels, removed: set<File>, m: nat, added: set<File>, v': Levels)
    requires LevelInvariant(v) && OneLevel(v) && Replaced(v, removed, m, added, v')
    requires forall f :: f in removed ==> exists l :: 0 <= l < |v| && f in v[l]
    ensures VersionRows(v') == (VersionRows(v) - RowsOf(removed)) + RowsOf(added)
  {
    forall e | e in VersionRows(v') ensures e in (VersionRows(v) - RowsOf(removed)) + RowsOf(added) {
      EntryAfterInstall(v, removed, m, added, v', e);
    }
    forall e | e in (VersionRows(v) - RowsOf(removed)) + RowsOf(added) ensures e in VersionRows(v') {
      EntryBeforeInstall(v, removed, m, added, v', e);
    }
  }

  lemma KeptEntryNotRemoved(v: Levels, removed: set<File>, l: nat, f: File, e: Entry)
    requires LevelInvariant(v) && OneLevel(v) && l < |v| && f in v[l] && f !in removed && e in f.rows
    requires forall g :: g in removed ==> exists n :: 0 <= n < |v| && g in v[n]
    ensures e !in RowsOf(removed)
  {
  }
}
