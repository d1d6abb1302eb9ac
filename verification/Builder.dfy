/**
 * VersionSet::Builder: a batch of version edits collected per level and merged
 * into a base version (db/version_set.cc).
 */
module Builder {
  import opened DbFormat
  import opened Version
  import opened Install

  /** The file part of a version edit: deletions and additions as (level, file). */
  datatype Edit = Edit(deleted: seq<(nat, nat)>, added: seq<(nat, File)>)

  ghost predicate EditOk(e: Edit, levels: nat) {
    && (forall i :: 0 <= i < |e.deleted| ==> e.deleted[i].0 < levels)
    && (forall i :: 0 <= i < |e.added| ==> e.added[i].0 < levels)
  }

  ghost function DeletedAt(e: Edit, l: nat): set<nat> {
    set i | 0 <= i < |e.deleted| && e.deleted[i].0 == l :: e.deleted[i].1
  }

  ghost function AddedAt(e: Edit, l: nat): set<File> {
    set i | 0 <= i < |e.added| && e.added[i].0 == l :: e.added[i].1
  }

  ghost function Numbers(fs: set<File>): (ns: set<nat>)
    ensures forall n :: n in ns <==> exists f :: f in fs && f.number == n
  {
    set f | f in fs :: f.number
  }

  /** What a builder remembers of one level. */
  datatype LevelState = LevelState(deleted: set<nat>, added: set<File>)

  ghost function ApplyAt(ls: LevelState, e: Edit, l: nat): LevelState {
    LevelState((ls.deleted + DeletedAt(e, l)) - Numbers(AddedAt(e, l)), ls.added + AddedAt(e, l))
  }

  /** The files of the level the builder would save. */
  ghost function Saved(base: set<File>, ls: LevelState): set<File> {
    set f | f in base + ls.added && f.number !in ls.deleted
  }

  ghost function Fresh(): LevelState {
    LevelState({}, {})
  }

  /** One edit applied to a version of its own. */
  ghost function Once(files: set<File>, e: Edit, l: nat): set<File> {
    Saved(files, ApplyAt(Fresh(), e, l))
  }

  /**
   * Adding one more edit to a builder saves what applying that edit to the
   * saved version would, exactly when the edit does not bring back the number
   * of a file that the builder has marked deleted.
   */
  lemma OneMoreEdit(base: set<File>, ls: LevelState, e: Edit, l: nat)
    ensures Saved(base, ApplyAt(ls, e, l)) == Once(Saved(base, ls), e, l)
            <==> forall f :: f in base + ls.added && f !in AddedAt(e, l) ==>
                   !(f.number in ls.deleted && f.number in Numbers(AddedAt(e, l)))
  {
    var added := AddedAt(e, l);
    forall f ensures f in added ==> f.number in Numbers(added) {}
    if f :| f in base + ls.added && f !in added && f.number in ls.deleted && f.number in Numbers(added) {
      assert f !in Once(Saved(base, ls), e, l);
    } else {
      forall f ensures f in Saved(base, ApplyAt(ls, e, l)) <==> f in Once(Saved(base, ls), e, l) {}
    }
  }

  /** An edit on which they differ: it brings back number 5, and the deleted file 5 with it. */
  lemma ReaddedNumberReturns() returns (old5: File, new5: File, e: Edit)
    ensures old5.number == new5.number == 5 && e == Edit([], [(0, new5)])
    ensures var ls := LevelState({5}, {});
              && Saved({old5}, ls) == {}
              && Saved({old5}, ApplyAt(ls, e, 0)) == {old5, new5} && Once(Saved({old5}, ls), e, 0) == {new5}
              && old5 != new5
  {
    old5 := FileMetaData(5, [Entry(InternalKey(1.0, 1, Value), [])]);
    new5 := FileMetaData(5, [Entry(InternalKey(1.0, 2, Value), [])]);
    e := Edit([], [(0, new5)]);
    assert e.added[0] == (0, new5);
    assert AddedAt(e, 0) == {new5} && DeletedAt(e, 0) == {} && Numbers(AddedAt(e, 0)) == {5};
  }

  ghost function ApplyAll(ls: LevelState, es: seq<Edit>, l: nat): LevelState {
    if es == [] then ls else ApplyAt(ApplyAll(ls, es[..|es| - 1], l), es[|es| - 1], l)
  }

  ghost function OneByOne(files: set<File>, es: seq<Edit>, l: nat): set<File> {
    if es == [] then files else Once(OneByOne(files, es[..|es| - 1], l), es[|es| - 1], l)
  }

  /** No edit adds to the level a number the level already knows. */
  ghost predicate NeverReadds(base: set<File>, es: seq<Edit>, l: nat) {
    forall n :: 0 <= n < |es| ==>
      forall f :: f in base + ApplyAll(Fresh(), es[..n], l).added ==> f.number !in Numbers(AddedAt(es[n], l))
  }

  /** One builder over a whole edit sequence equals one version per edit. */
  lemma {:induction false} BatchEqualsOneByOne(base: set<File>, es: seq<Edit>, l: nat)
    requires NeverReadds(base, es, l)
    ensures Saved(base, ApplyAll(Fresh(), es, l)) == OneByOne(base, es, l)
  {
    if es == [] {
    } else {
      var n := |es| - 1;
      var init := es[..n];
      forall i | 0 <= i < |init|
        ensures init[..i] == es[..i] && init[i] == es[i]
      {}
      BatchEqualsOneByOne(base, init, l);
      OneMoreEdit(base, ApplyAll(Fresh(), init, l), es[n], l);
    }
  }

  // ---- Ordered levels are determined by their files ----

  ghost function FilesOf(fs: seq<File>): set<File> {
    set f | f in fs
  }

  /** An ordered level is the only ordered arrangement of its files. */
  lemma {:induction false} OrderedUnique(a: seq<File>, b: seq<File>)
    requires OrderedLevel(a) && OrderedLevel(b) && FilesOf(a) == FilesOf(b)
    ensures a == b
  {
    assert a != [] ==> a[0] in FilesOf(a);
    assert b != [] ==> b[0] in FilesOf(b);
    if a == [] {
    } else {
      var n, m := |a| - 1, |b| - 1;
      LastsAgree(a, b);
      forall f ensures f in FilesOf(a[..n]) <==> f in FilesOf(b[..m]) {
        DropLast(a, f);
        DropLast(b, f);
      }
      OrderedUnique(a[..n], b[..m]);
    }
  }

  lemma DropLast(a: seq<File>, f: File)
    requires OrderedLevel(a) && a != []
    ensures f in FilesOf(a[..|a| - 1]) <==> f in FilesOf(a) && f != a[|a| - 1]
  {
  }

  lemma LastsAgree(a: seq<File>, b: seq<File>)
    requires OrderedLevel(a) && OrderedLevel(b) && FilesOf(a) == FilesOf(b) && a != [] && b != []
    ensures a[|a| - 1] == b[|b| - 1]
  {
    var x, y := a[|a| - 1], b[|b| - 1];
    assert x in FilesOf(b) && y in FilesOf(a);
    var i :| 0 <= i < |b| && b[i] == x;
    var j :| 0 <= j < |a| && a[j] == y;
  }

  // ---- The builder ----

  /** std::set::insert: puts the file in order unless an equivalent one is there. */
  method InsertFile(fs: seq<File>, f: File) returns (r: seq<File>)
    requires OrderedLevel(fs)
    ensures OrderedLevel(r)
    ensures (forall g :: g in fs ==> !(Smallest(g) == Smallest(f) && g.number == f.number)) ==>
              FilesOf(r) == FilesOf(fs) + {f}
    ensures (exists g :: g in fs && Smallest(g) == Smallest(f) && g.number == f.number) ==> r == fs
  {
    var i := 0;
    while i < |fs| && BySmallestKey(fs[i], f)
      invariant i <= |fs|
      invariant forall j :: 0 <= j < i ==> BySmallestKey(fs[j], f)
    {
      i := i + 1;
    }
    if i < |fs| && !BySmallestKey(f, fs[i]) {
      assert Smallest(fs[i]) == Smallest(f) && fs[i].number == f.number;
      return fs;
    }
    r := fs[..i] + [f] + fs[i..];
    InsertedInOrder(fs, f, i);
  }

  lemma InsertedInOrder(fs: seq<File>, f: File, i: nat)
    requires OrderedLevel(fs) && i <= |fs|
    requires forall j :: 0 <= j < i ==> BySmallestKey(fs[j], f)
    requires i < |fs| ==> BySmallestKey(f, fs[i])
    ensures OrderedLevel(fs[..i] + [f] + fs[i..])
    ensures forall j :: i <= j < |fs| ==> BySmallestKey(f, fs[j])
  {
  }

  /** SaveTo for one level: merges the base list with the added list, skipping deleted numbers. */
  method SaveLevel(base: seq<File>, added: seq<File>, deleted: set<nat>) returns (r: seq<File>)
    requires OrderedLevel(base) && OrderedLevel(added)
    requires forall f, g :: f in base && g in added ==> f.number != g.number
    ensures OrderedLevel(r)
    ensures FilesOf(r) == Saved(FilesOf(base), LevelState(deleted, FilesOf(added)))
  {
    r := [];
    var b := 0;
    for a := 0 to |added|
      invariant b <= |base|
      invariant OrderedLevel(r)
      invariant forall f :: f in r <==> (f in base[..b] || f in added[..a]) && f.number !in deleted
      invariant forall f, k :: f in r && b <= k < |base| ==> BySmallestKey(f, base[k])
      invariant forall f, k :: f in r && a <= k < |added| ==> BySmallestKey(f, added[k])
    {
      r, b := CopySmaller(base, b, r, deleted, added, a);
      OrderMixed(base, b, added, a);
      assert added[..a + 1] == added[..a] + [added[a]];
      if added[a].number !in deleted {
        r := AppendFile(r, added[a]);
      }
    }
    while b < |base|
      invariant b <= |base|
      invariant OrderedLevel(r)
      invariant forall f :: f in r <==> (f in base[..b] || f in added) && f.number !in deleted
      invariant forall f, k :: f in r && b <= k < |base| ==> BySmallestKey(f, base[k])
    {
      assert base[..b + 1] == base[..b] + [base[b]];
      if base[b].number !in deleted {
        r := AppendFile(r, base[b]);
      }
      b := b + 1;
    }
  }

  method AppendFile(r: seq<File>, f: File) returns (r': seq<File>)
    requires OrderedLevel(r) && forall g :: g in r ==> BySmallestKey(g, f)
    ensures OrderedLevel(r') && r' == r + [f]
    ensures forall g :: g in r' <==> g in r || g == f
  {
    r' := r + [f];
  }

  lemma OrderMixed(base: seq<File>, b: nat, added: seq<File>, a: nat)
    requires OrderedLevel(base) && OrderedLevel(added) && b <= |base| && a < |added|
    requires b < |base| ==> BySmallestKey(added[a], base[b])
    ensures forall k :: b <= k < |base| ==> BySmallestKey(added[a], base[k])
  {
  }

  /** Copies the base files that precede the next added file (std::upper_bound). */
  method CopySmaller(base: seq<File>, start: nat, sofar: seq<File>, deleted: set<nat>, added: seq<File>, a: nat)
    returns (r: seq<File>, b: nat)
    requires OrderedLevel(base) && OrderedLevel(added) && OrderedLevel(sofar) && start <= |base| && a < |added|
    requires forall f, g :: f in base && g in added ==> f.number != g.number
    requires forall f :: f in sofar <==> (f in base[..start] || f in added[..a]) && f.number !in deleted
    requires forall f, k :: f in sofar && start <= k < |base| ==> BySmallestKey(f, base[k])
    requires forall f, k :: f in sofar && a <= k < |added| ==> BySmallestKey(f, added[k])
    ensures start <= b <= |base| && OrderedLevel(r)
    ensures forall f :: f in r <==> (f in base[..b] || f in added[..a]) && f.number !in deleted
    ensures forall f, k :: f in r && b <= k < |base| ==> BySmallestKey(f, base[k])
    ensures forall f, k :: f in r && a <= k < |added| ==> BySmallestKey(f, added[k])
    ensures b < |base| ==> BySmallestKey(added[a], base[b])
  {
    r, b := sofar, start;
    while b < |base| && !BySmallestKey(added[a], base[b])
      invariant start <= b <= |base| && OrderedLevel(r)
      invariant forall f :: f in r <==> (f in base[..b] || f in added[..a]) && f.number !in deleted
      invariant forall f, k :: f in r && b <= k < |base| ==> BySmallestKey(f, base[k])
      invariant forall f, k :: f in r && a <= k < |added| ==> BySmallestKey(f, added[k])
    {
      OrderMixed(added, a, base, b);
      if base[b].number !in deleted {
        r := AppendFile(r, base[b]);
      }
      b := b + 1;
    }
  }
}
