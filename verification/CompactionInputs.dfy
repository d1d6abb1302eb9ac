/**
 * Choosing the inputs of a compaction: Version::GetOverlappingInputs,
 * AddBoundaryInputs and VersionSet::SetupOtherInputs.
 */
module CompactionInputs {
  import opened DbFormat
  import opened Version

  /** The files of a list whose user-key range meets [lo, hi], in order. */
  function Overlapping(fs: seq<File>, lo: Option<UserKey>, hi: Option<UserKey>): seq<File> {
    if fs == [] then []
    else
      var n := |fs| - 1;
      Overlapping(fs[..n], lo, hi) + (if Overlaps(fs[n], lo, hi) then [fs[n]] else [])
  }

  lemma {:induction false} OverlappingMembers(fs: seq<File>, lo: Option<UserKey>, hi: Option<UserKey>)
    ensures forall f :: f in Overlapping(fs, lo, hi) <==> f in fs && Overlaps(f, lo, hi)
    ensures |Overlapping(fs, lo, hi)| <= |fs|
  {
    if fs == [] {
    } else {
      var n := |fs| - 1;
      OverlappingMembers(fs[..n], lo, hi);
    }
  }

  ghost predicate NoDup(fs: seq<File>) {
    forall i, j :: 0 <= i < j < |fs| ==> fs[i] != fs[j]
  }

  lemma {:induction false} OverlappingNoDup(fs: seq<File>, lo: Option<UserKey>, hi: Option<UserKey>)
    requires NoDup(fs)
    ensures NoDup(Overlapping(fs, lo, hi))
  {
    if fs == [] {
    } else {
      var n := |fs| - 1;
      OverlappingNoDup(fs[..n], lo, hi);
      OverlappingMembers(fs[..n], lo, hi);
    }
  }

  /** `lo` is at or below `lo'`; an absent bound is below everything. */
  predicate LoLe(lo: Option<UserKey>, lo': Option<UserKey>) {
    lo.None? || (lo'.Some? && lo.value <= lo'.value)
  }

  /** `hi` is at or above `hi'`; an absent bound is above everything. */
  predicate HiGe(hi: Option<UserKey>, hi': Option<UserKey>) {
    hi.None? || (hi'.Some? && hi'.value <= hi.value)
  }

  /** The range swallows every file it touches. */
  ghost predicate Closed(fs: seq<File>, lo: Option<UserKey>, hi: Option<UserKey>) {
    forall f :: f in fs && Overlaps(f, lo, hi) ==>
      (lo.Some? ==> lo.value <= Smallest(f).user) && (hi.Some? ==> Largest(f).user <= hi.value)
  }

  /** The least closed range around [begin, end]. */
  ghost predicate LeastClosed(fs: seq<File>, begin: Option<UserKey>, end: Option<UserKey>,
                              lo: Option<UserKey>, hi: Option<UserKey>) {
    && LoLe(lo, begin) && HiGe(hi, end)
    && Closed(fs, lo, hi)
    && forall a, b :: LoLe(a, begin) && HiGe(b, end) && Closed(fs, a, b) ==> LoLe(a, lo) && HiGe(b, hi)
  }

  /** Files sticking out of the range, the measure of the restart loop. */
  ghost function Outside(fs: seq<File>, lo: Option<UserKey>, hi: Option<UserKey>): nat {
    if fs == [] then 0
    else
      var n := |fs| - 1;
      Outside(fs[..n], lo, hi) + Ends(fs[n], lo, hi)
  }

  /** How many ends of the file stick out. */
  function Ends(f: File, lo: Option<UserKey>, hi: Option<UserKey>): nat {
    (if lo.Some? && Smallest(f).user < lo.value then 1 else 0) + (if hi.Some?
        && Largest(f).user > hi.value then 1 else 0)
  }

  /** An end of the file that stuck out no longer does. */
  predicate Swallowed(f: File, lo: Option<UserKey>, hi: Option<UserKey>, lo': Option<UserKey>, hi': Option<UserKey>) {
    || (lo.Some? && lo'.Some? && lo'.value <= Smallest(f).user < lo.value)
    || (hi.Some? && hi'.Some? && hi.value < Largest(f).user <= hi'.value)
  }

  lemma EndsShrink(f: File, lo: Option<UserKey>, hi: Option<UserKey>, lo': Option<UserKey>, hi': Option<UserKey>)
    requires LoLe(lo', lo) && HiGe(hi', hi)
    ensures Ends(f, lo', hi') <= Ends(f, lo, hi)
    ensures Swallowed(f, lo, hi, lo', hi') ==> Ends(f, lo', hi') < Ends(f, lo, hi)
  {
  }

  lemma {:induction false} OutsideShrinks(fs: seq<File>, lo: Option<UserKey>, hi: Option<UserKey>,
                                          lo': Option<UserKey>, hi': Option<UserKey>)
    requires LoLe(lo', lo) && HiGe(hi', hi)
    ensures Outside(fs, lo', hi') <= Outside(fs, lo, hi)
    ensures forall f :: f in fs && Swallowed(f, lo, hi, lo', hi') ==> Outside(fs, lo', hi') < Outside(fs, lo, hi)
  {
    hide Ends, Swallowed;
    if fs == [] {
    } else {
      var n := |fs| - 1;
      OutsideShrinks(fs[..n], lo, hi, lo', hi');
      EndsShrink(fs[n], lo, hi, lo', hi');
      assert fs == fs[..n] + [fs[n]];
    }
  }

  /** A range grown to the end of a file leaves fewer ends outside. */
  lemma Swallows(fs: seq<File>, f: File, lo: Option<UserKey>, hi: Option<UserKey>,
                 lo': Option<UserKey>, hi': Option<UserKey>)
    requires f in fs && LoLe(lo', lo) && HiGe(hi', hi)
    requires (lo.Some? && Smallest(f).user < lo.value && lo' == Some(Smallest(f).user))
             || (hi.Some? && Largest(f).user > hi.value && hi' == Some(Largest(f).user))
    ensures Outside(fs, lo', hi') < Outside(fs, lo, hi)
  {
    hide Outside;
    OutsideShrinks(fs, lo, hi, lo', hi');
    assert Swallowed(f, lo, hi, lo', hi');
  }

  lemma ClosedNone(lo: Option<UserKey>, hi: Option<UserKey>)
    ensures Closed([], lo, hi)
  {
  }

  /** The range only grew by what every closed range around [begin, end] must hold. */
  ghost predicate Forced(fs: seq<File>, begin: Option<UserKey>, end: Option<UserKey>,
                         lo: Option<UserKey>, hi: Option<UserKey>) {
    && LoLe(lo, begin) && HiGe(hi, end)
    && forall a, b :: LoLe(a, begin) && HiGe(b, end) && Closed(fs, a, b) ==> LoLe(a, lo) && HiGe(b, hi)
  }

  lemma ForcedGrows(fs: seq<File>, begin: Option<UserKey>, end: Option<UserKey>,
                    lo: Option<UserKey>, hi: Option<UserKey>, f: File)
    requires Forced(fs, begin, end, lo, hi) && f in fs && Overlaps(f, lo, hi)
    ensures lo.Some? && Smallest(f).user < lo.value ==> Forced(fs, begin, end, Some(Smallest(f).user), hi)
    ensures hi.Some? && Largest(f).user > hi.value ==> Forced(fs, begin, end, lo, Some(Largest(f).user))
  {
  }

  // ---- Connected choices: no user key of the hull falls between the files ----

  predicate Spans(f: File, u: UserKey) {
    Smallest(f).user <= u <= Largest(f).user
  }

  ghost predicate Spanned(fs: seq<File>, u: UserKey) {
    exists f :: f in fs && Spans(f, u)
  }

  /** Every user key of [lo, hi] falls in the range of some file. */
  ghost predicate Covers(fs: seq<File>, lo: UserKey, hi: UserKey) {
    forall u :: lo <= u <= hi ==> Spanned(fs, u)
  }

  ghost predicate CoversRange(fs: seq<File>, lo: Option<UserKey>, hi: Option<UserKey>) {
    lo.Some? && hi.Some? && Covers(fs, lo.value, hi.value)
  }

  /** No user key between the first and the last falls outside all files. */
  ghost predicate Connected(fs: seq<File>) {
    forall f, g, u :: f in fs && g in fs && Smallest(f).user <= u <= Largest(g).user ==> Spanned(fs, u)
  }

  lemma CoversGrows(fs: seq<File>, lo: Option<UserKey>, hi: Option<UserKey>, f: File)
    requires CoversRange(fs, lo, hi) && f in fs && Overlaps(f, lo, hi)
    ensures CoversRange(fs, Some(Smallest(f).user), hi) && CoversRange(fs, lo, Some(Largest(f).user))
  {
  }

  /** Only files meeting the range can cover it. */
  lemma OverlappingCovers(fs: seq<File>, extra: seq<File>, lo: Option<UserKey>, hi: Option<UserKey>)
    requires CoversRange(fs + extra, lo, hi)
    ensures CoversRange(Overlapping(fs, lo, hi) + extra, lo, hi)
  {
    OverlappingMembers(fs, lo, hi);
    forall u | lo.value <= u <= hi.value ensures Spanned(Overlapping(fs, lo, hi) + extra, u) {
      assert Spanned(fs + extra, u);
      var h :| h in fs + extra && Spans(h, u);
    }
  }

  /** A file that meets a connected choice can join it. */
  lemma ConnectedAppend(fs: seq<File>, f: File, a: File, b: File)
    requires Connected(fs) && a in fs && b in fs
    requires Smallest(a).user <= Largest(f).user && Smallest(f).user <= Largest(b).user
    ensures Connected(fs + [f])
  {
    var r := fs + [f];
    forall g, h, u | g in r && h in r && Smallest(g).user <= u <= Largest(h).user ensures Spanned(r, u) {
      if !Spans(f, u) {
        assert Spanned(fs, u);
        var k :| k in fs && Spans(k, u);
      }
    }
  }

  lemma SameFilesConnected(fs: seq<File>, gs: seq<File>)
    requires Connected(fs) && forall f :: f in fs <==> f in gs
    ensures Connected(gs)
  {
    forall f, g, u | f in gs && g in gs && Smallest(f).user <= u <= Largest(g).user ensures Spanned(gs, u) {
      assert Spanned(fs, u);
      var h :| h in fs && Spans(h, u);
    }
  }

  /** Files each meeting a connected choice can all join it. */
  lemma {:induction false} ConnectedAppendAll(fs: seq<File>, gs: seq<File>, a: File, b: File)
    requires Connected(fs) && a in fs && b in fs
    requires forall g :: g in gs ==> Smallest(a).user <= Largest(g).user && Smallest(g).user <= Largest(b).user
    ensures Connected(fs + gs)
  {
    if gs == [] {
      assert fs + gs == fs;
    } else {
      var n := |gs| - 1;
      ConnectedAppendAll(fs, gs[..n], a, b);
      ConnectedAppend(fs + gs[..n], gs[n], a, b);
      assert fs + gs == fs + gs[..n] + [gs[n]];
    }
  }

  lemma ForcedStart(fs: seq<File>, begin: Option<UserKey>, end: Option<UserKey>)
    ensures Forced(fs, begin, end, begin, end)
  {
  }

  lemma ForcedClosedIsLeast(fs: seq<File>, begin: Option<UserKey>, end: Option<UserKey>, lo: Option<UserKey>,
                            hi: Option<UserKey>)
    requires Forced(fs, begin, end, lo, hi) && Closed(fs, lo, hi)
    ensures LeastClosed(fs, begin, end, lo, hi)
  {
  }

  lemma ClosedStep(fs: seq<File>, i: nat, lo: Option<UserKey>, hi: Option<UserKey>)
    requires i < |fs| && Closed(fs[..i], lo, hi)
    requires Overlaps(fs[i], lo, hi) ==>
               (lo.Some? ==> lo.value <= Smallest(fs[i]).user) && (hi.Some? ==> Largest(fs[i]).user <= hi.value)
    ensures Closed(fs[..i + 1], lo, hi)
  {
  }

  /**
   * Version::GetOverlappingInputs.  Above level 0 it selects the files meeting
   * [begin, end].  In level 0 it restarts whenever a file widens the range, and
   * ends at the least range closed under overlap.
   */
  method GetOverlappingInputs(levelZero: bool, fs: seq<File>, begin: Option<UserKey>, end: Option<UserKey>,
                              ghost extra: seq<File>)
    returns (inputs: seq<File>, lo: Option<UserKey>, hi: Option<UserKey>)
    ensures inputs == Overlapping(fs, lo, hi)
    ensures !levelZero ==> lo == begin && hi == end
    ensures levelZero ==> LeastClosed(fs, begin, end, lo, hi)
    ensures CoversRange(fs + extra, begin, end) ==> CoversRange(inputs + extra, lo, hi)
  {
    inputs, lo, hi := [], begin, end;
    var i := 0;
    ForcedStart(fs, begin, end);
    hide Forced, LeastClosed, CoversRange, Outside, Closed, Swallowed;
    ClosedNone(lo, hi);
    while i < |fs|
      invariant i <= |fs|
      invariant inputs == Overlapping(fs[..i], lo, hi)
      invariant !levelZero ==> lo == begin && hi == end
      invariant Forced(fs, begin, end, lo, hi)
      invariant levelZero ==> Closed(fs[..i], lo, hi)
      invariant CoversRange(fs + extra, begin, end) ==> CoversRange(fs + extra, lo, hi)
      decreases Outside(fs, lo, hi), |fs| - i
    {
      var f := fs[i];
      assert fs[..i + 1][..i] == fs[..i];
      if levelZero && (Overlaps(f, lo, hi) ==>
                         (lo.Some? ==> lo.value <= Smallest(f).user) && (hi.Some? ==> Largest(f).user <= hi.value)) {
        ClosedStep(fs, i, lo, hi);
      }
      i := i + 1;
      if lo.Some? && Largest(f).user < lo.value {
      } else if hi.Some? && Smallest(f).user > hi.value {
      } else {
        inputs := inputs + [f];
        if levelZero {
          ForcedGrows(fs, begin, end, lo, hi, f);
          if CoversRange(fs + extra, lo, hi) { CoversGrows(fs + extra, lo, hi, f); }
          if lo.Some? && Smallest(f).user < lo.value {
            Swallows(fs, f, lo, hi, Some(Smallest(f).user), hi);
            lo, inputs, i := Some(Smallest(f).user), [], 0;
            ClosedNone(lo, hi);
          } else if hi.Some? && Largest(f).user > hi.value {
            Swallows(fs, f, lo, hi, lo, Some(Largest(f).user));
            hi, inputs, i := Some(Largest(f).user), [], 0;
            ClosedNone(lo, hi);
          }
        }
      }
    }
    assert fs[..|fs|] == fs;
    if levelZero { ForcedClosedIsLeast(fs, begin, end, lo, hi); }
    if CoversRange(fs + extra, lo, hi) { OverlappingCovers(fs, extra, lo, hi); }
  }

  // ---- GetRange ----

  /** The least range of internal keys covering the files. */
  ghost predicate IsRange(fs: seq<File>, smallest: InternalKey, largest: InternalKey) {
    && (forall f :: f in fs ==> !Before(Smallest(f), smallest) && !Before(largest, Largest(f)))
    && (exists f :: f in fs && Smallest(f) == smallest)
    && (exists f :: f in fs && Largest(f) == largest)
  }

  method GetRange(fs: seq<File>) returns (smallest: InternalKey, largest: InternalKey)
    requires fs != []
    ensures IsRange(fs, smallest, largest)
  {
    smallest, largest := Smallest(fs[0]), Largest(fs[0]);
    var i := 1;
    while i < |fs|
      invariant 1 <= i <= |fs|
      invariant forall j :: 0 <= j < i ==> !Before(Smallest(fs[j]), smallest) && !Before(largest, Largest(fs[j]))
      invariant exists j :: 0 <= j < i && Smallest(fs[j]) == smallest
      invariant exists j :: 0 <= j < i && Largest(fs[j]) == largest
    {
      CompareIsBefore(Smallest(fs[i]), smallest);
      CompareIsBefore(Largest(fs[i]), largest);
      if Compare(Smallest(fs[i]), smallest) < 0 {
        smallest := Smallest(fs[i]);
      }
      if Compare(Largest(fs[i]), largest) > 0 {
        largest := Largest(fs[i]);
      }
      i := i + 1;
    }
  }

  // ---- AddBoundaryInputs ----

  predicate IsBoundary(f: File, largest: InternalKey) {
    Before(largest, Smallest(f)) && Smallest(f).user == largest.user
  }

  /** The boundary file with the smallest first key, if any. */
  method FindSmallestBoundaryFile(levelFiles: seq<File>, largest: InternalKey) returns (r: Option<File>)
    ensures r.None? ==> forall f :: f in levelFiles ==> !IsBoundary(f, largest)
    ensures r.Some? ==> r.value in levelFiles && IsBoundary(r.value, largest)
    ensures r.Some? ==> forall f :: f in levelFiles && IsBoundary(f, largest) ==>
              !Before(Smallest(f), Smallest(r.value))
  {
    r := None;
    for i := 0 to |levelFiles|
      invariant r.None? ==> forall j :: 0 <= j < i ==> !IsBoundary(levelFiles[j], largest)
      invariant r.Some? ==> r.value in levelFiles && IsBoundary(r.value, largest)
      invariant r.Some? ==> forall j :: 0 <= j < i && IsBoundary(levelFiles[j], largest)
                                  ==> !Before(Smallest(levelFiles[j]), Smallest(r.value))
    {
      var f := levelFiles[i];
      if IsBoundary(f, largest) {
        if r.None? || Before(Smallest(f), Smallest(r.value)) {
          r := Some(f);
        }
      }
    }
  }

  /** Largest key of a nonempty list. */
  ghost predicate IsLargest(fs: seq<File>, largest: InternalKey) {
    && (forall f :: f in fs ==> !Before(largest, Largest(f)))
    && (exists f :: f in fs && Largest(f) == largest)
  }

  ghost predicate NoBoundaryLeft(levelFiles: seq<File>, fs: seq<File>) {
    forall largest, f :: IsLargest(fs, largest) && f in levelFiles ==> !IsBoundary(f, largest)
  }

  /** Files of a level that start after a key, the measure of the boundary search. */
  ghost function StartAfter(fs: seq<File>, key: InternalKey): nat {
    if fs == [] then 0
    else StartAfter(fs[..|fs| - 1], key) + (if Before(key, Smallest(fs[|fs| - 1])) then 1 else 0)
  }

  lemma {:induction false} StartAfterShrinks(fs: seq<File>, key: InternalKey, key': InternalKey)
    requires Before(key, key')
    ensures StartAfter(fs, key') <= StartAfter(fs, key)
    ensures (exists f :: f in fs && Before(key, Smallest(f)) && !Before(key', Smallest(f)))
            ==> StartAfter(fs, key') < StartAfter(fs, key)
  {
    if fs == [] {
    } else {
      var n := |fs| - 1;
      StartAfterShrinks(fs[..n], key, key');
    }
  }

  /** No file of the level lies strictly between two chosen ones. */
  ghost predicate Convex(level: seq<File>, fs: seq<File>) {
    forall i, j, k :: 0 <= i < j < k < |level| && level[i] in fs && level[k] in fs ==> level[j] in fs
  }

  ghost predicate AllSorted(fs: seq<File>) {
    forall f :: f in fs ==> Sorted(f.rows)
  }

  ghost predicate Within(fs: seq<File>, level: seq<File>) {
    forall f :: f in fs ==> f in level
  }

  /** The smallest boundary file directly follows the last chosen file. */
  lemma BoundaryIsNext(level: seq<File>, b: nat, c: nat)
    requires AllSorted(level) && Disjoint(level) && b < |level| && c < |level|
    requires IsBoundary(level[c], Largest(level[b]))
    requires forall g :: g in level && IsBoundary(g, Largest(level[b])) ==> !Before(Smallest(g), Smallest(level[c]))
    ensures c == b + 1
  {
    RangeOrdered(level[c]);
    RangeOrdered(level[b]);
    if b + 1 < c {
      LargestIncreases(level, b + 1, c);
    }
  }

  lemma LastIndex(level: seq<File>, fs: seq<File>, b: nat)
    requires AllSorted(level) && Disjoint(level) && b < |level| && IsLargest(fs, Largest(level[b]))
    ensures forall k :: b < k < |level| ==> level[k] !in fs
  {
  }

  lemma NextKeepsConvex(level: seq<File>, fs: seq<File>, b: nat)
    requires AllSorted(level) && Disjoint(level) && Convex(level, fs) && b + 1 < |level|
    requires level[b] in fs && forall k :: b < k < |level| ==> level[k] !in fs
    ensures Convex(level, fs + [level[b + 1]])
  {
    var r := fs + [level[b + 1]];
    forall i, j, k | 0 <= i < j < k < |level| && level[i] in r && level[k] in r ensures level[j] in r {
      if level[i] == level[b + 1] { IndexUnique(level, i, b + 1); }
      if level[k] == level[b + 1] { IndexUnique(level, k, b + 1); }
      assert i <= b && k <= b + 1;
      assert j == b || j == b + 1 || level[j] in fs;
    }
  }

  lemma BoundaryKeepsConvexAt(level: seq<File>, fs: seq<File>, b: nat, c: nat)
    requires AllSorted(level) && Disjoint(level) && Convex(level, fs) && b < |level| && c < |level|
    requires level[b] in fs && IsLargest(fs, Largest(level[b])) && IsBoundary(level[c], Largest(level[b]))
    requires forall g :: g in level && IsBoundary(g, Largest(level[b])) ==> !Before(Smallest(g), Smallest(level[c]))
    ensures Convex(level, fs + [level[c]])
  {
    hide Convex, Sorted;
    BoundaryIsNext(level, b, c);
    LastIndex(level, fs, b);
    NextKeepsConvex(level, fs, b);
  }

  /** The next boundary file keeps the choice gapless. */
  lemma BoundaryKeepsConvex(level: seq<File>, fs: seq<File>, largest: InternalKey, f: File)
    requires AllSorted(level) && Disjoint(level) && Within(fs, level) && Convex(level, fs)
    requires IsLargest(fs, largest) && f in level && IsBoundary(f, largest)
    requires forall g :: g in level && IsBoundary(g, largest) ==> !Before(Smallest(g), Smallest(f))
    ensures Convex(level, fs + [f])
  {
    var last :| last in fs && Largest(last) == largest;
    var b :| 0 <= b < |level| && level[b] == last;
    var c :| 0 <= c < |level| && level[c] == f;
    BoundaryKeepsConvexAt(level, fs, b, c);
  }

  lemma RangeOrdered(f: File)
    requires Sorted(f.rows)
    ensures !Before(Largest(f), Smallest(f))
  {
  }

  lemma IndexUnique(level: seq<File>, i: nat, j: nat)
    requires AllSorted(level) && Disjoint(level) && i < |level| && j < |level| && level[i] == level[j]
    ensures i == j
  {
  }

  lemma LargestUnique(fs: seq<File>, a: InternalKey, b: InternalKey)
    requires IsLargest(fs, a) && IsLargest(fs, b)
    ensures a == b
  {
  }

  /**
   * AddBoundaryInputs: follows the chain of files that continue the last user
   * key, and stops with none left out.
   */
  method AddBoundaryInputs(levelFiles: seq<File>, fs: seq<File>, ghost extra: seq<File>) returns (r: seq<File>)
    requires AllSorted(levelFiles) && Within(fs, levelFiles)
    ensures fs <= r && Within(r, levelFiles)
    ensures NoBoundaryLeft(levelFiles, r)
    ensures Disjoint(levelFiles) && Convex(levelFiles, fs) ==> Convex(levelFiles, r)
    ensures NoBoundaryLeft(levelFiles, fs) ==> r == fs
    ensures Connected(fs + extra) ==> Connected(r + extra)
    ensures NoDup(fs) ==> NoDup(r)
    ensures BoundaryChain(levelFiles, fs, r)
  {
    hide Extends, IsLargest, IsBoundary, StartAfter;
    r := fs;
    ExtendsSelf(levelFiles, fs, extra);
    if fs == [] {
      NothingLargest(levelFiles);
      ExtendsFacts(levelFiles, fs, extra, r);
      return;
    }
    var smallest, largest := GetRange(fs);
    RangeLargest(fs, smallest, largest);
    var searching := true;
    while searching
      invariant Extends(levelFiles, fs, extra, r) && IsLargest(r, largest)
      invariant !searching ==> forall f :: f in levelFiles ==> !IsBoundary(f, largest)
      decreases searching, StartAfter(levelFiles, largest)
    {
      var b := FindSmallestBoundaryFile(levelFiles, largest);
      if b.Some? {
        BoundaryStep(levelFiles, fs, extra, r, largest, b.value);
        r := r + [b.value];
        largest := Largest(b.value);
      } else {
        searching := false;
      }
    }
    ExtendsFacts(levelFiles, fs, extra, r);
    forall l, f | IsLargest(r, l) && f in levelFiles ensures !IsBoundary(f, l) {
      LargestUnique(r, l, largest);
    }
  }

  /** What the boundary search keeps while it adds files. */
  ghost predicate Extends(levelFiles: seq<File>, fs: seq<File>, extra: seq<File>, r: seq<File>) {
    && fs <= r && Within(r, levelFiles)
    && (Disjoint(levelFiles) && Convex(levelFiles, fs) ==> Convex(levelFiles, r))
    && (NoBoundaryLeft(levelFiles, fs) ==> r == fs)
    && (Connected(fs + extra) ==> Connected(r + extra))
    && (NoDup(fs) ==> NoDup(r))
    && BoundaryChain(levelFiles, fs, r)
  }

  /** Every file added was, when it was added, the first to continue the last user key so far. */
  ghost predicate BoundaryChain(levelFiles: seq<File>, fs: seq<File>, r: seq<File>) {
    fs <= r && forall i :: |fs| <= i < |r| ==> Continues(levelFiles, r[..i], r[i])
  }

  ghost predicate Continues(levelFiles: seq<File>, fs: seq<File>, f: File) {
    exists largest :: IsLargest(fs, largest) && FirstBoundary(levelFiles, largest, f)
  }

  ghost predicate FirstBoundary(levelFiles: seq<File>, largest: InternalKey, f: File) {
    && IsBoundary(f, largest)
    && forall g :: g in levelFiles && IsBoundary(g, largest) ==> !Before(Smallest(g), Smallest(f))
  }

  lemma ChainMore(levelFiles: seq<File>, fs: seq<File>, r: seq<File>, largest: InternalKey, b: File)
    requires BoundaryChain(levelFiles, fs, r) && IsLargest(r, largest) && FirstBoundary(levelFiles, largest, b)
    ensures BoundaryChain(levelFiles, fs, r + [b])
  {
    hide IsLargest, FirstBoundary;
    var more := r + [b];
    assert more[..|r|] == r;
    forall i | |fs| <= i < |more| ensures Continues(levelFiles, more[..i], more[i]) {
      if i < |r| {
        assert more[..i] == r[..i];
      }
    }
  }

  lemma ExtendsSelf(levelFiles: seq<File>, fs: seq<File>, extra: seq<File>)
    requires Within(fs, levelFiles)
    ensures Extends(levelFiles, fs, extra, fs)
  {
  }

  lemma ExtendsFacts(levelFiles: seq<File>, fs: seq<File>, extra: seq<File>, r: seq<File>)
    requires Extends(levelFiles, fs, extra, r)
    ensures fs <= r && Within(r, levelFiles)
    ensures Disjoint(levelFiles) && Convex(levelFiles, fs) ==> Convex(levelFiles, r)
    ensures NoBoundaryLeft(levelFiles, fs) ==> r == fs
    ensures Connected(fs + extra) ==> Connected(r + extra)
    ensures NoDup(fs) ==> NoDup(r)
    ensures BoundaryChain(levelFiles, fs, r)
  {
    hide Convex, Connected, Disjoint, NoBoundaryLeft, NoDup, BoundaryChain;
  }

  lemma NothingLargest(levelFiles: seq<File>)
    ensures NoBoundaryLeft(levelFiles, [])
  {
  }

  lemma RangeLargest(fs: seq<File>, smallest: InternalKey, largest: InternalKey)
    requires IsRange(fs, smallest, largest)
    ensures IsLargest(fs, largest)
  {
  }

  /** One boundary file more. */
  lemma BoundaryStep(levelFiles: seq<File>, fs: seq<File>, extra: seq<File>, r: seq<File>, largest: InternalKey,
                     b: File)
    requires AllSorted(levelFiles) && Extends(levelFiles, fs, extra, r) && IsLargest(r, largest)
    requires b in levelFiles && IsBoundary(b, largest)
    requires forall f :: f in levelFiles && IsBoundary(f, largest) ==> !Before(Smallest(f), Smallest(b))
    ensures Extends(levelFiles, fs, extra, r + [b]) && IsLargest(r + [b], Largest(b))
    ensures StartAfter(levelFiles, Largest(b)) < StartAfter(levelFiles, largest)
  {
    hide Convex, Connected, Sorted, Disjoint, StartAfter, NoDup, BoundaryChain;
    ChainMore(levelFiles, fs, r, largest, b);
    RangeOrdered(b);
    BeforeTrans(largest, Smallest(b), Largest(b));
    StartAfterShrinks(levelFiles, largest, Largest(b));
    AppendLargest(r, largest, b);
    BoundaryIsNew(r, largest, b);
    if Disjoint(levelFiles) && Convex(levelFiles, fs) {
      BoundaryKeepsConvex(levelFiles, r, largest, b);
    }
    if Connected(r + extra) { ConnectedBoundary(r, extra, largest, b); }
  }

  lemma BoundaryIsNew(r: seq<File>, largest: InternalKey, b: File)
    requires IsLargest(r, largest) && IsBoundary(b, largest) && Sorted(b.rows)
    ensures b !in r && (NoDup(r) ==> NoDup(r + [b]))
  {
    RangeOrdered(b);
    BeforeTrans(largest, Smallest(b), Largest(b));
  }

  /** A boundary file starts at the last user key, so it joins a connected choice. */
  lemma ConnectedBoundary(r: seq<File>, extra: seq<File>, largest: InternalKey, f: File)
    requires Connected(r + extra) && IsLargest(r, largest) && IsBoundary(f, largest) && Sorted(f.rows)
    requires forall g :: g in r ==> Sorted(g.rows)
    ensures Connected(r + [f] + extra)
  {
    var last :| last in r && Largest(last) == largest;
    RangeOrdered(f);
    RangeOrdered(last);
    ConnectedAppend(r + extra, f, last, last);
    SameFilesConnected(r + extra + [f], r + [f] + extra);
  }

  lemma AppendLargest(fs: seq<File>, largest: InternalKey, f: File)
    requires IsLargest(fs, largest) && Before(largest, Largest(f))
    ensures IsLargest(fs + [f], Largest(f))
    ensures f !in fs
  {
  }

  // ---- SetupOtherInputs ----

  /** A wider range selects more files, and as many only if they are the same. */
  lemma {:induction false} WiderSameSize(fs: seq<File>, lo: Option<UserKey>, hi: Option<UserKey>,
                                         lo': Option<UserKey>, hi': Option<UserKey>)
    requires LoLe(lo', lo) && HiGe(hi', hi)
    ensures |Overlapping(fs, lo, hi)| <= |Overlapping(fs, lo', hi')|
    ensures |Overlapping(fs, lo, hi)| == |Overlapping(fs, lo', hi')| ==>
              Overlapping(fs, lo, hi) == Overlapping(fs, lo', hi')
  {
    if fs == [] {
    } else {
      WiderSameSize(fs[..|fs| - 1], lo, hi, lo', hi');
    }
  }

  lemma OverlappingConvex(level: seq<File>, lo: Option<UserKey>, hi: Option<UserKey>)
    requires AllSorted(level) && Disjoint(level)
    ensures Convex(level, Overlapping(level, lo, hi))
  {
    OverlappingMembers(level, lo, hi);
    forall i, j, k | 0 <= i < j < k < |level| && level[i] in Overlapping(level, lo, hi)
        && level[k] in Overlapping(level, lo, hi)
      ensures level[j] in Overlapping(level, lo, hi)
    {
      LargestIncreases(level, i, j);
      LargestIncreases(level, j, k);
    }
  }

  /** Files of the level left out are newer, key by key, than those chosen. */
  ghost predicate RestNewer(level: seq<File>, fs: seq<File>) {
    forall g, h :: g in level && g !in fs && h in fs ==> Newer(g.rows, h.rows)
  }

  /** In a sorted level, a gapless choice with no boundary file left leaves only newer files behind. */
  lemma ConvexRestNewer(level: seq<File>, fs: seq<File>)
    requires AllSorted(level) && Disjoint(level) && Within(fs, level) && Distinct(Rows(level))
    requires Convex(level, fs) && NoBoundaryLeft(level, fs)
    ensures RestNewer(level, fs)
  {
    forall g, h | g in level && g !in fs && h in fs ensures Newer(g.rows, h.rows) {
      forall a, b | a in g.rows && b in h.rows && a.ikey.user == b.ikey.user
        ensures a.ikey.sequence > b.ikey.sequence
      {
        RestNewerAt(level, fs, g, h, a, b);
      }
    }
  }

  lemma RestNewerAt(level: seq<File>, fs: seq<File>, g: File, h: File, a: Entry, b: Entry)
    requires AllSorted(level) && Disjoint(level) && Within(fs, level)
    requires Convex(level, fs) && NoBoundaryLeft(level, fs)
    requires g in level && g !in fs && h in fs && a in g.rows && b in h.rows && a.ikey.user == b.ikey.user
    ensures Before(a.ikey, b.ikey)
  {
    var i :| 0 <= i < |level| && level[i] == g;
    var j :| 0 <= j < |level| && level[j] == h;
    RowsWithinRange(g, a);
    RowsWithinRange(h, b);
    if i < j {
      OrderedFilesOrderRows(g, h, a, b);
    } else {
      RestAfterIsPast(level, fs, i, j);
    }
  }

  /** A file left out after a chosen one starts past every chosen user key. */
  lemma RestAfterIsPast(level: seq<File>, fs: seq<File>, i: nat, j: nat)
    requires AllSorted(level) && Disjoint(level) && Within(fs, level)
    requires Convex(level, fs) && NoBoundaryLeft(level, fs)
    requires j < i < |level| && level[i] !in fs && level[j] in fs
    ensures Smallest(level[i]).user > Largest(level[j]).user
  {
    var m := LastChosen(level, fs, j);
    assert m < i;
    assert Before(Largest(level[m]), Smallest(level[i]));
    if j < m { LargestIncreases(level, j, m); }
    assert !IsBoundary(level[i], Largest(level[m]));
  }

  /** The last chosen index at or after `j`. */
  lemma LastChosen(level: seq<File>, fs: seq<File>, j: nat) returns (m: nat)
    requires AllSorted(level) && Disjoint(level) && Within(fs, level) && j < |level| && level[j] in fs
    ensures j <= m < |level| && level[m] in fs && forall k :: m < k < |level| ==> level[k] !in fs
    ensures IsLargest(fs, Largest(level[m]))
  {
    m := |level| - 1;
    while level[m] !in fs
      invariant j <= m < |level|
      invariant forall k :: m < k < |level| ==> level[k] !in fs
      decreases m
    {
      m := m - 1;
    }
    forall f | f in fs ensures !Before(Largest(level[m]), Largest(f)) {
      var i :| 0 <= i < |level| && level[i] == f;
      if i < m { LargestIncreases(level, i, m); }
    }
  }

  lemma OrderedFilesOrderRows(g: File, h: File, a: Entry, b: Entry)
    requires Sorted(g.rows) && Sorted(h.rows) && Before(Largest(g), Smallest(h)) && a in g.rows && b in h.rows
    ensures Before(a.ikey, b.ikey)
  {
  }

  /** In level 0, a choice closed under overlap shares no user key with the rest, and has no boundary file. */
  lemma ClosedRestNewer(level: seq<File>, lo: Option<UserKey>, hi: Option<UserKey>)
    requires AllSorted(level) && Closed(level, lo, hi)
    ensures RestNewer(level, Overlapping(level, lo, hi))
    ensures NoBoundaryLeft(level, Overlapping(level, lo, hi))
  {
    var fs := Overlapping(level, lo, hi);
    OverlappingMembers(level, lo, hi);
    forall g, h | g in level && g !in fs && h in fs ensures Newer(g.rows, h.rows) {
      forall a, b | a in g.rows && b in h.rows ensures a.ikey.user != b.ikey.user {
        RowsWithinRange(g, a);
        RowsWithinRange(h, b);
      }
    }
    forall largest, f | IsLargest(fs, largest) && f in level ensures !IsBoundary(f, largest) {
      if IsBoundary(f, largest) {
        var last :| last in fs && Largest(last) == largest;
        RangeOrdered(f);
        RangeOrdered(last);
        BeforeTrans(largest, Smallest(f), Largest(f));
      }
    }
  }

  /** What PickCompaction and CompactRange hand over: gapless above level 0, closed under overlap in level 0. */
  ghost predicate Picked(v: Levels, level: nat, fs: seq<File>)
    requires level < |v|
  {
    && fs != [] && Within(fs, v[level]) && NoDup(fs)
    && (level == 0 ==> exists lo, hi :: Closed(v[0], lo, hi) && fs == Overlapping(v[0], lo, hi))
    && (level > 0 ==> Convex(v[level], fs))
  }

  /** The inputs SetupOtherInputs settles on. */
  ghost predicate InputsClosed(v: Levels, level: nat, in0: seq<File>, in1: seq<File>)
    requires level + 1 < |v|
  {
    && in0 != [] && Within(in0, v[level]) && NoDup(in0) && NoDup(in1)
    && RestNewer(v[level], in0)
    && (forall smallest, largest :: IsRange(in0, smallest, largest) ==>
          in1 == Overlapping(v[level + 1], Some(smallest.user), Some(largest.user)))
  }

  lemma RangeUnique(fs: seq<File>, a: InternalKey, b: InternalKey, c: InternalKey, d: InternalKey)
    requires IsRange(fs, a, b) && IsRange(fs, c, d)
    ensures a == c && b == d
  {
  }

  /** Boundary files added: the choice at this level is closed. */
  method CloseLevel(v: Levels, level: nat, picked: seq<File>, ghost extra: seq<File>) returns (in0: seq<File>)
    requires LevelInvariant(v) && level < |v| && Distinct(VersionRows(v)) && Picked(v, level, picked)
    ensures picked <= in0 && Within(in0, v[level]) && RestNewer(v[level], in0)
    ensures Picked(v, level, in0)
    ensures Connected(picked + extra) ==> Connected(in0 + extra)
    ensures BoundaryChain(v[level], picked, in0) && NoBoundaryLeft(v[level], in0)
  {
    hide BoundaryChain;
    if level == 0 {
      ghost var lo, hi :| Closed(v[0], lo, hi) && picked == Overlapping(v[0], lo, hi);
      ClosedRestNewer(v[0], lo, hi);
    }
    in0 := AddBoundaryInputs(v[level], picked, extra);
    if level > 0 {
      RowsOfLevelDistinct(v, level);
      ConvexRestNewer(v[level], in0);
    }
  }

  lemma RowsOfLevelDistinct(v: Levels, level: nat)
    requires level < |v| && Distinct(VersionRows(v))
    ensures Distinct(Rows(v[level]))
  {
  }

  /** What GetOverlappingInputs selects. */
  ghost predicate Meeting(levelZero: bool, fs: seq<File>, begin: Option<UserKey>, end: Option<UserKey>, r: seq<File>) {
    if levelZero then exists lo, hi :: LeastClosed(fs, begin, end, lo, hi) && r == Overlapping(fs, lo, hi)
    else r == Overlapping(fs, begin, end)
  }

  /** The level's files meeting the whole range of the compaction, and their boundary files. */
  ghost predicate Widened(v: Levels, level: nat, in0: seq<File>, in1: seq<File>, wide: seq<File>)
    requires level < |v|
  {
    exists lo, hi, fs ::
      && IsRange(in0 + in1, lo, hi) && Meeting(level == 0, v[level], Some(lo.user), Some(hi.user), fs)
      && BoundaryChain(v[level], fs, wide) && NoBoundaryLeft(v[level], wide)
  }

  /** Growing to `wide` gains a file, is within the limit, and needs no other file of the next level. */
  ghost predicate Grows(v: Levels, level: nat, in0: seq<File>, in1: seq<File>, wide: seq<File>, roomToGrow: bool)
    requires level + 1 < |v|
  {
    |wide| > |in0| && roomToGrow && SameNext(v[level + 1], in1, wide)
  }

  ghost predicate SameNext(next: seq<File>, in1: seq<File>, wide: seq<File>) {
    forall lo, hi :: IsRange(wide, lo, hi) ==> Overlapping(next, Some(lo.user), Some(hi.user)) == in1
  }

  /** The choice after an attempt to grow it to `wide`. */
  ghost predicate GrownTo(v: Levels, level: nat, in0: seq<File>, in1: seq<File>, wide: seq<File>, roomToGrow: bool,
                       grown: seq<File>)
    requires level + 1 < |v|
  {
    Widened(v, level, in0, in1, wide) && grown == if Grows(v, level, in0, in1, wide, roomToGrow) then wide else in0
  }

  /** The inputs are the picked files with their boundary files and the next level's, grown where that is free. */
  ghost predicate Settled(v: Levels, level: nat, picked: seq<File>, roomToGrow: bool, in0: seq<File>, in1: seq<File>)
    requires level + 1 < |v|
  {
    exists first ::
      && BoundaryChain(v[level], picked, first) && NoBoundaryLeft(v[level], first) && InputsClosed(v, level, first, in1)
      && if in1 == [] then in0 == first else exists wide :: GrownTo(v, level, first, in1, wide, roomToGrow, in0)
  }

  /**
   * SetupOtherInputs.  `roomToGrow` stands for the byte limit on growing the
   * choice; growing is kept only if it needs no further file of the next level.
   */
  method SetupOtherInputs(v: Levels, level: nat, picked: seq<File>, roomToGrow: bool)
    returns (in0: seq<File>, in1: seq<File>)
    requires LevelInvariant(v) && level + 1 < |v| && Distinct(VersionRows(v)) && Picked(v, level, picked)
    requires NoDup(v[level]) && NoDup(v[level + 1])
    ensures Within(picked, in0)
    ensures InputsClosed(v, level, in0, in1)
    ensures Connected(picked) ==> Connected(in0 + in1)
    ensures Settled(v, level, picked, roomToGrow, in0, in1)
  {
    hide Connected, LevelsSorted, LevelsDisjoint, ShallowNewer, LevelZeroByNumber, Distinct, RestNewer, Convex,
        Overlapping, IsRange, BoundaryChain, NoBoundaryLeft, GrownTo;
    in0 := CloseLevel(v, level, picked, []);
    ghost var first := in0;
    assert picked + [] == picked && in0 + [] == in0;
    var smallest, largest := GetRange(in0);
    var a, b;
    in1, a, b := GetOverlappingInputs(false, v[level + 1], Some(smallest.user), Some(largest.user), []);
    RangeDetermines(v, level, in0, in1, smallest, largest);
    if Connected(in0) { ConnectedNext(v[level + 1], in0, in1, smallest, largest); }
    OverlappingMembers(v[level + 1], Some(smallest.user), Some(largest.user));
    if in1 != [] {
      ghost var wide;
      in0, wide := GrowInputs(v, level, in0, in1, smallest, largest, roomToGrow);
      assert GrownTo(v, level, first, in1, wide, roomToGrow, in0);
    }
  }

  /** Grows the choice of `level` while the choice of the next level stays the same. */
  method GrowInputs(v: Levels, level: nat, in0: seq<File>, in1: seq<File>,
                    smallest: InternalKey, largest: InternalKey, roomToGrow: bool)
    returns (grown: seq<File>, ghost wide: seq<File>)
    requires LevelInvariant(v) && level + 1 < |v| && Distinct(VersionRows(v)) && NoDup(v[level]) && NoDup(v[level + 1])
    requires InputsClosed(v, level, in0, in1) && IsRange(in0, smallest, largest) && Within(in1, v[level + 1])
    ensures Within(in0, grown)
    ensures InputsClosed(v, level, grown, in1)
    ensures Connected(in0 + in1) ==> Connected(grown + in1)
    ensures GrownTo(v, level, in0, in1, wide, roomToGrow, grown)
  {
    hide Widened, Overlapping, IsRange, RestNewer, Distinct, Connected, NoDup, SameNext;
    var allStart, allLimit := GetRange(in0 + in1);
    var expanded0 := ExpandLevel(v, level, in0, in1, allStart, allLimit);
    grown, wide := in0, expanded0;
    if |expanded0| > |in0| && roomToGrow {
      var newStart, newLimit := GetRange(expanded0);
      var expanded1, _, _ := GetOverlappingInputs(false, v[level + 1], Some(newStart.user), Some(newLimit.user), []);
      SameSizeNext(v[level + 1], in0, in1, wide, smallest, largest, newStart, newLimit);
      if |expanded1| == |in1| {
        RangeDetermines(v, level, expanded0, expanded1, newStart, newLimit);
        grown := expanded0;
      }
    }
  }

  /** The wider choice meets as many files of the next level exactly when it meets the same. */
  lemma SameSizeNext(next: seq<File>, in0: seq<File>, in1: seq<File>, wide: seq<File>, smallest: InternalKey,
                     largest: InternalKey, newStart: InternalKey, newLimit: InternalKey)
    requires IsRange(in0, smallest, largest) && IsRange(wide, newStart, newLimit) && Within(in0, wide)
    requires in1 == Overlapping(next, Some(smallest.user), Some(largest.user))
    ensures var all := Overlapping(next, Some(newStart.user), Some(newLimit.user));
              (|all| == |in1| <==> SameNext(next, in1, wide)) && (|all| == |in1| ==> all == in1)
  {
    RangeWidens(in0, wide, smallest, largest, newStart, newLimit);
    WiderSameSize(next, Some(smallest.user), Some(largest.user), Some(newStart.user), Some(newLimit.user));
    forall lo, hi | IsRange(wide, lo, hi) ensures lo == newStart && hi == newLimit {
      RangeUnique(wide, lo, hi, newStart, newLimit);
    }
  }

  /** The files of `level` meeting the whole range of the compaction, closed. */
  method ExpandLevel(v: Levels, level: nat, in0: seq<File>, in1: seq<File>, allStart: InternalKey,
                     allLimit: InternalKey)
    returns (expanded0: seq<File>)
    requires LevelInvariant(v) && level < |v| && Distinct(VersionRows(v)) && NoDup(v[level])
    requires in0 != [] && Within(in0, v[level]) && IsRange(in0 + in1, allStart, allLimit)
    requires forall g :: g in in1 ==> Sorted(g.rows)
    ensures Within(in0, expanded0) && Within(expanded0, v[level]) && RestNewer(v[level], expanded0) && expanded0 != []
    ensures NoDup(expanded0)
    ensures Connected(in0 + in1) ==> Connected(expanded0 + in1)
    ensures Widened(v, level, in0, in1, expanded0)
  {
    hide BoundaryChain, NoBoundaryLeft, Connected, Disjoint, ShallowNewer, LevelZeroByNumber, Distinct, RestNewer,
        Convex, Sorted, Covers, Overlaps;
    var fs, lo, hi := GetOverlappingInputs(level == 0, v[level], Some(allStart.user), Some(allLimit.user), in1);
    OverlappingMembers(v[level], lo, hi);
    ExpandedContains(in0, v[level], lo, hi, allStart, allLimit);
    assert in0[0] in fs;
    OverlappingNoDup(v[level], lo, hi);
    if level > 0 { OverlappingConvex(v[level], lo, hi); }
    if Connected(in0 + in1) {
      HullCovered(v[level], in0, in1, allStart, allLimit);
      ExpandedConnected(v[level], in0, in1, fs, lo, hi, allStart, allLimit);
    }
    expanded0 := CloseLevel(v, level, fs, in1);
    assert Meeting(level == 0, v[level], Some(allStart.user), Some(allLimit.user), fs);
  }

  /** The level's files and the next level's inputs cover the hull of a connected choice. */
  lemma HullCovered(level: seq<File>, in0: seq<File>, in1: seq<File>, allStart: InternalKey, allLimit: InternalKey)
    requires Within(in0, level) && IsRange(in0 + in1, allStart, allLimit) && Connected(in0 + in1)
    ensures CoversRange(level + in1, Some(allStart.user), Some(allLimit.user))
  {
    var f :| f in in0 + in1 && Smallest(f) == allStart;
    var g :| g in in0 + in1 && Largest(g) == allLimit;
    forall u | allStart.user <= u <= allLimit.user ensures Spanned(level + in1, u) {
      assert Spanned(in0 + in1, u);
      var h :| h in in0 + in1 && Spans(h, u);
    }
  }

  /** A choice that covers its range and only meets it is connected. */
  lemma ExpandedConnected(level: seq<File>, in0: seq<File>, in1: seq<File>, fs: seq<File>, lo: Option<UserKey>,
                          hi: Option<UserKey>,
                          allStart: InternalKey, allLimit: InternalKey)
    requires CoversRange(fs + in1, lo, hi) && fs == Overlapping(level, lo, hi)
    requires LoLe(lo, Some(allStart.user)) && HiGe(hi, Some(allLimit.user)) && IsRange(in0 + in1, allStart, allLimit)
    requires forall g :: g in in1 ==> Sorted(g.rows)
    ensures Connected(fs + in1)
  {
    OverlappingMembers(level, lo, hi);
    var r := fs + in1;
    forall g | g in in1 ensures Overlaps(g, lo, hi) {
      RangeOrdered(g);
    }
    forall f, g, u | f in r && g in r && Smallest(f).user <= u <= Largest(g).user ensures Spanned(r, u) {}
  }

  /** Every input of the next level meets the hull of the first, so the choice stays connected. */
  lemma ConnectedNext(next: seq<File>, in0: seq<File>, in1: seq<File>, smallest: InternalKey, largest: InternalKey)
    requires Connected(in0) && IsRange(in0, smallest, largest)
    requires in1 == Overlapping(next, Some(smallest.user), Some(largest.user))
    ensures Connected(in0 + in1)
  {
    OverlappingMembers(next, Some(smallest.user), Some(largest.user));
    var a :| a in in0 && Smallest(a) == smallest;
    var b :| b in in0 && Largest(b) == largest;
    ConnectedAppendAll(in0, in1, a, b);
  }

  lemma RangeDetermines(v: Levels, level: nat, in0: seq<File>, in1: seq<File>, smallest: InternalKey,
                        largest: InternalKey)
    requires level + 1 < |v| && in0 != [] && Within(in0, v[level]) && RestNewer(v[level], in0)
    requires IsRange(in0, smallest, largest) && NoDup(in0) && NoDup(v[level + 1])
    requires in1 == Overlapping(v[level + 1], Some(smallest.user), Some(largest.user))
    ensures InputsClosed(v, level, in0, in1)
  {
    OverlappingNoDup(v[level + 1], Some(smallest.user), Some(largest.user));
    forall s, l | IsRange(in0, s, l) ensures in1 == Overlapping(v[level + 1], Some(s.user), Some(l.user)) {
      RangeUnique(in0, s, l, smallest, largest);
    }
  }

  lemma RangeWidens(fs: seq<File>, gs: seq<File>, a: InternalKey, b: InternalKey, c: InternalKey, d: InternalKey)
    requires IsRange(fs, a, b) && IsRange(gs, c, d) && Within(fs, gs)
    ensures c.user <= a.user && b.user <= d.user
  {
  }

  lemma ExpandedContains(in0: seq<File>, level: seq<File>, lo: Option<UserKey>, hi: Option<UserKey>,
                         allStart: InternalKey, allLimit: InternalKey)
    requires AllSorted(level) && Within(in0, level) && LoLe(lo, Some(allStart.user)) && HiGe(hi, Some(allLimit.user))
    requires forall f :: f in in0 ==> !Before(Smallest(f), allStart) && !Before(allLimit, Largest(f))
    ensures forall f :: f in in0 ==> f in level && Overlaps(f, lo, hi)
  {
  }

  lemma PickedConnected(level: seq<File>, f: File, picked: seq<File>, lo: Option<UserKey>, hi: Option<UserKey>)
    requires f in level && Closed(level, lo, hi) && picked == Overlapping(level, lo, hi)
    requires CoversRange(level + [], Some(Smallest(f).user), Some(Largest(f).user)) ==> CoversRange(picked + [], lo, hi)
    ensures Connected(picked)
  {
    assert level + [] == level && picked + [] == picked;
    assert CoversRange(level, Some(Smallest(f).user), Some(Largest(f).user)) by {
      forall u | Smallest(f).user <= u <= Largest(f).user ensures Spanned(level, u) {}
    }
    OverlappingMembers(level, lo, hi);
    forall g, h, u | g in picked && h in picked && Smallest(g).user <= u <= Largest(h).user
        ensures Spanned(picked, u) {}
  }

  /** PickCompaction: one file, widened in level 0 to every file it transitively overlaps. */
  method PickInputs(v: Levels, level: nat, f: File) returns (picked: seq<File>)
    requires LevelInvariant(v) && level < |v| && f in v[level] && NoDup(v[level])
    ensures Picked(v, level, picked) && f in picked && Connected(picked)
    ensures FileChoice(v[level], level == 0, f, picked)
  {
    if level == 0 {
      var lo, hi;
      picked, lo, hi := GetOverlappingInputs(true, v[0], Some(Smallest(f).user), Some(Largest(f).user), []);
      PickedConnected(v[0], f, picked, lo, hi);
      OverlappingNoDup(v[0], lo, hi);
      OverlappingMembers(v[0], lo, hi);
      RangeOrdered(f);
      assert Overlaps(f, lo, hi);
    } else {
      picked := [f];
      forall g, h, u | g in picked && h in picked && Smallest(g).user <= u <= Largest(h).user
          ensures Spanned(picked, u) {}
      forall i, k | 0 <= i < |v[level]| && 0 <= k < |v[level]| && v[level][i] in picked && v[level][k] in picked
        ensures i == k
      {
        IndexUnique(v[level], i, k);
      }
    }
  }

  /** In level 0 the files of the least closed range around `f`; above it `f` alone. */
  ghost predicate FileChoice(fs: seq<File>, levelZero: bool, f: File, picked: seq<File>) {
    if levelZero then Meeting(true, fs, Some(Smallest(f).user), Some(Largest(f).user), picked) else picked == [f]
  }

  /** All of `fs`, or the first of them that are enough. */
  ghost predicate FirstEnough(fs: seq<File>, enough: nat -> bool, picked: seq<File>) {
    && picked <= fs && (picked != fs ==> picked != [] && enough(|picked|))
    && forall i :: 0 < i < |picked| ==> !enough(i)
  }

  /** In level 0 the files of the least closed range; above it the files meeting the range, as many as are enough. */
  ghost predicate RangeChoice(fs: seq<File>, levelZero: bool, begin: Option<UserKey>, end: Option<UserKey>,
                              enough: nat -> bool, picked: seq<File>) {
    if levelZero then Meeting(true, fs, begin, end, picked)
    else FirstEnough(Overlapping(fs, begin, end), enough, picked)
  }

  /** The files of a manual compaction: those meeting the range, above level 0 only as many as are enough. */
  method PickRange(v: Levels, level: nat, begin: Option<UserKey>, end: Option<UserKey>, enough: nat -> bool)
    returns (picked: seq<File>)
    requires LevelInvariant(v) && level < |v| && NoDup(v[level])
    ensures picked != [] ==> Picked(v, level, picked)
    ensures picked == [] ==> forall f :: f in v[level] ==> !Overlaps(f, begin, end)
    ensures RangeChoice(v[level], level == 0, begin, end, enough, picked)
  {
    hide ShallowNewer, LevelZeroByNumber, Overlapping, Convex, Disjoint, NoDup;
    var inputs, lo, hi := GetOverlappingInputs(level == 0, v[level], begin, end, []);
    OverlappingMembers(v[level], lo, hi);
    OverlappingNoDup(v[level], lo, hi);
    var n := |inputs|;
    if level > 0 {
      n := CountEnough(|inputs|, enough);
      PrefixConvex(v[level], lo, hi, n);
    }
    picked := inputs[..n];
    PrefixNoDup(inputs, n);
    assert inputs[..|inputs|] == inputs;
  }

  /** The loop that stops at the size limit. */
  method CountEnough(n: nat, enough: nat -> bool) returns (k: nat)
    ensures k <= n && (n > 0 ==> k > 0)
    ensures k < n ==> enough(k)
    ensures forall i :: 0 < i < k ==> !enough(i)
  {
    for i := 0 to n
      invariant forall h :: 0 < h <= i ==> !enough(h)
    {
      if enough(i + 1) {
        return i + 1;
      }
    }
    k := n;
  }

  lemma PrefixNoDup(fs: seq<File>, n: nat)
    requires n <= |fs| && NoDup(fs)
    ensures NoDup(fs[..n])
  {
  }

  lemma {:induction false} OverlappingDisjoint(level: seq<File>, lo: Option<UserKey>, hi: Option<UserKey>)
    requires Disjoint(level)
    ensures Disjoint(Overlapping(level, lo, hi))
  {
    if level == [] {
    } else {
      var n := |level| - 1;
      OverlappingDisjoint(level[..n], lo, hi);
      OverlappingMembers(level[..n], lo, hi);
      forall f | f in Overlapping(level[..n], lo, hi) ensures Before(Largest(f), Smallest(level[n])) {
        var i :| 0 <= i < n && level[i] == f;
      }
    }
  }

  /** The first files meeting a range leave no gap among themselves. */
  lemma PrefixConvex(level: seq<File>, lo: Option<UserKey>, hi: Option<UserKey>, n: nat)
    requires AllSorted(level) && Disjoint(level) && n <= |Overlapping(level, lo, hi)|
    ensures Convex(level, Overlapping(level, lo, hi)[..n])
  {
    var fs := Overlapping(level, lo, hi);
    OverlappingConvex(level, lo, hi);
    OverlappingDisjoint(level, lo, hi);
    forall i, j, k | 0 <= i < j < k < |level| && level[i] in fs[..n] && level[k] in fs[..n]
        ensures level[j] in fs[..n] {
      assert level[i] in fs && level[k] in fs;
      InOrder(fs, level[j], level[k], n);
    }
  }

  /** What comes before a file of a prefix is in the prefix. */
  lemma InOrder(fs: seq<File>, f: File, g: File, n: nat)
    requires Disjoint(fs) && n <= |fs| && f in fs && g in fs[..n] && Before(Largest(f), Smallest(g))
    requires Sorted(f.rows) && Sorted(g.rows)
    ensures f in fs[..n]
  {
    var p :| 0 <= p < |fs| && fs[p] == f;
    var q :| 0 <= q < n && fs[q] == g;
    RowsWithinRange(f, f.rows[0]);
    RowsWithinRange(g, g.rows[0]);
    BeforeTrans(Smallest(f), Largest(f), Smallest(g));
    BeforeTrans(Smallest(g), Largest(g), Smallest(f));
    assert fs[..n][q] == g && (p < n ==> fs[..n][p] == f);
  }
}
