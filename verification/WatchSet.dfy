/** The set of resource kinds the agent watches: its canonical list and the watchers started for it. */
module WatchSet {
  import opened Prelude

  datatype Gvk = Gvk(group: string, version: string, kind: string)

  const SECRET_GVK := Gvk("", "v1", "Secret")

  // ----- the order of buildSortedList -----

  predicate StringLess(a: string, b: string) {
    b != "" && (a == "" || a[0] < b[0] || (a[0] == b[0] && StringLess(a[1..], b[1..])))
  }

  predicate Less(a: Gvk, b: Gvk) {
    if a.group != b.group then StringLess(a.group, b.group)
    else if a.version != b.version then StringLess(a.version, b.version)
    else if a.kind != b.kind then StringLess(a.kind, b.kind)
    else false
  }

  lemma {:induction false} StringOrder(a: string, b: string, c: string)
    ensures !StringLess(a, a)
    ensures a != b ==> StringLess(a, b) || StringLess(b, a)
    ensures !(StringLess(a, b) && StringLess(b, a))
    ensures StringLess(a, b) && StringLess(b, c) ==> StringLess(a, c)
    decreases |a| + |b| + |c|
  {
    if a != "" {
      StringOrder(a[1..], if b == "" then "" else b[1..], if c == "" then "" else c[1..]);
      assert a == [a[0]] + a[1..];
      assert b != "" ==> b == [b[0]] + b[1..];
    }
  }

  /** The first k characters agree, and a comes first at the next one. */
  ghost predicate FirstAt(a: string, b: string, k: nat) {
    k < |a| && k < |b| && a[..k] == b[..k] && a[k] < b[k]
  }

  lemma FirstAtTails(a: string, b: string, k: nat)
    requires a != "" && b != "" && a[0] == b[0]
    ensures FirstAt(a, b, k + 1) <==> FirstAt(a[1..], b[1..], k)
    ensures !FirstAt(a, b, 0)
  {
    if k + 1 <= |a| && k + 1 <= |b| {
      assert a[..k + 1] == [a[0]] + a[1..][..k] && b[..k + 1] == [b[0]] + b[1..][..k];
      assert a[1..][..k] == a[..k + 1][1..] && b[1..][..k] == b[..k + 1][1..];
    }
  }

  lemma FirstAtHeads(a: string, b: string, k: nat)
    requires FirstAt(a, b, k)
    ensures k == 0 || a[0] == b[0]
  {
    if k > 0 {
      assert a[..k][0] == a[0] && b[..k][0] == b[0];
    }
  }

  /** The order of dictionaries: a proper prefix comes first, and otherwise the first character that differs decides. */
  lemma {:induction false} StringLessExactly(a: string, b: string)
    ensures StringLess(a, b) <==> a < b || exists k: nat :: FirstAt(a, b, k)
  {
    if a != "" && b != "" {
      if a[0] == b[0] {
        StringLessExactly(a[1..], b[1..]);
        assert a == [a[0]] + a[1..] && b == [b[0]] + b[1..];
        if k: nat :| FirstAt(a[1..], b[1..], k) {
          FirstAtTails(a, b, k);
        }
        if k: nat :| FirstAt(a, b, k) {
          FirstAtTails(a, b, if k > 0 then k - 1 else 0);
        }
      } else {
        if k: nat :| FirstAt(a, b, k) {
          FirstAtHeads(a, b, k);
        }
        assert a[0] < b[0] ==> FirstAt(a, b, 0);
      }
    }
  }

  /** The comparison is a strict total order: by group first, then by version, then by kind. */
  lemma GvkOrder(a: Gvk, b: Gvk, c: Gvk)
    ensures !Less(a, a)
    ensures StringLess(a.group, b.group) ==> Less(a, b)
    ensures a.group == b.group && StringLess(a.version, b.version) ==> Less(a, b)
    ensures a.group == b.group && a.version == b.version && StringLess(a.kind, b.kind) ==> Less(a, b)
    ensures a != b ==> Less(a, b) || Less(b, a)
    ensures !(Less(a, b) && Less(b, a))
    ensures Less(a, b) && Less(b, c) ==> Less(a, c)
  {
    StringOrder(a.group, b.group, c.group);
    StringOrder(a.version, b.version, c.version);
    StringOrder(a.kind, b.kind, c.kind);
  }

  ghost predicate Ascending(list: seq<Gvk>) {
    forall i, j | 0 <= i < j < |list| :: Less(list[i], list[j])
  }

  /** There is only one ascending list of a set. */
  lemma {:induction false} AscendingIsUnique(a: seq<Gvk>, b: seq<Gvk>)
    requires Ascending(a) && Ascending(b) && ToSet(a) == ToSet(b)
    ensures a == b
  {
    assert forall g :: g in a <==> g in b by {
      assert forall g :: (g in a <==> g in ToSet(a)) && (g in b <==> g in ToSet(b));
    }
    assert (a != [] ==> a[0] in b) && (b != [] ==> b[0] in a);
    if a != [] && b != [] {
      GvkOrder(a[0], b[0], a[0]);
      assert a[0] == b[0];
      TailOfAscending(a);
      TailOfAscending(b);
      AscendingIsUnique(a[1..], b[1..]);
      assert a == [a[0]] + a[1..] && b == [b[0]] + b[1..];
    }
  }

  lemma TailOfAscending(a: seq<Gvk>)
    requires Ascending(a) && a != []
    ensures Ascending(a[1..]) && ToSet(a[1..]) == ToSet(a) - {a[0]}
  {
    forall x ensures x in ToSet(a[1..]) <==> x in ToSet(a) - {a[0]} {
      GvkOrder(a[0], a[0], a[0]);
      assert a == [a[0]] + a[1..];
    }
  }

  /** Comparing two built lists is comparing the two sets of kinds. */
  lemma ListsAreCanonical(a: seq<Gvk>, b: seq<Gvk>)
    requires Ascending(a) && Ascending(b)
    ensures a == b <==> ToSet(a) == ToSet(b)
  {
    if ToSet(a) == ToSet(b) {
      AscendingIsUnique(a, b);
    }
  }

  /** sort.Slice with the comparison above: a permutation in which no element is less than an earlier one. */
  method SortSlice(gvks: seq<Gvk>) returns (sorted: seq<Gvk>)
    ensures multiset(sorted) == multiset(gvks)
    ensures forall i, j | 0 <= i < j < |sorted| :: !Less(sorted[j], sorted[i])
  {
    sorted := [];
    for i := 0 to |gvks|
      invariant multiset(sorted) == multiset(gvks[..i])
      invariant forall i, j | 0 <= i < j < |sorted| :: !Less(sorted[j], sorted[i])
    {
      assert gvks[..i + 1] == gvks[..i] + [gvks[i]];
      sorted := InsertSorted(sorted, gvks[i]);
    }
    assert gvks[..|gvks|] == gvks;
  }

  method InsertSorted(list: seq<Gvk>, g: Gvk) returns (r: seq<Gvk>)
    requires forall i, j | 0 <= i < j < |list| :: !Less(list[j], list[i])
    ensures multiset(r) == multiset(list) + multiset{g}
    ensures forall i, j | 0 <= i < j < |r| :: !Less(r[j], r[i])
  {
    var k := 0;
    while k < |list| && !Less(g, list[k])
      invariant 0 <= k <= |list|
      invariant forall i | 0 <= i < k :: !Less(g, list[i])
    {
      k := k + 1;
    }
    r := list[..k] + [g] + list[k..];
    assert list == list[..k] + list[k..];
    InsertedInOrder(list, g, k);
  }

  lemma InsertedInOrder(list: seq<Gvk>, g: Gvk, k: nat)
    requires k <= |list| && forall i, j | 0 <= i < j < |list| :: !Less(list[j], list[i])
    requires (forall i | 0 <= i < k :: !Less(g, list[i])) && (k < |list| ==> Less(g, list[k]))
    ensures var r := list[..k] + [g] + list[k..]; forall i, j | 0 <= i < j < |r| :: !Less(r[j], r[i])
  {
    var r := list[..k] + [g] + list[k..];
    forall i, j | 0 <= i < j < |r| ensures !Less(r[j], r[i]) {
      if i == k {
        GvkOrder(list[j - 1], g, list[k]);
      }
    }
  }

  /** The kinds of the map, each once, in ascending order, whatever order the map is iterated in. */
  method BuildSortedList(gvks: set<Gvk>) returns (list: seq<Gvk>)
    ensures Ascending(list) && ToSet(list) == gvks && |list| == |gvks|
  {
    list := [];
    var pending := gvks;
    while pending != {}
      invariant pending <= gvks && |list| == |gvks - pending|
      invariant ToSet(list) == gvks - pending
      invariant forall i, j | 0 <= i < j < |list| :: list[i] != list[j]
    {
      var g :| g in pending;
      assert g !in ToSet(list);
      assert gvks - (pending - {g}) == (gvks - pending) + {g};
      list, pending := list + [g], pending - {g};
    }
    assert gvks - pending == gvks;
    var sorted := SortSlice(list);
    SortedAscends(list, sorted);
    list := sorted;
  }

  lemma SortedAscends(list: seq<Gvk>, sorted: seq<Gvk>)
    requires multiset(sorted) == multiset(list)
    requires forall i, j | 0 <= i < j < |list| :: list[i] != list[j]
    requires forall i, j | 0 <= i < j < |sorted| :: !Less(sorted[j], sorted[i])
    ensures Ascending(sorted) && ToSet(sorted) == ToSet(list) && |sorted| == |list|
  {
    assert |multiset(sorted)| == |multiset(list)|;
    forall g ensures g in sorted <==> g in list {
      assert g in sorted <==> g in multiset(sorted);
    }
    forall i, j | 0 <= i < j < |sorted| ensures Less(sorted[i], sorted[j]) {
      DistinctCounts(list, sorted[i]);
      if sorted[i] == sorted[j] {
        CountsTwice(sorted, i, j);
      }
      GvkOrder(sorted[i], sorted[j], sorted[i]);
    }
  }

  lemma {:induction false} DistinctCounts(list: seq<Gvk>, g: Gvk)
    requires forall i, j | 0 <= i < j < |list| :: list[i] != list[j]
    ensures multiset(list)[g] <= 1
  {
    if list != [] {
      var init := list[..|list| - 1];
      assert list == init + [list[|list| - 1]];
      DistinctCounts(init, g);
    }
  }

  lemma CountsTwice(list: seq<Gvk>, i: nat, j: nat)
    requires i < j < |list| && list[i] == list[j]
    ensures multiset(list)[list[i]] >= 2
  {
    assert list == list[..j] + [list[j]] + list[j + 1..];
    assert list[i] in list[..j];
  }

  // ----- the watchers -----

  /** watchers: kinds with a watcher; unknown: kinds found not installed; informers: every informer ever started. */
  datatype Watches = Watches(watchers: set<Gvk>, unknown: seq<Gvk>, informers: seq<Gvk>)

  /** At most one informer was ever started per kind, and exactly for the kinds with a watcher. */
  ghost predicate OneEach(w: Watches) {
    && ToSet(w.informers) == w.watchers
    && forall i, j | 0 <= i < j < |w.informers| :: w.informers[i] != w.informers[j]
  }

  /** A kind that is installed gets a watcher unless it has one; any other is noted as unknown. */
  function Wanted(w: Watches, g: Gvk, installed: set<Gvk>): Watches {
    if g !in installed then w.(unknown := w.unknown + [g])
    else if g in w.watchers then w
    else w.(watchers := w.watchers + {g}, informers := w.informers + [g])
  }

  predicate CanStart(w: Watches, g: Gvk, installed: set<Gvk>, available: set<Gvk>) {
    g in installed && g !in w.watchers ==> g in available
  }

  /** updateWatchers over a list of wanted kinds; it stops at the first informer that cannot be built. */
  function Updated(w: Watches, list: seq<Gvk>, installed: set<Gvk>, available: set<Gvk>): (Watches, bool)
    decreases list
  {
    if list == [] then (w, true)
    else if !CanStart(w, list[0], installed, available) then (w, false)
    else Updated(Wanted(w, list[0], installed), list[1..], installed, available)
  }

  ghost predicate Covers(w: Watches, gvks: set<Gvk>) {
    forall g <- gvks :: g in w.watchers || g in w.unknown
  }

  lemma WantedKeepsOneEach(w: Watches, g: Gvk, installed: set<Gvk>)
    requires OneEach(w)
    ensures OneEach(Wanted(w, g, installed))
  {
    assert g in w.watchers <==> g in ToSet(w.informers);
    assert ToSet(w.informers + [g]) == ToSet(w.informers) + {g};
  }

  /** Watchers, unknown kinds and informers only grow, and no second informer is started for a kind. */
  lemma {:induction false} UpdateGrows(w: Watches, list: seq<Gvk>, installed: set<Gvk>, available: set<Gvk>)
    requires OneEach(w)
    ensures var (w', _) := Updated(w, list, installed, available);
            && OneEach(w') && w.watchers <= w'.watchers && w.unknown <= w'.unknown && w.informers <= w'.informers
            && w'.watchers <= w.watchers + (ToSet(list) * installed)
            && forall g <- w'.unknown[|w.unknown|..] :: g in list && g !in installed
    decreases list
  {
    if list != [] && CanStart(w, list[0], installed, available) {
      WantedKeepsOneEach(w, list[0], installed);
      UpdateGrows(Wanted(w, list[0], installed), list[1..], installed, available);
      assert ToSet(list) == {list[0]} + ToSet(list[1..]) by {
        assert list == [list[0]] + list[1..];
      }
    }
  }

  /** A successful update covers every wanted kind, the installed ones with a watcher. */
  lemma {:induction false} UpdateCovers(w: Watches, list: seq<Gvk>, installed: set<Gvk>, available: set<Gvk>)
    requires OneEach(w)
    ensures var (w', ok) := Updated(w, list, installed, available);
            ok ==> forall g <- list :: if g in installed then g in w'.watchers else g in w'.unknown
    decreases list
  {
    if list != [] && CanStart(w, list[0], installed, available) {
      var w1 := Wanted(w, list[0], installed);
      WantedKeepsOneEach(w, list[0], installed);
      UpdateGrows(w1, list[1..], installed, available);
      UpdateCovers(w1, list[1..], installed, available);
      var (w', ok) := Updated(w, list, installed, available);
      assert list == [list[0]] + list[1..];
      assert list[0] !in installed ==> w1.unknown[|w.unknown|] == w'.unknown[|w.unknown|] == list[0];
    }
  }

  /** It succeeds exactly when every installed kind without a watcher can get one. */
  lemma {:induction false} UpdateSucceedsExactly(w: Watches, list: seq<Gvk>, installed: set<Gvk>, available: set<Gvk>)
    ensures Updated(w, list, installed, available).1 <==> forall g <- list :: CanStart(w, g, installed, available)
    decreases list
  {
    if list != [] && CanStart(w, list[0], installed, available) {
      var w1 := Wanted(w, list[0], installed);
      UpdateSucceedsExactly(w1, list[1..], installed, available);
      assert list == [list[0]] + list[1..];
      assert forall g <- list[1..] :: CanStart(w1, g, installed, available) <==> CanStart(w, g, installed, available);
    }
  }

  // ----- closing watchers -----

  function RemovedAt(list: seq<Gvk>, i: nat): seq<Gvk>
    requires i < |list|
  {
    list[..i] + list[i + 1..]
  }

  /** The recorded list after a walk, the kinds whose watcher it closed, in order, and whether it panicked. */
  datatype Walk = Walk(recorded: seq<Gvk>, closed: seq<Gvk>, panicked: bool)

  /**
   * The walk over positions i to n of the recorded list, which removes the kinds that are no longer wanted from the
   * very list it walks: it may go past the end of what is left, or look for a watcher that is not there.
   */
  function Walked(recorded: seq<Gvk>, i: nat, n: nat, wanted: set<Gvk>, watchers: set<Gvk>): Walk
    decreases n - i
  {
    if i >= n then Walk(recorded, [], false)
    else if i >= |recorded| then Walk(recorded, [], true)
    else if recorded[i] in wanted then Walked(recorded, i + 1, n, wanted, watchers)
    else if recorded[i] !in watchers then Walk(recorded, [], true)
    else
      var rest := Walked(RemovedAt(recorded, i), i + 1, n, wanted, watchers);
      rest.(closed := [recorded[i]] + rest.closed)
  }

  /** A walk with fewer kinds than positions left goes past the end, or panics before. */
  lemma {:induction false} ShortWalkPanics(recorded: seq<Gvk>, i: nat, n: nat, wanted: set<Gvk>, watchers: set<Gvk>)
    requires i < n && |recorded| < n
    ensures Walked(recorded, i, n, wanted, watchers).panicked
    decreases n - i
  {
    if i < |recorded| {
      if recorded[i] in wanted {
        ShortWalkPanics(recorded, i + 1, n, wanted, watchers);
      } else if recorded[i] in watchers {
        ShortWalkPanics(RemovedAt(recorded, i), i + 1, n, wanted, watchers);
      }
    }
  }

  /** The first recorded kind from position i on that is not wanted, or the number of recorded kinds. */
  function FirstStale(recorded: seq<Gvk>, i: nat, wanted: set<Gvk>): (k: nat)
    requires i <= |recorded|
    ensures i <= k <= |recorded| && forall j | i <= j < k :: recorded[j] in wanted
    ensures k < |recorded| ==> recorded[k] !in wanted
    decreases |recorded| - i
  {
    if i == |recorded| || recorded[i] !in wanted then i else FirstStale(recorded, i + 1, wanted)
  }

  lemma {:induction false} WalkFromFirstStale(recorded: seq<Gvk>, i: nat, wanted: set<Gvk>, watchers: set<Gvk>)
    requires i <= |recorded|
    ensures Walked(recorded, i, |recorded|, wanted, watchers) ==
            Walked(recorded, FirstStale(recorded, i, wanted), |recorded|, wanted, watchers)
    decreases |recorded| - i
  {
    if i < |recorded| && recorded[i] in wanted {
      WalkFromFirstStale(recorded, i + 1, wanted, watchers);
    }
  }

  /**
   * The whole walk. It closes nothing and changes nothing exactly when every recorded kind is wanted or the first one
   * that is not has no watcher; and it panics unless that first one is the last of the list and has a watcher.
   */
  lemma WalkExactly(recorded: seq<Gvk>, wanted: set<Gvk>, watchers: set<Gvk>)
    ensures var n, k := |recorded|, FirstStale(recorded, 0, wanted);
            var walk := Walked(recorded, 0, n, wanted, watchers);
            && (walk.panicked <==> k < n && (k < n - 1 || recorded[k] !in watchers))
            && (walk.closed == [] <==> k == n || recorded[k] !in watchers)
            && (k < n && recorded[k] in watchers ==> walk.closed[0] == recorded[k])
            && (!walk.panicked ==> walk.recorded == recorded[..k] && walk.closed == recorded[k..])
  {
    var n, k := |recorded|, FirstStale(recorded, 0, wanted);
    WalkFromFirstStale(recorded, 0, wanted, watchers);
    if k == n {
      assert recorded[..n] == recorded && recorded[n..] == [];
    } else if recorded[k] in watchers {
      if k < n - 1 {
        ShortWalkPanics(RemovedAt(recorded, k), k + 1, n, wanted, watchers);
      } else {
        assert RemovedAt(recorded, k) == recorded[..k] && recorded[k..] == [recorded[k]];
      }
    }
  }

  /** Only recorded kinds that are not wanted and have a watcher are closed. */
  lemma {:induction false} ClosedAreStale(recorded: seq<Gvk>, i: nat, n: nat, wanted: set<Gvk>, watchers: set<Gvk>, g: Gvk)
    requires g in Walked(recorded, i, n, wanted, watchers).closed
    ensures g in recorded && g !in wanted && g in watchers
    decreases n - i
  {
    if recorded[i] in wanted {
      ClosedAreStale(recorded, i + 1, n, wanted, watchers, g);
    } else if g != recorded[i] {
      ClosedAreStale(RemovedAt(recorded, i), i + 1, n, wanted, watchers, g);
    }
  }

  // ----- one list applied -----

  /** Go's copy(dst, src): it never changes the length of dst. */
  function Copied(dst: seq<Gvk>, src: seq<Gvk>): (r: seq<Gvk>)
    ensures |r| == |dst|
    ensures forall i | 0 <= i < |dst| :: r[i] == if i < |src| then src[i] else dst[i]
  {
    if |dst| <= |src| then src[..|dst|] else src + dst[|src|..]
  }

  /** recorded: the list of kinds recorded as watched; closed: every kind whose watcher was ever closed. */
  datatype Managed = Managed(recorded: seq<Gvk>, watches: Watches, closed: seq<Gvk>)

  const NOTHING_MANAGED := Managed([], Watches({}, [], []), [])

  datatype Outcome = Applied | Failed | Panicked

  /** updateWatchers; installed is None when discovery fails. */
  function UpdatedFor(m: Managed, list: seq<Gvk>, installed: Option<set<Gvk>>, available: set<Gvk>): (Managed, Outcome) {
    if installed.None? then (m, Failed)
    else
      var (watches, ok) := Updated(m.watches, list, installed.value, available);
      if !ok then (m.(watches := watches), Failed)
      else
        var walk := Walked(m.recorded, 0, |m.recorded|, ToSet(list), watches.watchers);
        (Managed(walk.recorded, watches, m.closed + walk.closed), if walk.panicked then Panicked else Applied)
  }

  /** What the builder does with a freshly built list, once it holds the lock: compare, update, copy. */
  function AppliedTo(m: Managed, list: seq<Gvk>, installed: Option<set<Gvk>>, available: set<Gvk>): (Managed, Outcome) {
    if list == m.recorded then (m, Applied)
    else
      var (m', outcome) := UpdatedFor(m, list, installed, available);
      (if outcome.Applied? then m'.(recorded := Copied(m'.recorded, list)) else m', outcome)
  }

  /** The recorded list is created empty; as copying never lengthens it, it stays so, and no watcher is closed. */
  ghost predicate NothingRecorded(m: Managed) {
    m.recorded == [] && m.closed == [] && OneEach(m.watches)
  }

  lemma ApplyRecordsNothing(m: Managed, list: seq<Gvk>, installed: Option<set<Gvk>>, available: set<Gvk>)
    requires NothingRecorded(m)
    ensures var (m', outcome) := AppliedTo(m, list, installed, available);
            && NothingRecorded(m') && !outcome.Panicked?
            && m.watches.watchers <= m'.watches.watchers && ToSet(m.watches.unknown) <= ToSet(m'.watches.unknown)
            && (outcome.Applied? && installed.Some? ==>
                  forall g <- list :: if g in installed.value then g in m'.watches.watchers else g in m'.watches.unknown)
            && (list == [] ==> m' == m && outcome == Applied)
            && (list != [] && installed.None? ==> m' == m && outcome == Failed)
  {
    if installed.Some? {
      UpdateGrows(m.watches, list, installed.value, available);
      UpdateCovers(m.watches, list, installed.value, available);
    }
  }

  /**
   * Were the list recorded as meant, an update that drops a kind would panic unless that kind is the last one
   * recorded; and one that drops the last one only would close its watcher.
   */
  lemma RecordingWouldClose(m: Managed, list: seq<Gvk>, installed: set<Gvk>, available: set<Gvk>)
    requires OneEach(m.watches) && ToSet(m.recorded) <= m.watches.watchers
    requires Updated(m.watches, list, installed, available).1
    ensures var (m', outcome) := UpdatedFor(m, list, Some(installed), available);
            var n, k := |m.recorded|, FirstStale(m.recorded, 0, ToSet(list));
            && outcome == (if k + 1 < n then Panicked else Applied)
            && (m'.closed == m.closed <==> k == n)
            && (k + 1 == n ==> m'.closed == m.closed + [m.recorded[k]] && m'.recorded == m.recorded[..k])
  {
    UpdateGrows(m.watches, list, installed, available);
    var (watches, _) := Updated(m.watches, list, installed, available);
    var n, k := |m.recorded|, FirstStale(m.recorded, 0, ToSet(list));
    WalkExactly(m.recorded, ToSet(list), watches.watchers);
    var walk := Walked(m.recorded, 0, n, ToSet(list), watches.watchers);
    assert |m.closed + walk.closed| == |m.closed| + |walk.closed|;
    if k < n {
      assert m.recorded[k] in ToSet(m.recorded);
    }
  }

  class WatchManager {
    var recorded: seq<Gvk>
    var watchers: set<Gvk>
    var unknown: seq<Gvk>
    ghost var informers: seq<Gvk>
    ghost var closed: seq<Gvk>

    ghost function Current(): Managed
      reads this
    {
      Managed(recorded, Watches(watchers, unknown, informers), closed)
    }

    ghost predicate Valid()
      reads this
    {
      OneEach(Current().watches)
    }

    constructor ()
      ensures Valid() && Current() == NOTHING_MANAGED
    {
      recorded, watchers, unknown, informers, closed := [], {}, [], [], [];
    }

    /** available: an informer for g can be built. */
    method StartWatcher(g: Gvk, available: bool) returns (ok: bool)
      requires Valid()
      modifies this`watchers, this`informers
      ensures Valid()
      ensures ok <==> g in old(watchers) || available
      ensures Current().watches == if ok then Wanted(old(Current()).watches, g, {g}) else old(Current()).watches
    {
      if g in watchers {
        return true;
      }
      if !available {
        return false;
      }
      assert g !in ToSet(informers);
      assert ToSet(informers + [g]) == ToSet(informers) + {g};
      watchers := watchers + {g};
      informers := informers + [g];
      return true;
    }

    /** Closes the watchers of recorded kinds that are no longer wanted, removing them from the list being walked. */
    method CancelStale(wanted: set<Gvk>) returns (panicked: bool)
      modifies this`recorded, this`closed
      ensures var walk := Walked(old(recorded), 0, |old(recorded)|, wanted, watchers);
              recorded == walk.recorded && closed == old(closed) + walk.closed && panicked == walk.panicked
      ensures panicked <==>
              var n, k := |old(recorded)|, FirstStale(old(recorded), 0, wanted);
              k < n && (k < n - 1 || old(recorded)[k] !in watchers)
    {
      WalkExactly(recorded, wanted, watchers);
      ghost var list, done := recorded, closed;
      var n := |recorded|;
      for i := 0 to n
        invariant var rest := Walked(recorded, i, n, wanted, watchers);
                  rest.(closed := closed + rest.closed) ==
                  var all := Walked(list, 0, n, wanted, watchers); all.(closed := done + all.closed)
      {
        if i >= |recorded| {
          return true;
        }
        var g := recorded[i];
        if g !in wanted {
          if g !in watchers {
            return true;
          }
          ghost var rest := Walked(RemovedAt(recorded, i), i + 1, n, wanted, watchers);
          assert closed + ([g] + rest.closed) == closed + [g] + rest.closed;
          closed := closed + [g];
          recorded := recorded[..i] + recorded[i + 1..];
        }
      }
      return false;
    }

    method UpdateWatchers(list: seq<Gvk>, installed: Option<set<Gvk>>, available: set<Gvk>) returns (outcome: Outcome)
      requires Valid()
      modifies this
      ensures Valid()
      ensures (Current(), outcome) == UpdatedFor(old(Current()), list, installed, available)
    {
      if installed.None? {
        return Failed;
      }
      var wanted: set<Gvk> := {};
      for i := 0 to |list|
        invariant Valid() && recorded == old(recorded) && closed == old(closed) && wanted == ToSet(list[..i])
        invariant Updated(old(Current()).watches, list, installed.value, available)
               == Updated(Current().watches, list[i..], installed.value, available)
      {
        var g := list[i];
        assert list[i..][1..] == list[i + 1..] && list[..i + 1] == list[..i] + [g];
        wanted := wanted + {g};
        if g in installed.value {
          var ok := StartWatcher(g, g in available);
          if !ok {
            return Failed;
          }
        } else {
          unknown := unknown + [g];
        }
      }
      assert list[..|list|] == list;
      var panicked := CancelStale(wanted);
      return if panicked then Panicked else Applied;
    }

    method Apply(list: seq<Gvk>, installed: Option<set<Gvk>>, available: set<Gvk>) returns (outcome: Outcome)
      requires Valid()
      modifies this
      ensures Valid()
      ensures (Current(), outcome) == AppliedTo(old(Current()), list, installed, available)
    {
      if list == recorded {
        return Applied;
      }
      outcome := UpdateWatchers(list, installed, available);
      if outcome == Applied {
        recorded := Copied(recorded, list);
      }
    }
  }
}
