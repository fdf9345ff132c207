/**
 * The scoreboard's aggregation (`getScoreboard`): for every team, the
 * snapshot files in its directories; for every round, the snapshots of that
 * round's level in name order, folded into the first time each important
 * item was seen collected; then scores, times and the ranking of the teams.
 *
 * Directory listings and the decoded snapshot files are inputs: a listing
 * is given with each directory (or its absence, when reading it fails), and
 * `load` says what opening and decoding a path yields.
 */
module Scoreboard {
  import opened Wrappers
  import opened Bytes
  import Sorting

  // ---- Time ------------------------------------------------------------------

  /** A `time.Time` as nanoseconds since Go's zero time; `IsZero` is `t == Zero`. */
  type Time = int
  const Zero: Time := 0

  const MinDuration: int := -0x8000_0000_0000_0000
  const MaxDuration: int := 0x7FFF_FFFF_FFFF_FFFF
  /** `time.Duration`: signed 64-bit nanoseconds. */
  type Duration = d: int | MinDuration <= d <= MaxDuration

  /** `t.Sub(u)`: the difference, saturated at the ends of the Duration range. */
  function Sub(t: Time, u: Time): Duration {
    if t - u > MaxDuration then MaxDuration
    else if t - u < MinDuration then MinDuration
    else t - u
  }

  /** `a + b` on Durations wraps around as 64-bit integers do. */
  function AddDuration(a: Duration, b: Duration): Duration {
    if a + b > MaxDuration then a + b - 0x1_0000_0000_0000_0000
    else if a + b < MinDuration then a + b + 0x1_0000_0000_0000_0000
    else a + b
  }

  /** `d.Milliseconds()`: integer division truncated toward zero. */
  function Milliseconds(d: Duration): int {
    if d >= 0 then d as int / 1_000_000 else -((-(d as int)) / 1_000_000)
  }

  // ---- Inputs and results -------------------------------------------------------

  /** A directory entry: its name and whether it is a regular file. */
  datatype Entry = Entry(Name: string, Regular: bool)
  /** A snapshots directory of a team and its listing, `None` when `os.ReadDir` fails. */
  datatype Dir = Dir(Path: string, Listing: Option<seq<Entry>>)
  datatype Team = Team(Name: string, Dirs: seq<Dir>)
  datatype Round = Round(Level: string, Start: Time)

  datatype SnapshotItem = SnapshotItem(Name: string, Important: bool, Collected: bool)
  datatype Snapshot = Snapshot(Items: seq<SnapshotItem>, CreatedAt: Time)
  /** What opening and decoding a snapshot file gives. */
  datatype Load = Loaded(Snapshot: Snapshot) | CannotOpen | CannotDecode

  datatype ScoreError = ListingFailed(Dir: string) | OpenFailed(File: string) | DecodeFailed(File: string)

  datatype Item = Item(Name: string, Collected: bool, CollectedAt: Time)
  datatype LevelScore = LevelScore(Level: string, Items: seq<Item>)
  datatype TeamScore = TeamScore(Name: string, Score: nat, TotalTime: Duration, UpdatedAt: Time,
                                 Levels: seq<LevelScore>)

  // ---- Snapshot files -------------------------------------------------------------

  predicate IsSnapshot(e: Entry) {
    e.Regular && IsPrefix("snapshot", e.Name)
  }

  /** `path.Join(dir, name)` for a clean directory path. */
  function Join(dir: string, name: string): string {
    if dir == [] then name
    else if dir[|dir| - 1] == '/' then dir + name
    else dir + "/" + name
  }

  /** The paths of the snapshot files among `entries`, in listing order. */
  function Listed(dir: string, entries: seq<Entry>): (fs: seq<string>)
    ensures |fs| <= |entries|
  {
    if entries == [] then []
    else
      var e := entries[|entries| - 1];
      var fs := Listed(dir, entries[..|entries| - 1]);
      if IsSnapshot(e) then fs + [Join(dir, e.Name)] else fs
  }

  /**
   * All snapshot files of a team, directory after directory; the first
   * directory that cannot be listed is the error.
   */
  function TeamFiles(dirs: seq<Dir>): (r: Result<seq<string>, ScoreError>)
  {
    if dirs == [] then Success([])
    else
      var init := TeamFiles(dirs[..|dirs| - 1]);
      var d := dirs[|dirs| - 1];
      if init.Failure? then init
      else if d.Listing.None? then Failure(ListingFailed(d.Path))
      else Success(init.value + Listed(d.Path, d.Listing.value))
  }

  /** Exactly the regular files whose names start with "snapshot" are listed. */
  lemma {:induction false} ListedAreSnapshots(dir: string, entries: seq<Entry>)
    ensures forall f :: f in Listed(dir, entries) <==>
              exists i :: 0 <= i < |entries| && IsSnapshot(entries[i]) && f == Join(dir, entries[i].Name)
    decreases |entries|
  {
    if entries != [] {
      var init := entries[..|entries| - 1];
      ListedAreSnapshots(dir, init);
      assert forall i :: 0 <= i < |init| ==> init[i] == entries[i];
    }
  }

  /**
   * Listing fails exactly when some directory cannot be read, and then with
   * the first such directory.
   */
  lemma {:induction false} TeamFilesFailure(dirs: seq<Dir>)
    ensures TeamFiles(dirs).Failure? <==> exists i :: 0 <= i < |dirs| && dirs[i].Listing.None?
    ensures TeamFiles(dirs).Failure? ==>
              exists i :: 0 <= i < |dirs| && dirs[i].Listing.None? && TeamFiles(dirs).error == ListingFailed(dirs[i].Path) &&
                          forall j :: 0 <= j < i ==> dirs[j].Listing.Some?
    decreases |dirs|
  {
    if dirs != [] {
      var init := dirs[..|dirs| - 1];
      TeamFilesFailure(init);
      assert forall i :: 0 <= i < |init| ==> init[i] == dirs[i];
    }
  }

  /** A team's files are the snapshot files of all its directories. */
  lemma {:induction false} TeamFilesAreSnapshots(dirs: seq<Dir>)
    requires TeamFiles(dirs).Success?
    ensures forall f :: f in TeamFiles(dirs).value <==>
              exists i :: 0 <= i < |dirs| && dirs[i].Listing.Some? && f in Listed(dirs[i].Path, dirs[i].Listing.value)
    decreases |dirs|
  {
    if dirs != [] {
      var init := dirs[..|dirs| - 1];
      TeamFilesAreSnapshots(init);
      assert forall i :: 0 <= i < |init| ==> init[i] == dirs[i];
    }
  }

  /** Once a prefix of the directories fails, the whole listing fails the same way. */
  lemma {:induction false} TeamFilesFailureSticks(dirs: seq<Dir>, k: nat)
    requires k <= |dirs| && TeamFiles(dirs[..k]).Failure?
    ensures TeamFiles(dirs) == TeamFiles(dirs[..k])
    decreases |dirs| - k
  {
    if k < |dirs| {
      assert dirs[..k + 1][..k] == dirs[..k];
      TeamFilesFailureSticks(dirs, k + 1);
    } else {
      assert dirs[..k] == dirs;
    }
  }

  /** The snapshot-file loop of `getScoreboard`. */
  method ListSnapshots(dirs: seq<Dir>) returns (r: Result<seq<string>, ScoreError>)
    ensures r == TeamFiles(dirs)
  {
    var files: seq<string> := [];
    var i := 0;
    while i < |dirs|
      invariant 0 <= i <= |dirs|
      invariant TeamFiles(dirs[..i]) == Success(files)
    {
      var d := dirs[i];
      assert dirs[..i + 1][..i] == dirs[..i];
      if d.Listing.None? {
        TeamFilesFailureSticks(dirs, i + 1);
        return Failure(ListingFailed(d.Path));
      }
      var entries := d.Listing.value;
      var listed: seq<string> := [];
      var j := 0;
      while j < |entries|
        invariant 0 <= j <= |entries|
        invariant listed == Listed(d.Path, entries[..j])
      {
        assert entries[..j + 1][..j] == entries[..j];
        if IsSnapshot(entries[j]) {
          listed := listed + [Join(d.Path, entries[j].Name)];
        }
        j := j + 1;
      }
      assert entries[..j] == entries;
      files := files + listed;
      i := i + 1;
    }
    assert dirs[..i] == dirs;
    r := Success(files);
  }

  // ---- A round's snapshots -------------------------------------------------------------

  /** `lo.Filter` keeping the paths that contain the level name. */
  function OfLevel(files: seq<string>, level: string): (r: seq<string>)
    ensures forall f :: f in r <==> f in files && Contains(f, level)
    ensures |r| <= |files|
  {
    if files == [] then []
    else
      var f := files[|files| - 1];
      var r := OfLevel(files[..|files| - 1], level);
      assert files == files[..|files| - 1] + [f];
      if Contains(f, level) then r + [f] else r
  }

  /** A round's snapshots: the paths that contain its level name, sorted as `slices.Sort` does. */
  function LevelFiles(files: seq<string>, level: string): (r: seq<string>)
    ensures forall f :: f in r <==> f in files && Contains(f, level)
    ensures multiset(r) == multiset(OfLevel(files, level))
    ensures Sorting.SortedBy(r, Sorting.StringLe)
  {
    var r := Sorting.SortStrings(OfLevel(files, level));
    assert forall f :: f in r <==> f in multiset(OfLevel(files, level));
    r
  }

  // ---- First collection times ---------------------------------------------------------

  /**
   * One item of a snapshot taken at `at`: an important item gets an entry
   * (zero while uncollected), and a collected one records `at` unless an
   * earlier non-zero time is there.
   */
  function Record(m: map<string, Time>, it: SnapshotItem, at: Time): (r: map<string, Time>)
    ensures r.Keys == if it.Important then m.Keys + {it.Name} else m.Keys
    ensures forall k :: k in m && m[k] != Zero ==> r[k] == m[k]
  {
    if !it.Important then m
    else
      var m1 := if it.Name in m then m else m[it.Name := Zero];
      if it.Collected && m1[it.Name] == Zero then m1[it.Name := at] else m1
  }

  function RecordSnapshot(m: map<string, Time>, items: seq<SnapshotItem>, at: Time): map<string, Time> {
    if items == [] then m
    else Record(RecordSnapshot(m, items[..|items| - 1], at), items[|items| - 1], at)
  }

  /** The times of a sequence of snapshots, folded from the empty map. */
  function RecordAll(snaps: seq<Snapshot>): map<string, Time> {
    if snaps == [] then map[]
    else
      var s := snaps[|snaps| - 1];
      RecordSnapshot(RecordAll(snaps[..|snaps| - 1]), s.Items, s.CreatedAt)
  }

  predicate ImportantIn(items: seq<SnapshotItem>, k: string) {
    exists i :: 0 <= i < |items| && items[i].Important && items[i].Name == k
  }

  predicate CollectedIn(items: seq<SnapshotItem>, k: string) {
    exists i :: 0 <= i < |items| && items[i].Important && items[i].Collected && items[i].Name == k
  }

  /**
   * The reference definition: the creation time of the first snapshot, in
   * order, that shows `k` collected with a non-zero time; zero if none does.
   */
  function FirstTime(snaps: seq<Snapshot>, k: string): (t: Time)
    ensures t != Zero ==> exists j :: 0 <= j < |snaps| && CollectedIn(snaps[j].Items, k) && t == snaps[j].CreatedAt
  {
    if snaps == [] then Zero
    else
      var s := snaps[|snaps| - 1];
      var t := FirstTime(snaps[..|snaps| - 1], k);
      assert forall j :: 0 <= j < |snaps| - 1 ==> snaps[..|snaps| - 1][j] == snaps[j];
      if t != Zero then t else if CollectedIn(s.Items, k) then s.CreatedAt else Zero
  }

  /** One snapshot keeps every non-zero time and gives its own time to the items it first shows collected. */
  lemma {:induction false} RecordSnapshotTimes(m: map<string, Time>, items: seq<SnapshotItem>, at: Time)
    ensures forall k :: k in RecordSnapshot(m, items, at) <==> k in m || ImportantIn(items, k)
    ensures forall k :: k in RecordSnapshot(m, items, at) ==>
              RecordSnapshot(m, items, at)[k] ==
                if k in m && m[k] != Zero then m[k] else if CollectedIn(items, k) then at else Zero
    decreases |items|
  {
    if items != [] {
      var init := items[..|items| - 1];
      var it := items[|items| - 1];
      RecordSnapshotTimes(m, init, at);
      InSnoc(init, it);
      assert items == init + [it];
    } else {
      assert forall k :: !ImportantIn(items, k) && !CollectedIn(items, k);
    }
  }

  lemma InSnoc(init: seq<SnapshotItem>, it: SnapshotItem)
    ensures forall k :: ImportantIn(init + [it], k) <==> ImportantIn(init, k) || (it.Important && it.Name == k)
    ensures forall k :: CollectedIn(init + [it], k) <==> CollectedIn(init, k) || (it.Important && it.Collected && it.Name == k)
  {
    var items := init + [it];
    assert forall i :: 0 <= i < |init| ==> items[i] == init[i];
    assert items[|init|] == it;
  }

  /**
   * Folding snapshots records exactly the important items, each with the
   * time of the first snapshot that shows it collected: a non-zero time, once
   * written, is never overwritten.
   */
  lemma {:induction false} RecordAllIsFirst(snaps: seq<Snapshot>)
    ensures forall k :: k in RecordAll(snaps) <==> exists j :: 0 <= j < |snaps| && ImportantIn(snaps[j].Items, k)
    ensures forall k :: k in RecordAll(snaps) ==> RecordAll(snaps)[k] == FirstTime(snaps, k)
    decreases |snaps|
  {
    if snaps != [] {
      var init := snaps[..|snaps| - 1];
      var s := snaps[|snaps| - 1];
      RecordAllIsFirst(init);
      RecordSnapshotTimes(RecordAll(init), s.Items, s.CreatedAt);
      assert forall j :: 0 <= j < |init| ==> init[j] == snaps[j];
    }
  }

  /** Loading a round's snapshot files in order; the first that cannot be opened or decoded is the error. */
  function Snapshots(files: seq<string>, load: string -> Load): (r: Result<seq<Snapshot>, ScoreError>)
    ensures r.Success? ==> |r.value| == |files| && forall i :: 0 <= i < |files| ==> load(files[i]) == Loaded(r.value[i])
  {
    if files == [] then Success([])
    else
      var f := files[|files| - 1];
      var init := Snapshots(files[..|files| - 1], load);
      if init.Failure? then init
      else match load(f)
        case CannotOpen => Failure(OpenFailed(f))
        case CannotDecode => Failure(DecodeFailed(f))
        case Loaded(s) => Success(init.value + [s])
  }

  /** The `collectedAt` map of a round, or the error that stopped it. */
  function CollectTimes(files: seq<string>, load: string -> Load): Result<map<string, Time>, ScoreError> {
    match Snapshots(files, load)
    case Failure(e) => Failure(e)
    case Success(snaps) => Success(RecordAll(snaps))
  }

  lemma {:induction false} SnapshotsFailureSticks(files: seq<string>, load: string -> Load, k: nat)
    requires k <= |files| && Snapshots(files[..k], load).Failure?
    ensures Snapshots(files, load) == Snapshots(files[..k], load)
    decreases |files| - k
  {
    if k < |files| {
      assert files[..k + 1][..k] == files[..k];
      SnapshotsFailureSticks(files, load, k + 1);
    } else {
      assert files[..k] == files;
    }
  }

  /** The snapshot loop of one round of `getScoreboard`. */
  method CollectRound(files: seq<string>, load: string -> Load) returns (r: Result<map<string, Time>, ScoreError>)
    ensures r == CollectTimes(files, load)
  {
    var collectedAt: map<string, Time> := map[];
    ghost var snaps: seq<Snapshot> := [];
    var i := 0;
    while i < |files|
      invariant 0 <= i <= |files|
      invariant Snapshots(files[..i], load) == Success(snaps)
      invariant collectedAt == RecordAll(snaps)
    {
      var f := files[i];
      assert files[..i + 1][..i] == files[..i];
      match load(f)
      case CannotOpen =>
        SnapshotsFailureSticks(files, load, i + 1);
        return Failure(OpenFailed(f));
      case CannotDecode =>
        SnapshotsFailureSticks(files, load, i + 1);
        return Failure(DecodeFailed(f));
      case Loaded(e) =>
        collectedAt := RecordItems(collectedAt, e.Items, e.CreatedAt);
        assert (snaps + [e])[..|snaps|] == snaps;
        snaps := snaps + [e];
        i := i + 1;
    }
    assert files[..i] == files;
    r := Success(collectedAt);
  }

  /** The item loop over one decoded snapshot. */
  method RecordItems(m: map<string, Time>, items: seq<SnapshotItem>, at: Time) returns (collectedAt: map<string, Time>)
    ensures collectedAt == RecordSnapshot(m, items, at)
  {
    collectedAt := m;
    var j := 0;
    while j < |items|
      invariant 0 <= j <= |items|
      invariant collectedAt == RecordSnapshot(m, items[..j], at)
    {
      var it := items[j];
      assert items[..j + 1][..j] == items[..j];
      ghost var prev := collectedAt;
      if it.Important {
        if it.Name !in collectedAt {
          collectedAt := collectedAt[it.Name := Zero];
        }
        if it.Collected && collectedAt[it.Name] == Zero {
          collectedAt := collectedAt[it.Name := at];
        }
      }
      assert collectedAt == Record(prev, it, at);
      j := j + 1;
    }
    assert items[..j] == items;
  }

  // ---- A round's items ---------------------------------------------------------

  /** How the item loop shows an entry of `collectedAt` (a missing entry reads as zero). */
  function ItemOf(m: map<string, Time>, k: string): Item {
    var t := if k in m then m[k] else Zero;
    Item(k, t != Zero, t)
  }

  function ItemsFor(m: map<string, Time>, ks: seq<string>): (items: seq<Item>)
    ensures |items| == |ks| && forall i :: 0 <= i < |ks| ==> items[i] == ItemOf(m, ks[i])
  {
    if ks == [] then [] else [ItemOf(m, ks[0])] + ItemsFor(m, ks[1..])
  }

  /** The order `slices.SortFunc` is given: `strings.Compare` on the names. */
  predicate ItemLe(a: Item, b: Item) {
    Sorting.StringLe(a.Name, b.Name)
  }

  /** Every non-empty set of strings has a least element. */
  lemma {:induction false} LeastExists(s: set<string>)
    requires s != {}
    ensures exists k :: k in s && forall j :: j in s ==> Sorting.StringLe(k, j)
    decreases |s|
  {
    var x :| x in s;
    Sorting.StringLeTotal(x, x);
    if s - {x} == {} {
      assert s == {x};
    } else {
      LeastExists(s - {x});
      var y :| y in s - {x} && forall j :: j in s - {x} ==> Sorting.StringLe(y, j);
      Sorting.StringLeTotal(x, y);
      if Sorting.StringLe(x, y) {
        forall j | j in s ensures Sorting.StringLe(x, j) {
          if j != x { Sorting.StringLeTransitive(x, y, j); }
        }
      } else {
        assert Sorting.StringLe(y, x);
      }
    }
  }

  /** The keys of `collectedAt` in name order, each once. */
  ghost function SortedKeys(s: set<string>): (ks: seq<string>)
    ensures Sorting.SortedBy(ks, Sorting.StringLe)
    ensures forall x :: multiset(ks)[x] == if x in s then 1 else 0
    decreases |s|
  {
    if s == {} then []
    else
      LeastExists(s);
      var k :| k in s && forall j :: j in s ==> Sorting.StringLe(k, j);
      var rest := SortedKeys(s - {k});
      ConsKey(k, rest, s);
      Sorting.ConsSorted(k, rest, Sorting.StringLe);
      [k] + rest
  }

  lemma ConsKey(k: string, rest: seq<string>, s: set<string>)
    requires k in s && forall x :: multiset(rest)[x] == if x in s - {k} then 1 else 0
    ensures forall i :: 0 <= i < |rest| ==> rest[i] in s - {k}
    ensures forall x :: multiset([k] + rest)[x] == if x in s then 1 else 0
  {
    assert forall i :: 0 <= i < |rest| ==> rest[i] in multiset(rest);
    assert multiset([k] + rest) == multiset{k} + multiset(rest);
  }

  /**
   * A round's items, as `getScoreboard` lists them: one per entry of
   * `collectedAt`, collected iff its time is non-zero, sorted by name.
   */
  ghost function LevelItems(m: map<string, Time>): seq<Item> {
    ItemsFor(m, SortedKeys(m.Keys))
  }

  /** A round's items are sorted by name and are exactly the entries of `collectedAt`. */
  lemma LevelItemsListed(m: map<string, Time>)
    ensures Sorting.SortedBy(LevelItems(m), ItemLe)
    ensures forall i :: 0 <= i < |LevelItems(m)| ==> LevelItems(m)[i].Name in m && LevelItems(m)[i] == ItemOf(m, LevelItems(m)[i].Name)
    ensures forall k :: k in m <==> exists i :: 0 <= i < |LevelItems(m)| && LevelItems(m)[i].Name == k
  {
    var ks := SortedKeys(m.Keys);
    var items := ItemsFor(m, ks);
    forall i, j | 0 <= i < j < |items| ensures ItemLe(items[i], items[j]) {
      assert Sorting.StringLe(ks[i], ks[j]);
    }
    forall i | 0 <= i < |items| ensures items[i].Name in m {
      assert ks[i] in multiset(ks);
    }
    forall k | k in m ensures exists i :: 0 <= i < |items| && items[i].Name == k {
      assert k in multiset(ks);
      var i :| 0 <= i < |ks| && ks[i] == k;
      assert items[i].Name == k;
    }
  }

  /** The number of items of a round with a non-zero time. */
  function Count(m: map<string, Time>): nat {
    CountIn(m, m.Keys)
  }

  /** `t` is what the `ct.After(lastCollectedAt)` loop leaves after visiting the keys in `s`. */
  ghost predicate IsLatestIn(m: map<string, Time>, s: set<string>, t: Time)
    requires s <= m.Keys
  {
    t >= Zero && (forall k :: k in s ==> m[k] <= t) && (t == Zero || exists k :: k in s && m[k] == t)
  }

  /** The latest collection time of a round, or zero. */
  ghost function Latest(m: map<string, Time>, s: set<string>): (t: Time)
    requires s <= m.Keys
    ensures IsLatestIn(m, s, t)
    decreases |s|
  {
    if s == {} then Zero
    else
      var k :| k in s;
      var t := Latest(m, s - {k});
      if m[k] > t then m[k] else t
  }

  lemma LatestUnique(m: map<string, Time>, s: set<string>, t: Time, u: Time)
    requires s <= m.Keys && IsLatestIn(m, s, t) && IsLatestIn(m, s, u)
    ensures t == u
  {
  }

  lemma {:induction false} InsertItem(m: map<string, Time>, x: string, ks: seq<string>)
    ensures Sorting.Insert(ItemOf(m, x), ItemsFor(m, ks), ItemLe) == ItemsFor(m, Sorting.Insert(x, ks, Sorting.StringLe))
    decreases |ks|
  {
    if ks != [] && !Sorting.StringLe(x, ks[0]) {
      InsertItem(m, x, ks[1..]);
      assert ItemsFor(m, ks) == [ItemOf(m, ks[0])] + ItemsFor(m, ks[1..]);
    }
  }

  /** Sorting the items by name is sorting the names. */
  lemma {:induction false} SortItems(m: map<string, Time>, ks: seq<string>)
    ensures Sorting.InsertionSort(ItemsFor(m, ks), ItemLe) == ItemsFor(m, Sorting.InsertionSort(ks, Sorting.StringLe))
    decreases |ks|
  {
    if ks != [] {
      SortItems(m, ks[1..]);
      assert ItemsFor(m, ks) == [ItemOf(m, ks[0])] + ItemsFor(m, ks[1..]);
      InsertItem(m, ks[0], Sorting.InsertionSort(ks[1..], Sorting.StringLe));
    }
  }

  /**
   * The `range collectedAt` loop, in whatever order the map yields its keys,
   * followed by the sort by name: the items, the score and the latest time of
   * the round.
   */
  method Summarise(m: map<string, Time>) returns (items: seq<Item>, score: nat, last: Time)
    ensures items == LevelItems(m)
    ensures score == Count(m)
    ensures last == Latest(m, m.Keys)
  {
    var unsorted;
    ghost var ks;
    unsorted, score, last, ks := VisitKeys(m);
    items := Sorting.InsertionSort(unsorted, ItemLe);
    SortedNames(m, ks);
    LatestUnique(m, m.Keys, last, Latest(m, m.Keys));
  }

  /** The `range collectedAt` loop itself, visiting the keys in an arbitrary order `ks`. */
  method VisitKeys(m: map<string, Time>) returns (unsorted: seq<Item>, score: nat, last: Time, ghost ks: seq<string>)
    ensures forall x :: multiset(ks)[x] == if x in m.Keys then 1 else 0
    ensures unsorted == ItemsFor(m, ks)
    ensures score == CountIn(m, m.Keys)
    ensures IsLatestIn(m, m.Keys, last)
  {
    var remaining := m.Keys;
    ghost var done: set<string> := {};
    unsorted, ks := [], [];
    score, last := 0, Zero;
    while remaining != {}
      invariant done !! remaining && done + remaining == m.Keys
      invariant forall x :: multiset(ks)[x] == if x in done then 1 else 0
      invariant unsorted == ItemsFor(m, ks)
      invariant score == CountIn(m, done)
      invariant IsLatestIn(m, done, last)
      decreases |remaining|
    {
      var k :| k in remaining;
      var ct := m[k];
      CountStep(m, done, k);
      KeyStep(ks, k, done);
      ItemsForSnoc(m, ks, k);
      LatestStep(m, done, k, last);
      MoveKey(done, remaining, k);
      unsorted := unsorted + [ItemOf(m, k)];
      ks := ks + [k];
      if ct != Zero {
        score := score + 1;
      }
      if ct > last {
        last := ct;
      }
      remaining := remaining - {k};
      done := done + {k};
    }
    assert done == m.Keys;
  }

  /** The number of keys in `s` with a non-zero time. */
  function CountIn(m: map<string, Time>, s: set<string>): nat
    requires s <= m.Keys
  {
    |set k | k in s && m[k] != Zero|
  }

  lemma CountStep(m: map<string, Time>, done: set<string>, k: string)
    requires done <= m.Keys && k in m && k !in done
    ensures CountIn(m, done + {k}) == CountIn(m, done) + if m[k] != Zero then 1 else 0
  {
    assert (set j | j in done + {k} && m[j] != Zero) ==
           (set j | j in done && m[j] != Zero) + (if m[k] != Zero then {k} else {});
  }

  lemma {:induction false} ItemsForSnoc(m: map<string, Time>, ks: seq<string>, k: string)
    ensures ItemsFor(m, ks + [k]) == ItemsFor(m, ks) + [ItemOf(m, k)]
  {
    assert |ItemsFor(m, ks + [k])| == |ks| + 1;
  }

  lemma LatestStep(m: map<string, Time>, done: set<string>, k: string, t: Time)
    requires done <= m.Keys && k in m && IsLatestIn(m, done, t)
    ensures IsLatestIn(m, done + {k}, if m[k] > t then m[k] else t)
  {
  }

  lemma MoveKey(done: set<string>, remaining: set<string>, k: string)
    requires done !! remaining && k in remaining
    ensures (done + {k}) !! (remaining - {k}) && (done + {k}) + (remaining - {k}) == done + remaining
    ensures |remaining - {k}| < |remaining|
  {
  }

  lemma KeyStep(ks: seq<string>, k: string, done: set<string>)
    requires k !in done
    requires forall x :: multiset(ks)[x] == if x in done then 1 else 0
    ensures forall x :: multiset(ks + [k])[x] == if x in done + {k} then 1 else 0
  {
    assert multiset(ks + [k]) == multiset(ks) + multiset{k};
  }

  /** Sorting the keys in any visiting order gives the keys in name order. */
  lemma SortedNames(m: map<string, Time>, ks: seq<string>)
    requires forall x :: multiset(ks)[x] == if x in m.Keys then 1 else 0
    ensures Sorting.InsertionSort(ItemsFor(m, ks), ItemLe) == ItemsFor(m, SortedKeys(m.Keys))
  {
    SortItems(m, ks);
    var keys := SortedKeys(m.Keys);
    SameKeys(ks, keys, m.Keys);
    Sorting.SortedStringsUnique(Sorting.SortStrings(ks), keys);
  }

  lemma SameKeys(a: seq<string>, b: seq<string>, s: set<string>)
    requires forall x :: multiset(a)[x] == if x in s then 1 else 0
    requires forall x :: multiset(b)[x] == if x in s then 1 else 0
    ensures multiset(a) == multiset(b)
  {
    assert forall x :: multiset(a)[x] == multiset(b)[x];
  }

  // ---- A team's totals -------------------------------------------------------------

  /** What the round loop has accumulated for a team. */
  datatype Totals = Totals(Score: nat, TotalTime: Duration, UpdatedAt: Time, Levels: seq<LevelScore>)

  /** One round with snapshots, summarised by `m`, added to the totals. */
  ghost function AddRound(t: Totals, r: Round, m: map<string, Time>): Totals {
    AddSummary(t, r, LevelItems(m), Count(m), Latest(m, m.Keys))
  }

  /** The totals after a round whose items are `items`, `score` of them collected, the latest at `last`. */
  function AddSummary(t: Totals, r: Round, items: seq<Item>, score: nat, last: Time): Totals {
    Totals(t.Score + score, AddDuration(t.TotalTime, Sub(last, r.Start)),
           if last > t.UpdatedAt then last else t.UpdatedAt,
           t.Levels + [LevelScore(r.Level, items)])
  }

  /**
   * The round loop of `getScoreboard` for a team with snapshot files
   * `files`: rounds without snapshots are skipped, and the first snapshot
   * that cannot be loaded is the error.
   */
  ghost function RoundsFold(files: seq<string>, rounds: seq<Round>, load: string -> Load): Result<Totals, ScoreError> {
    if rounds == [] then Success(Totals(0, 0, Zero, []))
    else
      var init := RoundsFold(files, rounds[..|rounds| - 1], load);
      var r := rounds[|rounds| - 1];
      var lf := LevelFiles(files, r.Level);
      if init.Failure? || lf == [] then init
      else match CollectTimes(lf, load)
        case Failure(e) => Failure(e)
        case Success(m) => Success(AddRound(init.value, r, m))
  }

  lemma {:induction false} RoundsFoldFailureSticks(files: seq<string>, rounds: seq<Round>, load: string -> Load, k: nat)
    requires k <= |rounds| && RoundsFold(files, rounds[..k], load).Failure?
    ensures RoundsFold(files, rounds, load) == RoundsFold(files, rounds[..k], load)
    decreases |rounds| - k
  {
    if k < |rounds| {
      assert rounds[..k + 1][..k] == rounds[..k];
      RoundsFoldFailureSticks(files, rounds, load, k + 1);
    } else {
      assert rounds[..k] == rounds;
    }
  }

  lemma AddRoundIs(t: Totals, r: Round, m: map<string, Time>, items: seq<Item>, score: nat, last: Time)
    requires items == LevelItems(m) && score == Count(m) && last == Latest(m, m.Keys)
    ensures AddRound(t, r, m) == Totals(t.Score + score, AddDuration(t.TotalTime, Sub(last, r.Start)),
                                        if last > t.UpdatedAt then last else t.UpdatedAt,
                                        t.Levels + [LevelScore(r.Level, items)])
  {
  }

  /** How one more round changes the fold. */
  lemma RoundStep(files: seq<string>, rounds: seq<Round>, load: string -> Load, i: nat)
    requires i < |rounds| && RoundsFold(files, rounds[..i], load).Success?
    ensures var lf := LevelFiles(files, rounds[i].Level);
      RoundsFold(files, rounds[..i + 1], load) ==
        if lf == [] then RoundsFold(files, rounds[..i], load)
        else match CollectTimes(lf, load)
          case Failure(e) => Failure(e)
          case Success(m) => Success(AddRound(RoundsFold(files, rounds[..i], load).value, rounds[i], m))
  {
    assert rounds[..i + 1][..i] == rounds[..i];
  }

  /** A team's row of the scoreboard, or the error that stops `getScoreboard`. */
  ghost function TeamSpec(team: Team, rounds: seq<Round>, load: string -> Load): Result<TeamScore, ScoreError> {
    match TeamFiles(team.Dirs)
    case Failure(e) => Failure(e)
    case Success(files) =>
      match RoundsFold(files, rounds, load)
      case Failure(e) => Failure(e)
      case Success(t) => Success(TeamScore(team.Name, t.Score, t.TotalTime, t.UpdatedAt, t.Levels))
  }

  /** All teams' rows in configuration order; the first team that fails is the error. */
  ghost function TeamsSpec(teams: seq<Team>, rounds: seq<Round>, load: string -> Load): Result<seq<TeamScore>, ScoreError> {
    if teams == [] then Success([])
    else
      var init := TeamsSpec(teams[..|teams| - 1], rounds, load);
      if init.Failure? then init
      else match TeamSpec(teams[|teams| - 1], rounds, load)
        case Failure(e) => Failure(e)
        case Success(s) => Success(init.value + [s])
  }

  lemma {:induction false} TeamsSpecFailureSticks(teams: seq<Team>, rounds: seq<Round>, load: string -> Load, k: nat)
    requires k <= |teams| && TeamsSpec(teams[..k], rounds, load).Failure?
    ensures TeamsSpec(teams, rounds, load) == TeamsSpec(teams[..k], rounds, load)
    decreases |teams| - k
  {
    if k < |teams| {
      assert teams[..k + 1][..k] == teams[..k];
      TeamsSpecFailureSticks(teams, rounds, load, k + 1);
    } else {
      assert teams[..k] == teams;
    }
  }

  /** The body of the round loop for a round with snapshots: they are loaded, then added to the totals. */
  method AddPlayedRound(totalScore: nat, totalTime: Duration, lastUpdated: Time, levels: seq<LevelScore>,
                        round: Round, levelSnapshots: seq<string>, load: string -> Load)
    returns (r: Result<Totals, ScoreError>)
    ensures r == match CollectTimes(levelSnapshots, load)
                 case Failure(e) => Failure(e)
                 case Success(m) => Success(AddRound(Totals(totalScore, totalTime, lastUpdated, levels), round, m))
  {
    var collected := CollectRound(levelSnapshots, load);
    if collected.Failure? {
      return Failure(collected.error);
    }
    var items, score, lastCollectedAt := Summarise(collected.value);
    var before := Totals(totalScore, totalTime, lastUpdated, levels);
    r := Success(AddSummary(before, round, items, score, lastCollectedAt));
  }

  /** The body of the team loop of `getScoreboard`. */
  method TeamScoreOf(team: Team, rounds: seq<Round>, load: string -> Load) returns (r: Result<TeamScore, ScoreError>)
    ensures r == TeamSpec(team, rounds, load)
  {
    var listing := ListSnapshots(team.Dirs);
    if listing.Failure? {
      return Failure(listing.error);
    }
    var files := listing.value;
    var totalScore: nat, lastUpdated: Time, totalTime: Duration := 0, Zero, 0;
    var levels: seq<LevelScore> := [];
    var i := 0;
    while i < |rounds|
      invariant 0 <= i <= |rounds|
      invariant RoundsFold(files, rounds[..i], load) == Success(Totals(totalScore, totalTime, lastUpdated, levels))
    {
      var round := rounds[i];
      var levelSnapshots := LevelFiles(files, round.Level);
      RoundStep(files, rounds, load, i);
      if |levelSnapshots| != 0 {
        var next := AddPlayedRound(totalScore, totalTime, lastUpdated, levels, round, levelSnapshots, load);
        if next.Failure? {
          RoundsFoldFailureSticks(files, rounds, load, i + 1);
          return Failure(next.error);
        }
        totalScore, totalTime, lastUpdated, levels := next.value.Score, next.value.TotalTime, next.value.UpdatedAt, next.value.Levels;
      }
      i := i + 1;
    }
    assert rounds[..i] == rounds;
    r := Success(TeamScore(team.Name, totalScore, totalTime, lastUpdated, levels));
  }

  // ---- The ranking ---------------------------------------------------------------

  /** The comparison given to `slices.SortFunc`: more points first, then less time in milliseconds. */
  function TeamCompare(a: TeamScore, b: TeamScore): int {
    if a.Score == b.Score then Milliseconds(a.TotalTime) - Milliseconds(b.TotalTime)
    else b.Score - a.Score
  }

  predicate TeamLe(a: TeamScore, b: TeamScore) {
    TeamCompare(a, b) <= 0
  }

  /** The comparison orders the teams totally: ranking by it is well defined up to ties. */
  lemma TeamOrder()
    ensures Sorting.TotalPreorder(TeamLe)
  {
    forall a: TeamScore, b: TeamScore ensures TeamLe(a, b) || TeamLe(b, a) {
    }
    forall a: TeamScore, b: TeamScore, c: TeamScore | TeamLe(a, b) && TeamLe(b, c) ensures TeamLe(a, c) {
    }
  }

  /**
   * `getScoreboard`: every team's row, ranked; the first failure ends it.
   * The ranking is the rows in an order sorted by `TeamCompare` (the sort
   * is not stable, so the order of tied teams is not fixed).
   */
  method GetScoreboard(teams: seq<Team>, rounds: seq<Round>, load: string -> Load)
    returns (r: Result<seq<TeamScore>, ScoreError>)
    ensures r.Failure? <==> TeamsSpec(teams, rounds, load).Failure?
    ensures r.Failure? ==> r == TeamsSpec(teams, rounds, load)
    ensures r.Success? ==> multiset(r.value) == multiset(TeamsSpec(teams, rounds, load).value)
    ensures r.Success? ==> Sorting.SortedBy(r.value, TeamLe)
  {
    var scores: seq<TeamScore> := [];
    var i := 0;
    while i < |teams|
      invariant 0 <= i <= |teams|
      invariant TeamsSpec(teams[..i], rounds, load) == Success(scores)
    {
      assert teams[..i + 1][..i] == teams[..i];
      var ts := TeamScoreOf(teams[i], rounds, load);
      if ts.Failure? {
        TeamsSpecFailureSticks(teams, rounds, load, i + 1);
        return Failure(ts.error);
      }
      scores := scores + [ts.value];
      i := i + 1;
    }
    assert teams[..i] == teams;
    TeamOrder();
    Sorting.InsertionSortSorted(scores, TeamLe);
    r := Success(Sorting.InsertionSort(scores, TeamLe));
  }

  /** A ranking sorted by `TeamCompare` lists the scores from the highest down. */
  lemma RankedByScore(s: seq<TeamScore>)
    requires Sorting.SortedBy(s, TeamLe)
    ensures forall i, j :: 0 <= i < j < |s| ==> s[i].Score >= s[j].Score
    ensures forall i, j :: 0 <= i < j < |s| && s[i].Score == s[j].Score ==>
              Milliseconds(s[i].TotalTime) <= Milliseconds(s[j].TotalTime)
  {
    forall i, j | 0 <= i < j < |s| ensures s[i].Score >= s[j].Score {
      assert TeamLe(s[i], s[j]);
    }
  }

  // ---- Properties of a team's row ---------------------------------------------------

  /** The levels of the rounds for which the team has snapshots, in round order. */
  ghost function PlayedLevels(files: seq<string>, rounds: seq<Round>): seq<string> {
    if rounds == [] then []
    else
      var r := rounds[|rounds| - 1];
      PlayedLevels(files, rounds[..|rounds| - 1]) + if LevelFiles(files, r.Level) == [] then [] else [r.Level]
  }

  function LevelNames(levels: seq<LevelScore>): (names: seq<string>)
    ensures |names| == |levels| && forall i :: 0 <= i < |levels| ==> names[i] == levels[i].Level
  {
    if levels == [] then [] else LevelNames(levels[..|levels| - 1]) + [levels[|levels| - 1].Level]
  }

  /** A team's board shows one level per round it has snapshots for, in round order. */
  lemma {:induction false} RoundsShown(files: seq<string>, rounds: seq<Round>, load: string -> Load)
    requires RoundsFold(files, rounds, load).Success?
    ensures LevelNames(RoundsFold(files, rounds, load).value.Levels) == PlayedLevels(files, rounds)
    decreases |rounds|
  {
    if rounds != [] {
      var init := rounds[..|rounds| - 1];
      RoundsShown(files, init, load);
      var r := rounds[|rounds| - 1];
      if LevelFiles(files, r.Level) != [] {
        var m := CollectTimes(LevelFiles(files, r.Level), load).value;
        var levels := RoundsFold(files, init, load).value.Levels;
        assert (levels + [LevelScore(r.Level, LevelItems(m))])[..|levels|] == levels;
      }
    }
  }

  /** Every time shown for a round is at most its latest time, which is zero or some collected item's time. */
  lemma LatestShown(m: map<string, Time>)
    ensures forall i :: 0 <= i < |LevelItems(m)| ==> LevelItems(m)[i].CollectedAt <= Latest(m, m.Keys)
    ensures Latest(m, m.Keys) == Zero ||
            exists i :: 0 <= i < |LevelItems(m)| && LevelItems(m)[i].Collected && LevelItems(m)[i].CollectedAt == Latest(m, m.Keys)
  {
    var items := LevelItems(m);
    var last := Latest(m, m.Keys);
    LevelItemsListed(m);
    if last != Zero {
      var k :| k in m && m[k] == last;
      var i :| 0 <= i < |items| && items[i].Name == k;
      assert items[i] == ItemOf(m, k);
    }
  }

  ghost predicate NoneLater(levels: seq<LevelScore>, t: Time) {
    forall l, i :: 0 <= l < |levels| && 0 <= i < |levels[l].Items| ==> levels[l].Items[i].CollectedAt <= t
  }

  ghost predicate SomeAt(levels: seq<LevelScore>, t: Time) {
    exists l, i :: 0 <= l < |levels| && 0 <= i < |levels[l].Items| &&
                   levels[l].Items[i].Collected && levels[l].Items[i].CollectedAt == t
  }

  /**
   * `UpdatedAt` is the latest collection time shown on the team's board, or
   * zero when nothing is collected.
   */
  lemma {:induction false} UpdatedAtIsLatest(files: seq<string>, rounds: seq<Round>, load: string -> Load)
    requires RoundsFold(files, rounds, load).Success?
    ensures var t := RoundsFold(files, rounds, load).value;
      t.UpdatedAt >= Zero && NoneLater(t.Levels, t.UpdatedAt) && (t.UpdatedAt == Zero || SomeAt(t.Levels, t.UpdatedAt))
    decreases |rounds|
  {
    if rounds != [] {
      var init := rounds[..|rounds| - 1];
      UpdatedAtIsLatest(files, init, load);
      var r := rounds[|rounds| - 1];
      if LevelFiles(files, r.Level) != [] {
        var m := CollectTimes(LevelFiles(files, r.Level), load).value;
        var t0 := RoundsFold(files, init, load).value;
        LatestShown(m);
        AddRoundShown(t0, r, m);
      }
    }
  }

  lemma AddRoundShown(t: Totals, r: Round, m: map<string, Time>)
    requires t.UpdatedAt >= Zero && NoneLater(t.Levels, t.UpdatedAt) && (t.UpdatedAt == Zero || SomeAt(t.Levels, t.UpdatedAt))
    requires forall i :: 0 <= i < |LevelItems(m)| ==> LevelItems(m)[i].CollectedAt <= Latest(m, m.Keys)
    requires Latest(m, m.Keys) == Zero ||
             exists i :: 0 <= i < |LevelItems(m)| && LevelItems(m)[i].Collected && LevelItems(m)[i].CollectedAt == Latest(m, m.Keys)
    ensures var u := AddRound(t, r, m);
      u.UpdatedAt >= Zero && NoneLater(u.Levels, u.UpdatedAt) && (u.UpdatedAt == Zero || SomeAt(u.Levels, u.UpdatedAt))
  {
    ShownSnoc(t.Levels, t.UpdatedAt, LevelScore(r.Level, LevelItems(m)), Latest(m, m.Keys));
  }

  /** Appending a level whose times are at most `last`, which is zero or shown collected. */
  lemma ShownSnoc(levels: seq<LevelScore>, t: Time, lv: LevelScore, last: Time)
    requires t >= Zero && NoneLater(levels, t) && (t == Zero || SomeAt(levels, t))
    requires forall i :: 0 <= i < |lv.Items| ==> lv.Items[i].CollectedAt <= last
    requires last == Zero || exists i :: 0 <= i < |lv.Items| && lv.Items[i].Collected && lv.Items[i].CollectedAt == last
    ensures var u := if last > t then last else t;
      NoneLater(levels + [lv], u) && (u == Zero || SomeAt(levels + [lv], u))
  {
    var all := levels + [lv];
    var n := |levels|;
    assert forall l :: 0 <= l < n ==> all[l] == levels[l];
    assert all[n] == lv;
    var u := if last > t then last else t;
    if u != Zero {
      if u == t {
        var l, i :| 0 <= l < n && 0 <= i < |levels[l].Items| &&
                    levels[l].Items[i].Collected && levels[l].Items[i].CollectedAt == t;
        assert all[l] == levels[l];
      } else {
        var i :| 0 <= i < |lv.Items| && lv.Items[i].Collected && lv.Items[i].CollectedAt == last;
        assert all[n].Items[i] == lv.Items[i];
      }
    }
  }

  /** The number of collected items in a list. */
  function CollectedCount(items: seq<Item>): (n: nat)
    ensures n <= |items|
  {
    if items == [] then 0 else (if items[0].Collected then 1 else 0) + CollectedCount(items[1..])
  }

  /** The collected items shown over all levels. */
  function Shown(levels: seq<LevelScore>): nat {
    if levels == [] then 0 else Shown(levels[..|levels| - 1]) + CollectedCount(levels[|levels| - 1].Items)
  }

  /** Listing each key once, the collected items are the keys with a non-zero time. */
  lemma {:induction false} CountItems(m: map<string, Time>, ks: seq<string>, s: set<string>)
    requires s <= m.Keys
    requires forall x :: multiset(ks)[x] == if x in s then 1 else 0
    ensures CollectedCount(ItemsFor(m, ks)) == CountIn(m, s)
    decreases |ks|
  {
    if ks == [] {
      assert forall x :: x !in s by {
        forall x ensures x !in s {
          assert multiset(ks)[x] == 0;
        }
      }
      assert s == {};
    } else {
      var k := ks[0];
      assert ks == [k] + ks[1..];
      assert multiset(ks) == multiset{k} + multiset(ks[1..]);
      assert k in multiset(ks);
      var rest := s - {k};
      assert forall x :: multiset(ks[1..])[x] == if x in rest then 1 else 0;
      CountItems(m, ks[1..], rest);
      CountStep(m, rest, k);
      assert rest + {k} == s;
    }
  }

  /** A team's score is the number of collected items its board shows. */
  lemma {:induction false} ScoreIsShown(files: seq<string>, rounds: seq<Round>, load: string -> Load)
    requires RoundsFold(files, rounds, load).Success?
    ensures RoundsFold(files, rounds, load).value.Score == Shown(RoundsFold(files, rounds, load).value.Levels)
    decreases |rounds|
  {
    if rounds != [] {
      var init := rounds[..|rounds| - 1];
      ScoreIsShown(files, init, load);
      var r := rounds[|rounds| - 1];
      if LevelFiles(files, r.Level) != [] {
        var m := CollectTimes(LevelFiles(files, r.Level), load).value;
        var levels := RoundsFold(files, init, load).value.Levels;
        CountItems(m, SortedKeys(m.Keys), m.Keys);
        assert (levels + [LevelScore(r.Level, LevelItems(m))])[..|levels|] == levels;
      }
    }
  }

  /**
   * A round with snapshots but nothing collected has a latest time of zero,
   * so it adds `time.Time{}.Sub(start)` to the total: for any start more
   * than 292 years after Go's zero time that is the most negative Duration.
   */
  lemma NothingCollectedTime(t: Totals, r: Round, m: map<string, Time>)
    requires Count(m) == 0 && r.Start > MaxDuration && t.UpdatedAt >= Zero
    ensures AddRound(t, r, m).TotalTime == AddDuration(t.TotalTime, MinDuration)
    ensures AddRound(t, r, m).Score == t.Score && AddRound(t, r, m).UpdatedAt == t.UpdatedAt
  {
    var last := Latest(m, m.Keys);
    if last != Zero {
      assert false;
    }
    assert Sub(last, r.Start) == MinDuration;
  }

  // ---- Properties of the whole board ------------------------------------------------

  /**
   * The board fails exactly when some team's row fails, and then with the
   * first such team's error; otherwise it has one row per team, in order.
   */
  lemma {:induction false} TeamsSpecRows(teams: seq<Team>, rounds: seq<Round>, load: string -> Load)
    ensures TeamsSpec(teams, rounds, load).Failure? <==>
              exists i :: 0 <= i < |teams| && TeamSpec(teams[i], rounds, load).Failure?
    ensures TeamsSpec(teams, rounds, load).Failure? ==>
              exists i :: 0 <= i < |teams| && TeamSpec(teams[i], rounds, load).Failure? &&
                          TeamsSpec(teams, rounds, load).error == TeamSpec(teams[i], rounds, load).error &&
                          forall j :: 0 <= j < i ==> TeamSpec(teams[j], rounds, load).Success?
    ensures TeamsSpec(teams, rounds, load).Success? ==>
              |TeamsSpec(teams, rounds, load).value| == |teams| &&
              forall i :: 0 <= i < |teams| ==> TeamsSpec(teams, rounds, load).value[i] == TeamSpec(teams[i], rounds, load).value
    decreases |teams|
  {
    TeamsSpecIsFirstFailure(teams, rounds, load);
    FirstFailureRows(TeamRows(teams, rounds, load));
  }

  /** Each team's row or error, in configuration order. */
  ghost function TeamRows(teams: seq<Team>, rounds: seq<Round>, load: string -> Load): (rows: seq<Result<TeamScore, ScoreError>>)
    ensures |rows| == |teams| && forall i :: 0 <= i < |teams| ==> rows[i] == TeamSpec(teams[i], rounds, load)
  {
    seq(|teams|, i requires 0 <= i < |teams| => TeamSpec(teams[i], rounds, load))
  }

  /** The values of `rows` in order, or the error of the first row that failed. */
  function FirstFailure(rows: seq<Result<TeamScore, ScoreError>>): Result<seq<TeamScore>, ScoreError> {
    if rows == [] then Success([])
    else
      var init := FirstFailure(rows[..|rows| - 1]);
      if init.Failure? then init
      else match rows[|rows| - 1]
        case Failure(e) => Failure(e)
        case Success(s) => Success(init.value + [s])
  }

  /** The team loop is `FirstFailure` of the teams' rows. */
  lemma {:induction false} TeamsSpecIsFirstFailure(teams: seq<Team>, rounds: seq<Round>, load: string -> Load)
    ensures TeamsSpec(teams, rounds, load) == FirstFailure(TeamRows(teams, rounds, load))
    decreases |teams|
  {
    if teams != [] {
      var init := teams[..|teams| - 1];
      TeamsSpecIsFirstFailure(init, rounds, load);
      assert TeamRows(teams, rounds, load)[..|teams| - 1] == TeamRows(init, rounds, load);
    }
  }

  /**
   * `FirstFailure` fails exactly when some row does, and then with the
   * first failing row's error; otherwise it holds every row's value, in order.
   */
  lemma {:induction false} FirstFailureRows(rows: seq<Result<TeamScore, ScoreError>>)
    ensures FirstFailure(rows).Failure? <==> exists i :: 0 <= i < |rows| && rows[i].Failure?
    ensures FirstFailure(rows).Failure? ==>
              exists i :: 0 <= i < |rows| && rows[i].Failure? && FirstFailure(rows).error == rows[i].error &&
                          forall j :: 0 <= j < i ==> rows[j].Success?
    ensures FirstFailure(rows).Success? ==>
              |FirstFailure(rows).value| == |rows| &&
              forall i :: 0 <= i < |rows| ==> FirstFailure(rows).value[i] == rows[i].value
    decreases |rows|
  {
    if rows != [] {
      var init := rows[..|rows| - 1];
      var last := |rows| - 1;
      FirstFailureRows(init);
      assert forall i :: 0 <= i < |init| ==> init[i] == rows[i];
      var before := FirstFailure(init);
      if before.Failure? {
        var i :| 0 <= i < |init| && init[i].Failure? && before.error == init[i].error &&
                 forall j :: 0 <= j < i ==> init[j].Success?;
        assert rows[i].Failure?;
      } else if rows[last].Failure? {
        assert forall j :: 0 <= j < last ==> rows[j].Success?;
      } else {
        assert forall i :: 0 <= i < |rows| ==> rows[i].Success?;
      }
    }
  }

}
