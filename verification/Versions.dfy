/** Publishing versions of a library or of a constraint set. A publisher takes a snapshot, reads the
    latest version and later inserts latest + 1; other requests may run between any two of these
    steps, and the unique constraint on (key, version) is the only guard. A key is a workspace for
    the libraries and a constraint-set id for constraint sets. */
module Versions {
  datatype Status = Draft | Published | Deprecated

  datatype Entry = Entry(id: nat, key: nat, status: Status)

  datatype Snapshot = Entries(ids: seq<nat>) | Constraints(text: string)

  datatype Version = Version(key: nat, number: nat, snapshot: Snapshot)

  /** Where a publisher is: it holds a snapshot, then also the version it is going to insert. */
  datatype Publisher =
    | Holding(key: nat, snapshot: Snapshot)
    | Ready(key: nat, snapshot: Snapshot, next: nat)

  datatype World = World(entries: seq<Entry>, versions: seq<Version>, publishers: map<nat, Publisher>)

  datatype Step =
    | CreateEntry(id: nat, key: nat)
    | PatchStatus(id: nat, status: Status)
    | ReadEntries(p: nat, key: nat)
    | Submit(p: nat, key: nat, text: string)
    | SubmitNew(p: nat, key: nat, text: string)
    | ReadLatest(p: nat)
    | Insert(p: nat)

  // ---------- the repository operations ----------

  /** The ids of a workspace's published entries, newest first; entries are kept in the order of
      their creation. */
  function PublishedIds(entries: seq<Entry>, key: nat): seq<nat> {
    if entries == [] then [] else
      var m := |entries| - 1;
      (if entries[m].key == key && entries[m].status == Published then [entries[m].id] else []) +
      PublishedIds(entries[..m], key)
  }

  predicate IsPublished(entries: seq<Entry>, key: nat, id: nat) {
    exists k :: 0 <= k < |entries| && entries[k] == Entry(id, key, Published)
  }

  /** A snapshot's ids are those of the workspace's published entries, no others. */
  lemma {:induction false} PublishedIdsAre(entries: seq<Entry>, key: nat, id: nat)
    ensures id in PublishedIds(entries, key) <==> IsPublished(entries, key, id)
  {
    if entries != [] {
      var m := |entries| - 1;
      PublishedIdsAre(entries[..m], key, id);
      assert entries == entries[..m] + [entries[m]];
      assert IsPublished(entries, key, id) <==>
        IsPublished(entries[..m], key, id) || entries[m] == Entry(id, key, Published);
    }
  }

  function Patched(entries: seq<Entry>, id: nat, status: Status): (r: seq<Entry>)
    ensures |r| == |entries|
  {
    seq(|entries|, k requires 0 <= k < |entries| =>
      if entries[k].id == id then entries[k].(status := status) else entries[k])
  }

  /** An entry created later comes before those created earlier. */
  lemma {:induction false} NewestFirst(entries: seq<Entry>, e: Entry, key: nat)
    ensures PublishedIds(entries + [e], key) ==
      (if e.key == key && e.status == Published then [e.id] else []) + PublishedIds(entries, key)
  {
    assert (entries + [e])[..|entries|] == entries;
  }

  /** A patch gives the entry with this id its new status and leaves every other entry as it was. */
  lemma PatchedAre(w: World, id: nat, status: Status, k: nat)
    requires k < |w.entries|
    ensures var after := Next(w, PatchStatus(id, status));
      |after.entries| == |w.entries| && after.versions == w.versions && after.publishers == w.publishers &&
      after.entries[k].id == w.entries[k].id && after.entries[k].key == w.entries[k].key &&
      after.entries[k].status == if w.entries[k].id == id then status else w.entries[k].status
  {
  }

  /** The version numbers stored under a key, oldest row first. */
  function Numbers(versions: seq<Version>, key: nat): seq<nat> {
    if versions == [] then [] else
      var m := |versions| - 1;
      Numbers(versions[..m], key) + if versions[m].key == key then [versions[m].number] else []
  }

  function Max(s: seq<nat>): nat {
    if s == [] then 0 else
      var m := |s| - 1;
      if Max(s[..m]) < s[m] then s[m] else Max(s[..m])
  }

  /** The greatest stored version of a key, 0 when there is none. */
  function LatestNumber(versions: seq<Version>, key: nat): nat {
    Max(Numbers(versions, key))
  }

  /** The unique constraint lets the row in. */
  predicate Insertable(versions: seq<Version>, v: Version) {
    v.number !in Numbers(versions, v.key)
  }

  // ---------- the interleaved protocol ----------

  predicate HasId(entries: seq<Entry>, id: nat) {
    exists k :: 0 <= k < |entries| && entries[k].id == id
  }

  /** One step of one request; a step that does not apply changes nothing. */
  function Next(w: World, step: Step): World {
    match step
    case CreateEntry(id, key) =>
      if HasId(w.entries, id) then w else w.(entries := w.entries + [Entry(id, key, Draft)])
    case PatchStatus(id, status) => w.(entries := Patched(w.entries, id, status))
    case ReadEntries(p, key) =>
      w.(publishers := w.publishers[p := Holding(key, Entries(PublishedIds(w.entries, key)))])
    case Submit(p, key, text) =>
      w.(publishers := w.publishers[p := Holding(key, Constraints(text))])
    case SubmitNew(p, key, text) =>
      w.(publishers := w.publishers[p := Ready(key, Constraints(text), 1)])
    case ReadLatest(p) =>
      if p in w.publishers && w.publishers[p].Holding? then
        var h := w.publishers[p];
        w.(publishers := w.publishers[p :=
          Ready(h.key, h.snapshot, LatestNumber(w.versions, h.key) + 1)])
      else w
    case Insert(p) =>
      if p in w.publishers && w.publishers[p].Ready? then
        var r := w.publishers[p];
        var row := Version(r.key, r.next, r.snapshot);
        w.(versions := if Insertable(w.versions, row) then w.versions + [row] else w.versions,
           publishers := w.publishers - {p})
      else w
  }

  function Run(w: World, steps: seq<Step>): World {
    if steps == [] then w else Next(Run(w, steps[..|steps| - 1]), steps[|steps| - 1])
  }

  const EMPTY := World([], [], map[])

  // ---------- versions are exactly 1, 2, ..., n ----------

  function UpTo(n: nat): (s: seq<nat>)
    ensures |s| == n && forall k :: 0 <= k < n ==> s[k] == k + 1
  {
    seq(n, k => k + 1)
  }

  predicate Consecutive(s: seq<nat>) {
    s == UpTo(|s|)
  }

  /** The stored versions of every key are 1..n in insertion order, and no publisher is about to
      insert a number past the next one. */
  ghost predicate Inv(w: World) {
    (forall key: nat :: Consecutive(Numbers(w.versions, key))) &&
    (forall p :: p in w.publishers && w.publishers[p].Ready? ==>
      1 <= w.publishers[p].next <= |Numbers(w.versions, w.publishers[p].key)| + 1)
  }

  lemma {:induction false} MaxOfConsecutive(s: seq<nat>)
    requires Consecutive(s)
    ensures Max(s) == |s|
  {
    if s != [] {
      var m := |s| - 1;
      assert s[..m] == UpTo(m);
      MaxOfConsecutive(s[..m]);
    }
  }

  lemma {:induction false} NumbersAppend(versions: seq<Version>, v: Version, key: nat)
    ensures Numbers(versions + [v], key) ==
      Numbers(versions, key) + if v.key == key then [v.number] else []
  {
    assert (versions + [v])[..|versions|] == versions;
  }

  /** An insert within reach of the stored versions gets in exactly when nobody inserted under that
      key since the latest version was read, and then it continues the sequence. */
  lemma {:induction false} InsertExactly(versions: seq<Version>, v: Version)
    requires Consecutive(Numbers(versions, v.key))
    requires 1 <= v.number <= |Numbers(versions, v.key)| + 1
    ensures Insertable(versions, v) <==> v.number == LatestNumber(versions, v.key) + 1
    ensures Insertable(versions, v) ==> Consecutive(Numbers(versions + [v], v.key))
  {
    var s := Numbers(versions, v.key);
    MaxOfConsecutive(s);
    NumbersAppend(versions, v, v.key);
    if v.number <= |s| {
      assert s[v.number - 1] == v.number;
    } else {
      assert s + [v.number] == UpTo(|s| + 1);
    }
  }

  lemma StepKeepsInv(w: World, step: Step)
    requires Inv(w)
    ensures Inv(Next(w, step))
  {
    hide Numbers, Max, Consecutive, PublishedIds, Patched;
    match step {
      case ReadLatest(p) =>
        if p in w.publishers && w.publishers[p].Holding? {
          assert Consecutive(Numbers(w.versions, w.publishers[p].key));
          MaxOfConsecutive(Numbers(w.versions, w.publishers[p].key));
        }
      case Insert(p) =>
        if p in w.publishers && w.publishers[p].Ready? {
          InsertKeepsInv(w, p);
        }
      case _ =>
    }
  }

  lemma InsertKeepsInv(w: World, p: nat)
    requires Inv(w) && p in w.publishers && w.publishers[p].Ready?
    ensures Inv(Next(w, Insert(p)))
  {
    hide Numbers, Max, Consecutive;
    var r := w.publishers[p];
    var row := Version(r.key, r.next, r.snapshot);
    assert Consecutive(Numbers(w.versions, r.key));
    InsertExactly(w.versions, row);
    if Insertable(w.versions, row) {
      forall key: nat
        ensures Consecutive(Numbers(w.versions + [row], key))
        ensures |Numbers(w.versions, key)| <= |Numbers(w.versions + [row], key)|
      {
        assert Consecutive(Numbers(w.versions, key));
        NumbersAppend(w.versions, row, key);
        assert key != r.key ==> Numbers(w.versions + [row], key) == Numbers(w.versions, key);
      }
    }
  }

  /** Under every interleaving of every number of publishers, the versions stored for a key are
      exactly 1, 2, ..., n, in that order. */
  lemma {:induction false} VersionsConsecutive(steps: seq<Step>)
    ensures Inv(Run(EMPTY, steps))
  {
    if steps != [] {
      var m := |steps| - 1;
      VersionsConsecutive(steps[..m]);
      StepKeepsInv(Run(EMPTY, steps[..m]), steps[m]);
    }
  }

  predicate DistinctIds(entries: seq<Entry>) {
    forall k, l :: 0 <= k < l < |entries| ==> entries[k].id != entries[l].id
  }

  /** No two entries ever have the same id, so a patch changes one entry at most. */
  lemma {:induction false} IdsDistinct(steps: seq<Step>)
    ensures DistinctIds(Run(EMPTY, steps).entries)
  {
    if steps != [] {
      var m := |steps| - 1;
      IdsDistinct(steps[..m]);
      StepKeepsIds(Run(EMPTY, steps[..m]), steps[m]);
    }
  }

  lemma StepKeepsIds(w: World, step: Step)
    requires DistinctIds(w.entries)
    ensures DistinctIds(Next(w, step).entries)
  {
    hide Numbers, Max, PublishedIds;
  }

  /** Stored versions are never changed or removed, by patches or by anything else. */
  lemma {:induction false} SnapshotsKept(w: World, steps: seq<Step>)
    ensures w.versions <= Run(w, steps).versions
  {
    if steps != [] {
      SnapshotsKept(w, steps[..|steps| - 1]);
    }
  }

  /** Two publishers that read the same latest version: whichever inserts first gets in, the other
      is rejected, and the stored version is the first one's snapshot. */
  lemma {:induction false} FirstInsertWins(w: World, p: nat, q: nat)
    requires Inv(w) && p != q && p in w.publishers && q in w.publishers
    requires w.publishers[p].Ready? && w.publishers[q].Ready?
    requires w.publishers[p].key == w.publishers[q].key
    requires w.publishers[p].next == w.publishers[q].next == LatestNumber(w.versions, w.publishers[p].key) + 1
    ensures Run(w, [Insert(p), Insert(q)]).versions ==
      w.versions + [Version(w.publishers[p].key, w.publishers[p].next, w.publishers[p].snapshot)]
  {
    hide Max;
    var r := w.publishers[p];
    var row := Version(r.key, r.next, r.snapshot);
    assert Consecutive(Numbers(w.versions, r.key));
    InsertExactly(w.versions, row);
    NumbersAppend(w.versions, row, r.key);
    assert r.next in Numbers(w.versions + [row], r.key);
    var steps := [Insert(p), Insert(q)];
    assert steps[..1] == [Insert(p)] && steps[..1][..0] == [];
    assert Run(w, []) == w;
    assert Run(w, [Insert(p)]) == Next(w, Insert(p));
  }

  // ---------- where a library version comes from ----------

  function Versions(steps: seq<Step>): seq<Version> {
    Run(EMPTY, steps).versions
  }

  function Publishers(steps: seq<Step>): map<nat, Publisher> {
    Run(EMPTY, steps).publishers
  }

  /** The step replaces what publisher p holds. */
  predicate TakesSnapshot(step: Step, p: nat) {
    (step.ReadEntries? || step.Submit? || step.SubmitNew?) && step.p == p
  }

  /** Publisher p read these ids at step k, and has not taken a snapshot since. */
  predicate EntriesRead(steps: seq<Step>, p: nat, key: nat, ids: seq<nat>, k: nat) {
    k < |steps| && steps[k] == ReadEntries(p, key) &&
    ids == PublishedIds(Run(EMPTY, steps[..k]).entries, key) &&
    forall j :: k < j < |steps| ==> !TakesSnapshot(steps[j], p)
  }

  /** After its read at k, publisher p first read the latest version at step l, and it was number - 1. */
  predicate LatestRead(steps: seq<Step>, p: nat, key: nat, number: nat, k: nat, l: nat) {
    k < l < |steps| && steps[l] == ReadLatest(p) &&
    number == LatestNumber(Versions(steps[..l]), key) + 1 &&
    forall j :: k < j < l ==> steps[j] != ReadLatest(p)
  }

  /** What publisher p holds comes from its own read of the entries and, once it is ready, from its
      own later read of the latest version. */
  ghost predicate Sourced(steps: seq<Step>, p: nat, h: Publisher) {
    h.snapshot.Entries? ==>
      if h.Holding? then
        exists k: nat :: EntriesRead(steps, p, h.key, h.snapshot.ids, k) &&
          forall j :: k < j < |steps| ==> steps[j] != ReadLatest(p)
      else
        exists k: nat, l: nat :: EntriesRead(steps, p, h.key, h.snapshot.ids, k) &&
          LatestRead(steps, p, h.key, h.next, k, l)
  }

  /** The library version stored at position n is publisher p's: it read the entries at step k and
      the latest version at step l, and its insert at step m was accepted. */
  predicate Publication(steps: seq<Step>, n: nat, p: nat, k: nat, l: nat, m: nat) {
    n < |Versions(steps)| && m < |steps| && steps[m] == Insert(p) &&
    |Versions(steps[..m])| == n && |Versions(steps[..m + 1])| == n + 1 &&
    var v := Versions(steps)[n];
    v.snapshot.Entries? && EntriesRead(steps[..m], p, v.key, v.snapshot.ids, k) &&
    LatestRead(steps[..m], p, v.key, v.number, k, l)
  }

  lemma SourcedKept(steps: seq<Step>, m: nat, p: nat, h: Publisher)
    requires |steps| == m + 1 && Sourced(steps[..m], p, h)
    requires !TakesSnapshot(steps[m], p) && (h.Holding? ==> steps[m] != ReadLatest(p))
    ensures Sourced(steps, p, h)
  {
    hide Run, PublishedIds, LatestNumber;
    var before := steps[..m];
    if h.snapshot.Entries? {
      var k: nat :| EntriesRead(before, p, h.key, h.snapshot.ids, k) &&
        (h.Holding? ==> forall j :: k < j < m ==> before[j] != ReadLatest(p)) &&
        (h.Ready? ==> exists l: nat :: LatestRead(before, p, h.key, h.next, k, l));
      assert before[..k] == steps[..k];
      assert EntriesRead(steps, p, h.key, h.snapshot.ids, k);
      if h.Ready? {
        var l: nat :| LatestRead(before, p, h.key, h.next, k, l);
        assert before[..l] == steps[..l];
        assert LatestRead(steps, p, h.key, h.next, k, l);
      }
    }
  }

  lemma SourcedWhenReady(steps: seq<Step>, m: nat, p: nat, g: Publisher)
    requires |steps| == m + 1 && steps[m] == ReadLatest(p) && g.Holding? && Sourced(steps[..m], p, g)
    ensures Sourced(steps, p, Ready(g.key, g.snapshot, LatestNumber(Versions(steps[..m]), g.key) + 1))
  {
    hide Run, PublishedIds, LatestNumber;
    if g.snapshot.Entries? {
      var k: nat :| EntriesRead(steps[..m], p, g.key, g.snapshot.ids, k) &&
        forall j :: k < j < m ==> steps[..m][j] != ReadLatest(p);
      assert steps[..m][..k] == steps[..k];
      assert EntriesRead(steps, p, g.key, g.snapshot.ids, k);
      assert LatestRead(steps, p, g.key, LatestNumber(Versions(steps[..m]), g.key) + 1, k, m);
    }
  }

  lemma {:induction false} SourcedWhenRead(steps: seq<Step>, m: nat, p: nat, key: nat)
    requires |steps| == m + 1 && steps[m] == ReadEntries(p, key)
    ensures Sourced(steps, p, Holding(key, Entries(PublishedIds(Run(EMPTY, steps[..m]).entries, key))))
  {
    hide Run, PublishedIds;
    assert EntriesRead(steps, p, key, PublishedIds(Run(EMPTY, steps[..m]).entries, key), m);
  }

  lemma SourcedNext(steps: seq<Step>, m: nat, p: nat)
    requires |steps| == m + 1 && p in Publishers(steps)
    requires p in Publishers(steps[..m]) ==> Sourced(steps[..m], p, Publishers(steps[..m])[p])
    ensures Sourced(steps, p, Publishers(steps)[p])
  {
    hide PublishedIds, LatestNumber, Numbers, Max, Patched, HasId, Insertable, EntriesRead, LatestRead;
    var step, w := steps[m], Run(EMPTY, steps[..m]);
    var h := Publishers(steps)[p];
    assert Run(EMPTY, steps) == Next(w, step);
    hide Run;
    if step == ReadLatest(p) && p in w.publishers && w.publishers[p].Holding? {
      SourcedWhenReady(steps, m, p, w.publishers[p]);
    } else if TakesSnapshot(step, p) {
      if step.ReadEntries? {
        SourcedWhenRead(steps, m, p, step.key);
      }
    } else {
      assert h == w.publishers[p];
      SourcedKept(steps, m, p, h);
    }
  }

  lemma {:induction false} PublishersSourced(steps: seq<Step>, p: nat)
    requires p in Publishers(steps)
    ensures Sourced(steps, p, Publishers(steps)[p])
  {
    hide Sourced, Next;
    if steps != [] {
      var m := |steps| - 1;
      if p in Publishers(steps[..m]) {
        PublishersSourced(steps[..m], p);
      }
      SourcedNext(steps, m, p);
    }
  }

  lemma {:induction false} VersionsGrow(steps: seq<Step>, k: nat)
    requires k <= |steps|
    ensures Versions(steps[..k]) <= Versions(steps)
  {
    if k < |steps| {
      var m := |steps| - 1;
      VersionsGrow(steps[..m], k);
      assert steps[..m][..k] == steps[..k];
    } else {
      assert steps[..k] == steps;
    }
  }

  /** Every stored library version is some publisher's: it lists exactly the entries of its workspace
      that were published when that publisher read them, whatever was patched before the insert or
      since, and it follows the version that publisher then read as the latest. */
  lemma {:induction false} SnapshotsWitnessed(steps: seq<Step>, n: nat)
    returns (p: nat, k: nat, l: nat, m: nat)
    requires n < |Versions(steps)| && Versions(steps)[n].snapshot.Entries?
    ensures Publication(steps, n, p, k, l, m)
  {
    hide Run, PublishedIds, LatestNumber;
    var last := |steps| - 1;
    RunNothing();
    VersionsGrow(steps, last);
    if n < |Versions(steps[..last])| {
      p, k, l, m := SnapshotsWitnessed(steps[..last], n);
      assert steps[..last][..m] == steps[..m] && steps[..last][..m + 1] == steps[..m + 1];
    } else {
      p := LastInserted(steps, n);
      m := last;
      k, l := ReadsOf(steps[..last], p);
      assert steps[..m + 1] == steps;
    }
  }

  /** A version that the last step brought is that step's publisher's. */
  lemma LastInserted(steps: seq<Step>, n: nat) returns (p: nat)
    requires steps != [] && |Versions(steps[..|steps| - 1])| <= n < |Versions(steps)|
    ensures var before := steps[..|steps| - 1];
      steps[|steps| - 1] == Insert(p) && |Versions(before)| == n && |Versions(steps)| == n + 1 &&
      p in Publishers(before) && Publishers(before)[p].Ready? &&
      var r := Publishers(before)[p]; Versions(steps)[n] == Version(r.key, r.next, r.snapshot)
  {
    hide PublishedIds, LatestNumber, Patched, HasId, Insertable;
    p := steps[|steps| - 1].p;
  }

  /** The two reads of a publisher that is ready to insert a library version. */
  lemma ReadsOf(steps: seq<Step>, p: nat) returns (k: nat, l: nat)
    requires p in Publishers(steps) && Publishers(steps)[p].Ready? && Publishers(steps)[p].snapshot.Entries?
    ensures var r := Publishers(steps)[p];
      EntriesRead(steps, p, r.key, r.snapshot.ids, k) && LatestRead(steps, p, r.key, r.next, k, l)
  {
    hide Run, EntriesRead, LatestRead;
    var r := Publishers(steps)[p];
    PublishersSourced(steps, p);
    k, l :| EntriesRead(steps, p, r.key, r.snapshot.ids, k) && LatestRead(steps, p, r.key, r.next, k, l);
  }

  // ---------- when snapshots follow the order of the versions ----------

  /** Every earlier version of the same workspace was already stored at step k. */
  predicate TakenAfterEarlier(steps: seq<Step>, n: nat, k: nat)
    requires n < |Versions(steps)| && k <= |steps|
  {
    forall a :: 0 <= a < n && Versions(steps)[a].key == Versions(steps)[n].key ==> a < |Versions(steps[..k])|
  }

  lemma {:induction false} NumbersConcat(a: seq<Version>, b: seq<Version>, key: nat)
    ensures Numbers(a + b, key) == Numbers(a, key) + Numbers(b, key)
  {
    if b == [] {
      assert a + b == a;
    } else {
      var m := |b| - 1;
      assert (a + b)[..|a + b| - 1] == a + b[..m];
      NumbersConcat(a, b[..m], key);
    }
  }

  lemma {:induction false} NoNumbers(versions: seq<Version>, key: nat)
    ensures Numbers(versions, key) == [] <==> forall k :: 0 <= k < |versions| ==> versions[k].key != key
  {
    if versions != [] {
      NoNumbers(versions[..|versions| - 1], key);
    }
  }

  /** Between two moments no version of the key is stored exactly when its latest number stays. */
  lemma {:induction false} LatestStays(a: seq<Version>, b: seq<Version>, key: nat)
    requires a <= b && Consecutive(Numbers(a, key)) && Consecutive(Numbers(b, key))
    ensures LatestNumber(a, key) <= LatestNumber(b, key)
    ensures LatestNumber(a, key) == LatestNumber(b, key) <==>
      forall k :: |a| <= k < |b| ==> b[k].key != key
  {
    hide Numbers, Max, Consecutive;
    var rest := b[|a|..];
    assert b == a + rest;
    NumbersConcat(a, rest, key);
    NoNumbers(rest, key);
    MaxOfConsecutive(Numbers(a, key));
    MaxOfConsecutive(Numbers(b, key));
    assert forall k :: |a| <= k < |b| ==> b[k] == rest[k - |a|];
  }

  lemma {:induction false} StoredConsecutive(steps: seq<Step>, key: nat)
    ensures Consecutive(Numbers(Versions(steps), key))
  {
    hide Consecutive, Numbers;
    VersionsConsecutive(steps);
  }

  /** The number an accepted insert stores continues what is stored at that moment. */
  lemma InsertedNumber(steps: seq<Step>, n: nat, p: nat, k: nat, l: nat, m: nat)
    requires Publication(steps, n, p, k, l, m)
    ensures var v := Versions(steps)[n]; v.number == LatestNumber(Versions(steps[..m]), v.key) + 1
    ensures Versions(steps[..m]) == Versions(steps)[..n]
  {
    hide Max, Run, PublishedIds, Consecutive, Numbers;
    var v := Versions(steps)[n];
    VersionsGrow(steps, m + 1);
    VersionsGrow(steps, m);
    VersionsGrow(steps[..m + 1], m);
    assert steps[..m + 1][..m] == steps[..m];
    var before := Versions(steps[..m]);
    assert Versions(steps[..m + 1]) == before + [v];
    NumbersAppend(before, v, v.key);
    StoredConsecutive(steps[..m], v.key);
    StoredConsecutive(steps[..m + 1], v.key);
    LastOfConsecutive(Numbers(before, v.key), v.number);
  }

  lemma {:induction false} LastOfConsecutive(s: seq<nat>, number: nat)
    requires Consecutive(s) && Consecutive(s + [number])
    ensures number == Max(s) + 1
  {
    MaxOfConsecutive(s);
    assert (s + [number])[|s|] == number;
  }

  /** A version's snapshot was read after every earlier version of its workspace had been stored
      exactly when the latest version was the same at that read as at the publisher's read of the
      latest version: no other publisher's insert was accepted between the two reads. */
  lemma SnapshotOrderExactly(steps: seq<Step>, n: nat, p: nat, k: nat, l: nat, m: nat)
    requires Publication(steps, n, p, k, l, m)
    ensures var key := Versions(steps)[n].key;
      TakenAfterEarlier(steps, n, k) <==>
      LatestNumber(Versions(steps[..k]), key) == LatestNumber(Versions(steps[..l]), key)
  {
    hide LatestNumber, Run, PublishedIds, Consecutive, Numbers, Max;
    var key := Versions(steps)[n].key;
    InsertedNumber(steps, n, p, k, l, m);
    assert steps[..m][..l] == steps[..l];
    VersionsGrow(steps[..m], k);
    assert steps[..m][..k] == steps[..k];
    StoredConsecutive(steps[..k], key);
    StoredConsecutive(steps[..m], key);
    LatestStays(Versions(steps[..k]), Versions(steps[..m]), key);
  }

  /** Then the moments themselves are ordered: an earlier version's entries were read, and that
      version stored, before this one's entries were read. */
  lemma SnapshotsInOrder(steps: seq<Step>, a: nat, pa: nat, ka: nat, la: nat, ma: nat,
      n: nat, k: nat)
    requires Publication(steps, a, pa, ka, la, ma) && a < n < |Versions(steps)| && k <= |steps|
    requires Versions(steps)[a].key == Versions(steps)[n].key && TakenAfterEarlier(steps, n, k)
    ensures ka < la < ma < k
  {
    hide Run, LatestNumber, PublishedIds;
    if k <= ma {
      FewerBefore(steps, k, ma);
    }
  }

  lemma FewerBefore(steps: seq<Step>, k: nat, m: nat)
    requires k <= m <= |steps|
    ensures |Versions(steps[..k])| <= |Versions(steps[..m])|
  {
    hide Run;
    VersionsGrow(steps[..m], k);
    assert steps[..m][..k] == steps[..k];
  }

  /** Of two versions of a workspace, the later one's publisher read the latest version only after the
      earlier one had been stored. */
  lemma EarlierStoredBeforeLatestRead(steps: seq<Step>, a: nat, pa: nat, ka: nat, la: nat, ma: nat,
      n: nat, p: nat, k: nat, l: nat, m: nat)
    requires Publication(steps, a, pa, ka, la, ma) && Publication(steps, n, p, k, l, m)
    requires Versions(steps)[a].key == Versions(steps)[n].key && a < n
    ensures ma < l
  {
    hide LatestNumber, Run, PublishedIds, Consecutive, Numbers;
    var key := Versions(steps)[n].key;
    InsertedNumber(steps, n, p, k, l, m);
    assert steps[..m][..l] == steps[..l];
    VersionsGrow(steps[..m], l);
    StoredConsecutive(steps[..l], key);
    StoredConsecutive(steps[..m], key);
    LatestStays(Versions(steps[..l]), Versions(steps[..m]), key);
    assert Versions(steps[..m])[a].key == key;
    if l <= ma {
      FewerBefore(steps, l, ma);
    }
  }

  /** Versions of a workspace are stored in the order of their numbers. */
  lemma NumbersInOrder(steps: seq<Step>, a: nat, pa: nat, ka: nat, la: nat, ma: nat,
      n: nat, p: nat, k: nat, l: nat, m: nat)
    requires Publication(steps, a, pa, ka, la, ma) && Publication(steps, n, p, k, l, m)
    requires Versions(steps)[a].key == Versions(steps)[n].key && a < n
    ensures Versions(steps)[a].number < Versions(steps)[n].number
  {
    hide LatestNumber, Run, PublishedIds, Consecutive, Numbers;
    var v, stored := Versions(steps)[a], Versions(steps);
    InsertedNumber(steps, a, pa, ka, la, ma);
    InsertedNumber(steps, n, p, k, l, m);
    StoredConsecutive(steps[..ma], v.key);
    StoredConsecutive(steps[..m], v.key);
    assert stored[..a] <= stored[..n] && stored[..n][a].key == v.key;
    LatestStays(stored[..a], stored[..n], v.key);
  }

  /** The greater of two numbers holds an entries read that is no later than the smaller one's exactly
      when its publisher was overtaken: between its two reads the other publisher read the entries
      and had its insert accepted. */
  lemma OvertakenExactly(steps: seq<Step>, a: nat, pa: nat, ka: nat, la: nat, ma: nat,
      n: nat, p: nat, k: nat, l: nat, m: nat)
    requires Publication(steps, a, pa, ka, la, ma) && Publication(steps, n, p, k, l, m)
    requires Versions(steps)[a].key == Versions(steps)[n].key
    ensures Versions(steps)[a].number < Versions(steps)[n].number && k <= ka <==> k < ka && ma < l
  {
    hide LatestNumber, Run, PublishedIds;
    if a < n {
      NumbersInOrder(steps, a, pa, ka, la, ma, n, p, k, l, m);
      EarlierStoredBeforeLatestRead(steps, a, pa, ka, la, ma, n, p, k, l, m);
    } else {
      if n < a {
        NumbersInOrder(steps, n, p, k, l, m, a, pa, ka, la, ma);
      }
      if ma < l {
        FewerBefore(steps, ma + 1, m);
      }
    }
  }

  const OVERTAKEN := [
    CreateEntry(1, 0), ReadEntries(10, 0), PatchStatus(1, Published), ReadEntries(11, 0),
    ReadLatest(11), Insert(11), ReadLatest(10), Insert(10)]

  /** It can fail: a publisher that reads the entries early and the latest version late stores an
      older state of the library under the greater number. */
  lemma SnapshotsOutOfOrder()
    ensures Versions(OVERTAKEN) == [Version(0, 1, Entries([1])), Version(0, 2, Entries([]))]
  {
    hide Next, Run;
    var s := OVERTAKEN;
    RunNothing();
    assert s[..0] == [] && s[..8] == s;
    RunStep(s, 0); RunStep(s, 1); RunStep(s, 2); RunStep(s, 3);
    OvertakenReads();
    RunStep(s, 4); RunStep(s, 5); RunStep(s, 6); RunStep(s, 7);
    OvertakenInserts(Run(EMPTY, s[..4]));
  }

  lemma RunNothing()
    ensures Run(EMPTY, []) == EMPTY
  {
  }

  lemma RunStep(steps: seq<Step>, k: nat)
    requires k < |steps|
    ensures Run(EMPTY, steps[..k + 1]) == Next(Run(EMPTY, steps[..k]), steps[k])
  {
    hide Next;
    assert steps[..k + 1][..k] == steps[..k];
  }

  lemma OvertakenReads()
    ensures Next(Next(Next(Next(EMPTY, CreateEntry(1, 0)), ReadEntries(10, 0)), PatchStatus(1, Published)),
      ReadEntries(11, 0)) ==
      World([Entry(1, 0, Published)], [], map[10 := Holding(0, Entries([])), 11 := Holding(0, Entries([1]))])
  {
    var draft, published := [Entry(1, 0, Draft)], [Entry(1, 0, Published)];
    assert PublishedIds(draft, 0) == [] && PublishedIds(published, 0) == [1] by {
      assert draft[..0] == [] && published[..0] == [];
    }
    assert Patched(draft, 1, Published) == published;
  }

  /** With nothing in between, reading the latest version and inserting stores the next one. */
  lemma {:induction false} ReadAndInsert(w: World, p: nat, key: nat, snapshot: Snapshot)
    requires p in w.publishers && w.publishers[p] == Holding(key, snapshot)
    requires Consecutive(Numbers(w.versions, key))
    ensures var w' := Next(Next(w, ReadLatest(p)), Insert(p));
      w'.versions == w.versions + [Version(key, |Numbers(w.versions, key)| + 1, snapshot)] &&
      w'.publishers == w.publishers - {p}
  {
    hide Numbers, Max, Consecutive;
    MaxOfConsecutive(Numbers(w.versions, key));
    InsertExactly(w.versions, Version(key, |Numbers(w.versions, key)| + 1, snapshot));
  }

  lemma OvertakenInserts(w: World)
    requires w.versions == [] && w.publishers ==
      map[10 := Holding(0, Entries([])), 11 := Holding(0, Entries([1]))]
    ensures Next(Next(Next(Next(w, ReadLatest(11)), Insert(11)), ReadLatest(10)), Insert(10)).versions ==
      [Version(0, 1, Entries([1])), Version(0, 2, Entries([]))]
  {
    var one := Version(0, 1, Entries([1]));
    assert Numbers([], 0) == [];
    NumbersAppend([], one, 0);
    assert [] + [one] == [one];
    assert [] + [1] == UpTo(1);
    hide Next, Numbers;
    ReadAndInsert(w, 11, 0, Entries([1]));
    var w' := Next(Next(w, ReadLatest(11)), Insert(11));
    assert 10 in w'.publishers;
    ReadAndInsert(w', 10, 0, Entries([]));
  }

  // ---------- the endpoints, uninterrupted ----------

  class Library {
    var entries: seq<Entry>
    var versions: seq<Version>

    ghost predicate Valid()
      reads this
    {
      forall key: nat :: Consecutive(Numbers(versions, key))
    }

    constructor ()
      ensures Valid() && entries == [] && versions == []
    {
      entries, versions := [], [];
    }

    method Create(id: nat, key: nat)
      requires Valid() && !HasId(entries, id)
      modifies this
      ensures Valid() && versions == old(versions)
      ensures entries == old(entries) + [Entry(id, key, Draft)]
    {
      entries := entries + [Entry(id, key, Draft)];
    }

    /** Changes the status of the entry with this id, if any; false is the 404. */
    method Patch(id: nat, status: Status) returns (found: bool)
      requires Valid()
      modifies this
      ensures Valid() && versions == old(versions)
      ensures found <==> HasId(old(entries), id)
      ensures |entries| == |old(entries)| && forall k :: 0 <= k < |entries| ==>
        entries[k] == if old(entries)[k].id == id then old(entries)[k].(status := status) else old(entries)[k]
      ensures entries == Patched(old(entries), id, status)
    {
      found := HasId(entries, id);
      entries := Patched(entries, id, status);
    }

    /** Reads, then inserts, with nothing in between: it always gets in, as the next version. */
    method Publish(key: nat) returns (v: Version)
      requires Valid()
      modifies this
      ensures Valid() && entries == old(entries)
      ensures v == Version(key, |Numbers(old(versions), key)| + 1, Entries(PublishedIds(entries, key)))
      ensures versions == old(versions) + [v]
      ensures forall p: nat, w: World :: w.entries == entries && w.versions == old(versions) ==>
        Run(w, [ReadEntries(p, key), ReadLatest(p), Insert(p)]).versions == versions
    {
      hide Numbers, Max;
      var ids := PublishedIds(entries, key);
      var latest := LatestNumber(versions, key);
      v := Version(key, latest + 1, Entries(ids));
      UninterruptedInsert(versions, v);
      versions := versions + [v];
      forall p: nat, w: World | w.entries == entries && w.versions == old(versions)
        ensures Run(w, [ReadEntries(p, key), ReadLatest(p), Insert(p)]).versions == versions
      {
        ThreeSteps(w, ReadEntries(p, key), ReadLatest(p), Insert(p));
      }
    }
  }

  class ConstraintSets {
    var versions: seq<Version>

    ghost predicate Valid()
      reads this
    {
      forall key: nat :: Consecutive(Numbers(versions, key))
    }

    constructor ()
      ensures Valid() && versions == []
    {
      versions := [];
    }

    /** A new version of an existing set, or version 1 of a set with a newly drawn id. An id given
        by the caller that names no stored set starts one at version 1. */
    method Create(existing: bool, id: nat, text: string) returns (v: Version)
      requires Valid() && (!existing ==> Numbers(versions, id) == [])
      modifies this
      ensures Valid()
      ensures v == Version(id, |Numbers(old(versions), id)| + 1, Constraints(text))
      ensures versions == old(versions) + [v]
      ensures !existing ==> v.number == 1
    {
      var number := 1;
      if existing {
        number := LatestNumber(versions, id) + 1;
      }
      v := Version(id, number, Constraints(text));
      UninterruptedInsert(versions, v);
      versions := versions + [v];
    }
  }

  lemma {:induction false} UninterruptedInsert(versions: seq<Version>, v: Version)
    requires forall key: nat :: Consecutive(Numbers(versions, key))
    requires v.number == LatestNumber(versions, v.key) + 1
    ensures v.number == |Numbers(versions, v.key)| + 1 && Insertable(versions, v)
    ensures forall key: nat :: Consecutive(Numbers(versions + [v], key))
  {
    hide Numbers, Consecutive, Max;
    assert Consecutive(Numbers(versions, v.key));
    MaxOfConsecutive(Numbers(versions, v.key));
    InsertExactly(versions, v);
    forall other: nat ensures Consecutive(Numbers(versions + [v], other)) {
      NumbersAppend(versions, v, other);
      assert Consecutive(Numbers(versions, other));
      assert other != v.key ==> Numbers(versions + [v], other) == Numbers(versions, other);
    }
  }

  lemma {:induction false} ThreeSteps(w: World, a: Step, b: Step, c: Step)
    ensures Run(w, [a, b, c]) == Next(Next(Next(w, a), b), c)
  {
    hide Next;
    var s := [a, b, c];
    assert s[..2] == [a, b] && [a, b][..1] == [a] && [a][..0] == [];
    assert Run(w, []) == w;
    assert Run(w, [a]) == Next(w, a);
    assert Run(w, [a, b]) == Next(Run(w, [a]), b);
  }
}
